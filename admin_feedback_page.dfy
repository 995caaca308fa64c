/**
 * The admin's feedback page, `src/pages/admin/Feedback.jsx`: the search and
 * rating filters over the fetched page of feedback, the in-place sort by
 * rating or date, the sort buttons, the reset button and the page count.
 */
module AdminFeedbackPage {
  import opened Common
  import opened Calendar
  import opened Pagination
  import Sorting

  /**
   * One feedback entry as the page reads it. `createdAt` is the time stamp
   * `new Date(created_at)` yields, in milliseconds.
   */
  datatype FeedbackItem = FeedbackItem(
    id: int,
    clientName: Option<string>,
    serviceName: Option<string>,
    comment: Option<string>,
    rating: int,
    createdAt: int)

  /** The page's filter and sort state. */
  datatype FeedbackView = FeedbackView(searchTerm: string, filterRating: string, sortBy: string, sortOrder: string)

  /** The state the page opens with, and the one the reset button restores. */
  const InitialView := FeedbackView("", "", "created_at", "desc")

  /** `feedbackData?.data || []`. */
  function Items(data: Option<seq<FeedbackItem>>): seq<FeedbackItem> {
    if data.Some? then data.value else []
  }

  /** `Math.ceil((total_results || 0) / 10)`: no pages at all when there are no results. */
  function FeedbackTotalPages(totalResults: Option<nat>): (pages: nat)
    ensures pages == 0 <==> totalResults.None? || totalResults.value == 0
    ensures totalResults.Some? ==> pages == PageCount(totalResults.value)
  {
    PageCount(if totalResults.Some? then totalResults.value else 0)
  }

  // ---------------------------------------------------------------------
  // Filters
  // ---------------------------------------------------------------------

  /** The null-safe search test: a missing field does not match. */
  predicate MatchesTerm(item: FeedbackItem, term: string) {
    || (item.clientName.Some? && Contains(Lower(item.clientName.value), term))
    || (item.serviceName.Some? && Contains(Lower(item.serviceName.value), term))
    || (item.comment.Some? && Contains(Lower(item.comment.value), term))
  }

  /**
   * JavaScript's `parseInt` in base 10: leading white space, an optional
   * sign, then at least one digit; `None` is NaN.
   */
  function ParseInt(s: string): (r: Option<int>)
    ensures s == [] ==> r.None?
  {
    if s == [] then None
    else if IsSpace(s[0]) then ParseInt(s[1..])
    else if s[0] == '-' || s[0] == '+' then
      if |s| >= 2 && IsDecimal(s[1]) then
        var v := LeadingDigits(s[1..], 0) as int;
        Some(if s[0] == '-' then 0 - v else v)
      else None
    else if IsDecimal(s[0]) then Some(LeadingDigits(s, 0))
    else None
  }

  /** The options of the rating menu, `String(n)`, read back as `n`. */
  lemma ParseIntOfNumberText(n: nat)
    ensures ParseInt(NatText(n)) == Some(n)
  {
    NatTextRead(n);
    assert IsDigit(NatText(n)[0]);
  }

  /**
   * The rows the two filters keep, in their order: the search when the term
   * is not empty, then the rating when one is chosen. A rating menu text
   * that is not a number keeps nothing, as `=== NaN` never holds.
   */
  function Kept(items: seq<FeedbackItem>, view: FeedbackView): seq<FeedbackItem> {
    var searched :=
      if view.searchTerm != "" then Filter(items, (x: FeedbackItem) => MatchesTerm(x, Lower(view.searchTerm)))
      else items;
    if view.filterRating != "" then Filter(searched, (x: FeedbackItem) => Some(x.rating) == ParseInt(view.filterRating))
    else searched
  }

  /** An entry is kept iff it passes the search (when a term is set) and has the chosen rating (when one is set). */
  lemma KeptExactly(items: seq<FeedbackItem>, view: FeedbackView, x: FeedbackItem)
    ensures x in Kept(items, view) <==>
      && x in items
      && (view.searchTerm == "" || MatchesTerm(x, Lower(view.searchTerm)))
      && (view.filterRating == "" || Some(x.rating) == ParseInt(view.filterRating))
  {
  }

  /** Choosing "n stars" in the menu keeps exactly the entries rated `n`. */
  lemma RatingMenuKeepsThatRating(items: seq<FeedbackItem>, n: nat, x: FeedbackItem)
    requires x in items
    ensures x in Kept(items, FeedbackView("", NatText(n), "created_at", "desc")) <==> x.rating == n
  {
    ParseIntOfNumberText(n);
  }

  // ---------------------------------------------------------------------
  // Sorting
  // ---------------------------------------------------------------------

  /**
   * `a` may stay before `b`: the comparator's difference is not positive.
   * Any field other than rating and date compares every pair as equal.
   */
  function FeedbackLe(sortBy: string, sortOrder: string): (FeedbackItem, FeedbackItem) -> bool {
    (a: FeedbackItem, b: FeedbackItem) =>
      if sortBy == "rating" then
        (if sortOrder == "asc" then a.rating <= b.rating else b.rating <= a.rating)
      else if sortBy == "created_at" then
        (if sortOrder == "asc" then a.createdAt <= b.createdAt else b.createdAt <= a.createdAt)
      else true
  }

  lemma FeedbackLeIsTotalPreorder(sortBy: string, sortOrder: string)
    ensures Sorting.TotalPreorder(FeedbackLe(sortBy, sortOrder))
  {
  }

  /**
   * `filteredFeedback`: an empty page gives the empty list; otherwise a copy
   * is filtered and then sorted in place. The result holds exactly the kept
   * entries, ordered by the comparator; with another sort field it is the
   * kept entries in their fetched order.
   */
  method FilteredFeedback(data: Option<seq<FeedbackItem>>, view: FeedbackView) returns (r: seq<FeedbackItem>)
    ensures Items(data) == [] ==> r == []
    ensures multiset(r) == multiset(Kept(Items(data), view))
    ensures Sorting.SortedBy(r, FeedbackLe(view.sortBy, view.sortOrder))
    ensures view.sortBy != "rating" && view.sortBy != "created_at" ==> r == Kept(Items(data), view)
  {
    var feedback := Items(data);
    if |feedback| == 0 {
      return [];
    }
    var filtered := feedback;
    if view.searchTerm != "" {
      var term := Lower(view.searchTerm);
      filtered := Filter(filtered, (x: FeedbackItem) => MatchesTerm(x, term));
    }
    if view.filterRating != "" {
      var wanted := ParseInt(view.filterRating);
      filtered := Filter(filtered, (x: FeedbackItem) => Some(x.rating) == wanted);
    }
    assert filtered == Kept(feedback, view);
    var a := new FeedbackItem[|filtered|](i requires 0 <= i < |filtered| => filtered[i]);
    assert a[..] == filtered;
    FeedbackLeIsTotalPreorder(view.sortBy, view.sortOrder);
    Sorting.SortInPlace(a, FeedbackLe(view.sortBy, view.sortOrder));
    r := a[..];
  }

  // ---------------------------------------------------------------------
  // Buttons
  // ---------------------------------------------------------------------

  /** `handleSortChange`: the current field flips its order, another field becomes the sort field, descending. */
  function HandleSortChange(view: FeedbackView, field: string): (next: FeedbackView)
    ensures next.searchTerm == view.searchTerm && next.filterRating == view.filterRating
    ensures next.sortBy == field
    ensures view.sortBy == field ==> next.sortOrder == (if view.sortOrder == "asc" then "desc" else "asc")
    ensures view.sortBy != field ==> next.sortOrder == "desc"
  {
    if view.sortBy == field then view.(sortOrder := if view.sortOrder == "asc" then "desc" else "asc")
    else view.(sortBy := field, sortOrder := "desc")
  }

  /** Two clicks on the sort field restore the order it had, once it is "asc" or "desc". */
  lemma SortChangeTwice(view: FeedbackView)
    requires view.sortOrder == "asc" || view.sortOrder == "desc"
    ensures HandleSortChange(HandleSortChange(view, view.sortBy), view.sortBy) == view
  {
  }

  /** `resetFilters`: the opening state, whatever was set. */
  function ResetFilters(view: FeedbackView): (next: FeedbackView)
    ensures next == InitialView
  {
    FeedbackView("", "", "created_at", "desc")
  }

  /** After a reset every fetched entry is shown, newest first. */
  lemma ResetShowsEverythingNewestFirst(items: seq<FeedbackItem>, view: FeedbackView)
    ensures Kept(items, ResetFilters(view)) == items
    ensures forall a, b :: FeedbackLe(ResetFilters(view).sortBy, ResetFilters(view).sortOrder)(a, b) <==> b.createdAt <= a.createdAt
  {
  }
}
