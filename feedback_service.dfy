/**
 * The display helpers of `src/services/feedbackService.js`: the five-star
 * vector of a rating and the guard of the date formatter.
 */
module FeedbackService {
  import opened Common

  datatype Star = Star(filled: bool)

  /** `getStarRating`: five entries, entry `i` filled when `i < rating`. */
  function StarRating(rating: int): (stars: seq<Star>)
    ensures |stars| == 5
    ensures forall i :: 0 <= i < 5 ==> (stars[i].filled <==> i < rating)
  {
    seq(5, i requires 0 <= i < 5 => Star(i < rating))
  }

  function FilledCount(stars: seq<Star>): (n: nat)
    ensures n <= |stars|
  {
    if stars == [] then 0 else (if stars[0].filled then 1 else 0) + FilledCount(stars[1..])
  }

  /** The rating clamped to the five stars: `min(max(rating, 0), 5)`. */
  function Clamp5(rating: int): (k: nat)
    ensures k <= 5
  {
    if rating < 0 then 0 else if rating > 5 then 5 else rating
  }

  /** Entries from `from` on count the positions below `rating`. */
  lemma {:induction false} FilledFrom(rating: int, from: nat)
    requires from <= 5
    ensures FilledCount(StarRating(rating)[from..]) == Clamp5(rating) - (if Clamp5(rating) < from then Clamp5(rating) else from)
    decreases 5 - from
  {
    var s := StarRating(rating);
    if from < 5 {
      assert s[from..][1..] == s[from + 1..];
      FilledFrom(rating, from + 1);
    } else {
      assert s[from..] == [];
    }
  }

  /**
   * The filled entries come first, and there are as many of them as the
   * rating clamped to between 0 and 5.
   */
  lemma StarsFilledPrefix(rating: int)
    ensures FilledCount(StarRating(rating)) == Clamp5(rating)
    ensures forall i, j :: 0 <= i < j < 5 && StarRating(rating)[j].filled ==> StarRating(rating)[i].filled
    ensures forall i :: 0 <= i < 5 ==> (StarRating(rating)[i].filled <==> i < Clamp5(rating))
  {
    FilledFrom(rating, 0);
    assert StarRating(rating)[0..] == StarRating(rating);
  }

  /**
   * `formatDate`: a missing or empty text gives `''`; any other text is
   * handed to the locale formatter, which is a parameter here.
   */
  function FormatDate(dateString: Option<string>, localeFormat: string -> string): (r: string)
    ensures dateString.None? || dateString.value == "" ==> r == ""
    ensures dateString.Some? && dateString.value != "" ==> r == localeFormat(dateString.value)
  {
    if dateString.None? || dateString.value == "" then "" else localeFormat(dateString.value)
  }
}
