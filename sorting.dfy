/**
 * Ordering rows by a comparator: a stable insertion sort on sequences, the
 * meaning of the store's `ORDER BY`, and an in-place sort of an array, the
 * meaning of JavaScript's `Array.prototype.sort` with a comparator.
 * `le(x, y)` holds when `x` may come before `y`.
 */
module Sorting {

  ghost predicate TotalPreorder<T(!new)>(le: (T, T) -> bool) {
    && (forall x, y :: le(x, y) || le(y, x))
    && (forall x, y, z :: le(x, y) && le(y, z) ==> le(x, z))
  }

  predicate SortedBy<T>(s: seq<T>, le: (T, T) -> bool) {
    forall i, j :: 0 <= i < j < |s| ==> le(s[i], s[j])
  }

  /** Puts `x` in front of the first element it may precede. */
  function Insert<T>(x: T, s: seq<T>, le: (T, T) -> bool): seq<T> {
    if s == [] || le(x, s[0]) then [x] + s else [s[0]] + Insert(x, s[1..], le)
  }

  function InsertionSort<T>(s: seq<T>, le: (T, T) -> bool): seq<T> {
    if s == [] then [] else Insert(s[0], InsertionSort(s[1..], le), le)
  }

  lemma {:induction false} InsertPermutes<T>(x: T, s: seq<T>, le: (T, T) -> bool)
    ensures multiset(Insert(x, s, le)) == multiset{x} + multiset(s)
  {
    if s != [] && !le(x, s[0]) {
      InsertPermutes(x, s[1..], le);
      assert s == [s[0]] + s[1..];
    }
  }

  lemma {:induction false} InsertSorted<T(!new)>(x: T, s: seq<T>, le: (T, T) -> bool)
    requires TotalPreorder(le)
    requires SortedBy(s, le)
    ensures SortedBy(Insert(x, s, le), le)
  {
    if s == [] || le(x, s[0]) {
      var r := [x] + s;
      forall i, j | 0 <= i < j < |r| ensures le(r[i], r[j]) {
        if i == 0 && j > 1 {
          assert le(s[0], s[j - 1]);
        }
      }
    } else {
      var t := Insert(x, s[1..], le);
      InsertSorted(x, s[1..], le);
      InsertPermutes(x, s[1..], le);
      var r := [s[0]] + t;
      forall j | 0 <= j < |t| ensures le(s[0], t[j]) {
        assert t[j] in multiset(t);
        assert t[j] == x || t[j] in multiset(s[1..]);
        if t[j] != x {
          var k :| 0 <= k < |s[1..]| && s[1..][k] == t[j];
          assert le(s[0], s[k + 1]);
        }
      }
      forall i, j | 0 <= i < j < |r| ensures le(r[i], r[j]) {
        if i == 0 {
          assert r[j] == t[j - 1];
        } else {
          assert r[i] == t[i - 1] && r[j] == t[j - 1];
        }
      }
    }
  }

  /** The stable insertion sort orders its input and keeps exactly its elements. */
  lemma {:induction false} InsertionSortCorrect<T(!new)>(s: seq<T>, le: (T, T) -> bool)
    requires TotalPreorder(le)
    ensures SortedBy(InsertionSort(s, le), le)
    ensures multiset(InsertionSort(s, le)) == multiset(s)
  {
    if s != [] {
      InsertionSortCorrect(s[1..], le);
      InsertSorted(s[0], InsertionSort(s[1..], le), le);
      InsertPermutes(s[0], InsertionSort(s[1..], le), le);
      assert s == [s[0]] + s[1..];
    }
  }

  /**
   * Sorts `a` in place by adjacent swaps. A comparator under which every
   * pair may stay as it is (JavaScript's comparator that always returns 0)
   * leaves the array unchanged.
   */
  method SortInPlace<T(!new)>(a: array<T>, le: (T, T) -> bool)
    requires TotalPreorder(le)
    modifies a
    ensures SortedBy(a[..], le)
    ensures multiset(a[..]) == old(multiset(a[..]))
    ensures (forall i, j :: 0 <= i < j < a.Length ==> le(old(a[i]), old(a[j]))) ==> a[..] == old(a[..])
  {
    ghost var original := a[..];
    ghost var inOrder := forall i, j :: 0 <= i < j < a.Length ==> le(a[i], a[j]);
    var i := 0;
    while i < a.Length
      invariant 0 <= i <= a.Length
      invariant forall p, q :: 0 <= p < q < i ==> le(a[p], a[q])
      invariant multiset(a[..]) == multiset(original)
      invariant inOrder ==> a[..] == original
    {
      var j := i;
      while j > 0 && !le(a[j - 1], a[j])
        invariant 0 <= j <= i
        invariant forall p, q :: 0 <= p < q <= i && q != j ==> le(a[p], a[q])
        invariant multiset(a[..]) == multiset(original)
        invariant inOrder ==> a[..] == original && j == i
      {
        a[j - 1], a[j] := a[j], a[j - 1];
        j := j - 1;
      }
      i := i + 1;
    }
  }
}
