/**
 * Values shared by every endpoint and page: optional request fields, PHP's
 * truthiness of posted values, ASCII case folding, substring search and the
 * `LIKE` pattern match of the relational store.
 */
module Common {

  datatype Option<T> = None | Some(value: T)

  /** A posted string is truthy in PHP when it is present, not "" and not "0". */
  predicate TruthyText(s: Option<string>) {
    s.Some? && s.value != "" && s.value != "0"
  }

  /**
   * A posted number: not set, set to text PHP's `is_numeric` rejects (with
   * the value `intval` still reads from its leading digits), or numeric text
   * (with its `intval`).
   */
  datatype PostedNumber = Unset | NonNumeric(leading: int) | Numeric(value: int)

  /** PHP's null-coalescing `first ?? second`. */
  function Coalesce<T>(first: Option<T>, second: Option<T>): Option<T> {
    if first.Some? then first else second
  }

  /** A user id as PHP holds it: an integer (from the session) or request text. */
  datatype IdValue = IdInt(n: int) | IdText(text: string)

  /**
   * Who is calling: the `user_id` and `role` fields of the POST body and the
   * same two keys of the established session.
   */
  datatype Caller = Caller(
    postedId: Option<IdValue>,
    postedRole: Option<string>,
    sessionId: Option<IdValue>,
    sessionRole: Option<string>)

  /** `$_POST['user_id'] ?? $_SESSION['user_id'] ?? null`. */
  function PostedFirstId(c: Caller): Option<IdValue> {
    Coalesce(c.postedId, c.sessionId)
  }

  /** `$_POST['role'] ?? $_SESSION['role'] ?? null`. */
  function PostedFirstRole(c: Caller): Option<string> {
    Coalesce(c.postedRole, c.sessionRole)
  }

  /** `$_SESSION['user_id'] ?? $_POST['user_id'] ?? null`. */
  function SessionFirstId(c: Caller): Option<IdValue> {
    Coalesce(c.sessionId, c.postedId)
  }

  /** `$_SESSION['role'] ?? $_POST['role'] ?? null`. */
  function SessionFirstRole(c: Caller): Option<string> {
    Coalesce(c.sessionRole, c.postedRole)
  }

  predicate IsSpace(c: char) {
    c == ' ' || c == '\t' || c == '\n' || c == '\r' || c == '\U{0B}' || c == '\U{0C}'
  }

  predicate IsDecimal(c: char) {
    '0' <= c <= '9'
  }

  /** The value of the run of decimal digits at the start of `s`, read left to right onto `acc`. */
  function LeadingDigits(s: string, acc: nat): (r: nat)
    ensures acc <= r
    ensures (s == [] || !IsDecimal(s[0])) ==> r == acc
  {
    if s == [] || !IsDecimal(s[0]) then acc
    else LeadingDigits(s[1..], acc * 10 + (s[0] as int - '0' as int))
  }

  /**
   * PHP's `intval`/`(int)` of text in its decimal form: leading white space,
   * an optional sign, then as many digits as there are; text that does not
   * start that way reads as 0.
   */
  function Intval(s: string): (r: int)
    ensures s == [] ==> r == 0
    ensures (|s| > 0 && !IsSpace(s[0]) && !IsDecimal(s[0]) && s[0] != '-' && s[0] != '+') ==> r == 0
  {
    if s == [] then 0
    else if IsSpace(s[0]) then Intval(s[1..])
    else if s[0] == '-' then 0 - LeadingDigits(s[1..], 0) as int
    else if s[0] == '+' then LeadingDigits(s[1..], 0)
    else LeadingDigits(s, 0)
  }

  /** PHP's `(int)` cast of a possibly missing id: null becomes 0. */
  function IntOf(id: Option<IdValue>): int {
    match id
    case None => 0
    case Some(IdInt(n)) => n
    case Some(IdText(t)) => Intval(t)
  }

  /** A user id is truthy in PHP when it is present and neither 0, "" nor "0". */
  predicate TruthyId(id: Option<IdValue>) {
    match id
    case None => false
    case Some(IdInt(n)) => n != 0
    case Some(IdText(t)) => t != "" && t != "0"
  }

  /** Text that a truthy id may be posted as and still cast to 0. */
  lemma TruthyIdCastingToZero()
    ensures TruthyId(Some(IdText("abc"))) && IntOf(Some(IdText("abc"))) == 0
    ensures forall n :: TruthyId(Some(IdInt(n))) <==> IntOf(Some(IdInt(n))) != 0
  {
  }

  /** The elements of `s` that satisfy `p`, in their order (`array_filter`, `Array.prototype.filter`, a WHERE clause). */
  function Filter<T(!new)>(s: seq<T>, p: T -> bool): (r: seq<T>)
    ensures |r| <= |s|
    ensures forall x :: x in r <==> x in s && p(x)
  {
    if s == [] then []
    else if p(s[0]) then [s[0]] + Filter(s[1..], p)
    else Filter(s[1..], p)
  }

  /** Filtering by two predicates that agree on every element gives the same rows. */
  lemma {:induction false} FilterAgrees<T(!new)>(s: seq<T>, p: T -> bool, q: T -> bool)
    requires forall x :: x in s ==> p(x) == q(x)
    ensures Filter(s, p) == Filter(s, q)
  {
    if s != [] {
      FilterAgrees(s[1..], p, q);
    }
  }

  /** Filtering a sequence grown by one element grows the result by that element when it passes. */
  lemma {:induction false} FilterSnoc<T(!new)>(s: seq<T>, x: T, p: T -> bool)
    ensures Filter(s + [x], p) == Filter(s, p) + (if p(x) then [x] else [])
  {
    if s != [] {
      assert (s + [x])[1..] == s[1..] + [x];
      FilterSnoc(s[1..], x, p);
    }
  }

  function LowerChar(c: char): char {
    if 'A' <= c <= 'Z' then (c as int + 32) as char else c
  }

  /** Lower-casing, on the ASCII letters only. */
  function Lower(s: string): (r: string)
    ensures |r| == |s|
    ensures forall i :: 0 <= i < |s| ==> r[i] == LowerChar(s[i])
  {
    seq(|s|, i requires 0 <= i < |s| => LowerChar(s[i]))
  }

  /** `t` occurs in `s` as a contiguous block (JavaScript's `includes`). */
  predicate Contains(s: string, t: string) {
    exists i | 0 <= i <= |s| - |t| :: OccursAt(s, t, i)
  }

  predicate OccursAt(s: string, t: string, i: int) {
    0 <= i <= |s| - |t| && s[i..i + |t|] == t
  }

  /**
   * The store's `LIKE` with its default case-insensitive collation: `%`
   * matches any run of characters and `_` any one character.
   */
  predicate Like(s: string, p: string)
    decreases |s| + |p|
  {
    if p == [] then s == []
    else if p[0] == '%' then Like(s, p[1..]) || (s != [] && Like(s[1..], p))
    else s != [] && (p[0] == '_' || LowerChar(s[0]) == LowerChar(p[0])) && Like(s[1..], p[1..])
  }

  predicate NoWildcards(t: string) {
    forall i :: 0 <= i < |t| ==> t[i] != '%' && t[i] != '_'
  }

  /** Case-insensitive equality of two strings of the same length. */
  predicate SameLetters(s: string, t: string) {
    |s| == |t| && forall i :: 0 <= i < |s| ==> LowerChar(s[i]) == LowerChar(t[i])
  }

  /** A literal pattern followed by `%` matches exactly the strings that start with it. */
  lemma {:induction false} LikePrefix(s: string, t: string)
    requires NoWildcards(t)
    ensures Like(s, t + "%") <==> |t| <= |s| && SameLetters(s[..|t|], t)
    decreases |t|
  {
    if t == [] {
      assert t + "%" == "%";
      LikeAnything(s);
    } else {
      assert (t + "%")[0] == t[0];
      assert (t + "%")[1..] == t[1..] + "%";
      if s != [] {
        assert NoWildcards(t[1..]) by {
          forall i | 0 <= i < |t[1..]| ensures t[1..][i] != '%' && t[1..][i] != '_' {
            assert t[1..][i] == t[i + 1];
          }
        }
        LikePrefix(s[1..], t[1..]);
        if |t| <= |s| {
          assert s[..|t|][1..] == s[1..][..|t| - 1];
          if SameLetters(s[..|t|], t) {
            assert SameLetters(s[1..][..|t[1..]|], t[1..]) by {
              forall i | 0 <= i < |t| - 1
                ensures LowerChar(s[1..][..|t[1..]|][i]) == LowerChar(t[1..][i])
              {
                assert s[..|t|][i + 1] == s[1..][..|t[1..]|][i];
              }
            }
          }
          if SameLetters(s[1..][..|t[1..]|], t[1..]) && LowerChar(s[0]) == LowerChar(t[0]) {
            forall i | 0 <= i < |t| ensures LowerChar(s[..|t|][i]) == LowerChar(t[i]) {
              if i > 0 {
                assert s[..|t|][i] == s[1..][..|t[1..]|][i - 1];
              }
            }
          }
        }
      }
    }
  }

  /** `%` alone matches every string. */
  lemma {:induction false} LikeAnything(s: string)
    ensures Like(s, "%")
    decreases |s|
  {
    assert "%"[1..] == [];
    if s != [] {
      LikeAnything(s[1..]);
    }
  }

  /** A pattern that starts with `%` matches when its remainder matches some suffix. */
  lemma {:induction false} LikeLeadingPercent(s: string, q: string)
    ensures Like(s, "%" + q) <==> exists i :: 0 <= i <= |s| && Like(s[i..], q)
    decreases |s|
  {
    var p := "%" + q;
    assert p[0] == '%' && p[1..] == q;
    assert s[0..] == s;
    if s != [] {
      LikeLeadingPercent(s[1..], q);
      if exists i :: 0 <= i <= |s| && Like(s[i..], q) {
        var i :| 0 <= i <= |s| && Like(s[i..], q);
        if i > 0 {
          assert s[1..][i - 1..] == s[i..];
        }
      }
      if exists j :: 0 <= j <= |s[1..]| && Like(s[1..][j..], q) {
        var j :| 0 <= j <= |s[1..]| && Like(s[1..][j..], q);
        assert s[1..][j..] == s[j + 1..];
      }
    }
  }

  /**
   * The name filters bind `'%' + name + '%'`: for a name without wildcard
   * characters this is case-insensitive substring search.
   */
  lemma LikeIsSubstring(s: string, t: string)
    requires NoWildcards(t)
    ensures Like(s, "%" + t + "%") <==> Contains(Lower(s), Lower(t))
  {
    assert "%" + t + "%" == "%" + (t + "%");
    LikeLeadingPercent(s, t + "%");
    if Like(s, "%" + t + "%") {
      var i :| 0 <= i <= |s| && Like(s[i..], t + "%");
      LikePrefix(s[i..], t);
      MatchIsOccurrence(s, t, i);
    }
    if Contains(Lower(s), Lower(t)) {
      var i :| 0 <= i <= |Lower(s)| - |Lower(t)| && OccursAt(Lower(s), Lower(t), i);
      OccurrenceIsMatch(s, t, i);
      LikePrefix(s[i..], t);
    }
  }

  lemma MatchIsOccurrence(s: string, t: string, i: int)
    requires 0 <= i <= |s| && |t| <= |s[i..]| && SameLetters(s[i..][..|t|], t)
    ensures OccursAt(Lower(s), Lower(t), i)
  {
    forall k | 0 <= k < |t| ensures Lower(s)[i..i + |t|][k] == Lower(t)[k] {
      assert s[i..][..|t|][k] == s[i + k];
    }
  }

  lemma OccurrenceIsMatch(s: string, t: string, i: int)
    requires OccursAt(Lower(s), Lower(t), i)
    ensures |t| <= |s[i..]| && SameLetters(s[i..][..|t|], t)
  {
    forall k | 0 <= k < |t| ensures LowerChar(s[i..][..|t|][k]) == LowerChar(t[k]) {
      assert Lower(s)[i..i + |t|][k] == Lower(t)[k];
      assert s[i..][..|t|][k] == s[i + k];
    }
  }
}
