/** Python's `sorted`, for any total order, and membership in a list. */
module Sorting {

  predicate Member<T(==)>(s: seq<T>, x: T) {
    exists i :: 0 <= i < |s| && s[i] == x
  }

  lemma MemberCons<T>(s: seq<T>)
    requires s != []
    ensures forall x :: Member(s, x) <==> x == s[0] || Member(s[1..], x)
  {
    forall x ensures Member(s, x) <==> x == s[0] || Member(s[1..], x) {
      if Member(s[1..], x) {
        var i :| 0 <= i < |s[1..]| && s[1..][i] == x;
        assert s[i + 1] == x;
      }
      if Member(s, x) && x != s[0] {
        var i :| 0 <= i < |s| && s[i] == x;
        assert s[1..][i - 1] == x;
      }
    }
  }

  /** Any two elements at different places are related; `r` is meant to be symmetric. */
  ghost predicate Pairwise<T>(s: seq<T>, r: (T, T) -> bool) {
    forall i, j :: 0 <= i < j < |s| ==> r(s[i], s[j])
  }

  ghost predicate Symmetric<T(!new)>(r: (T, T) -> bool) {
    forall a, b :: r(a, b) ==> r(b, a)
  }

  ghost predicate TotalOrder<T(!new)>(before: (T, T) -> bool) {
    && (forall a, b :: before(a, b) || before(b, a))
    && (forall a, b, c :: before(a, b) && before(b, c) ==> before(a, c))
  }

  function Insert<T>(x: T, s: seq<T>, before: (T, T) -> bool): seq<T> {
    if s == [] || before(x, s[0]) then [x] + s else [s[0]] + Insert(x, s[1..], before)
  }

  function Sort<T>(s: seq<T>, before: (T, T) -> bool): seq<T> {
    if s == [] then [] else Insert(s[0], Sort(s[1..], before), before)
  }

  lemma {:induction false} InsertIs<T(!new)>(x: T, s: seq<T>, before: (T, T) -> bool, r: (T, T) -> bool)
    requires TotalOrder(before) && Symmetric(r) && Pairwise(s, before)
    ensures Pairwise(Insert(x, s, before), before) && |Insert(x, s, before)| == |s| + 1
    ensures forall y :: Member(Insert(x, s, before), y) <==> y == x || Member(s, y)
    ensures Pairwise(s, r) && (forall i :: 0 <= i < |s| ==> r(x, s[i])) ==> Pairwise(Insert(x, s, before), r)
  {
    var t := Insert(x, s, before);
    MemberCons(t);
    if s == [] {
    } else if before(x, s[0]) {
      assert t[1..] == s;
      assert forall i :: 0 <= i < |s| ==> before(x, s[i]);
    } else {
      InsertIs(x, s[1..], before, r);
      MemberCons(s);
      assert t[0] == s[0] && t[1..] == Insert(x, s[1..], before);
      forall i | 0 <= i < |t[1..]| ensures before(s[0], t[1..][i]) && (t[1..][i] == x || Member(s[1..], t[1..][i])) {
        assert Member(t[1..], t[1..][i]);
      }
    }
  }

  /** Sorting orders the list, keeps its elements, and keeps what holds between any two of them. */
  lemma {:induction false} SortIs<T(!new)>(s: seq<T>, before: (T, T) -> bool, r: (T, T) -> bool)
    requires TotalOrder(before) && Symmetric(r)
    ensures Pairwise(Sort(s, before), before) && |Sort(s, before)| == |s|
    ensures forall x :: Member(Sort(s, before), x) <==> Member(s, x)
    ensures Pairwise(s, r) ==> Pairwise(Sort(s, before), r)
  {
    if s != [] {
      var rest := Sort(s[1..], before);
      SortIs(s[1..], before, r);
      MemberCons(s);
      InsertIs(s[0], rest, before, r);
      if Pairwise(s, r) {
        forall i | 0 <= i < |rest| ensures r(s[0], rest[i]) {
          assert Member(rest, rest[i]) && Member(s[1..], rest[i]);
        }
      }
    }
  }
}
