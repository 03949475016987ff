/** Sequence helpers shared by the lookup and the calculator: LINQ's `Except` and `Distinct`. */
module Seqs {

  predicate NoDuplicates(s: seq<int>) {
    forall i, j :: 0 <= i < j < |s| ==> s[i] != s[j]
  }

  /** Position of the first occurrence of `x` in `s`. */
  function FirstIndex(s: seq<int>, x: int): (k: nat)
    requires x in s
    ensures k < |s| && s[k] == x && x !in s[..k]
  {
    if s[0] == x then 0 else 1 + FirstIndex(s[1..], x)
  }

  /** The elements of `r` occur in `s` and appear in `r` in the order of their first appearance in `s`. */
  ghost predicate InFirstAppearanceOrder(s: seq<int>, r: seq<int>) {
    forall i, j :: 0 <= i < j < |r| ==> r[i] in s && r[j] in s && FirstIndex(s, r[i]) < FirstIndex(s, r[j])
  }

  lemma {:induction false} FirstIndexExtend(s: seq<int>, t: seq<int>, x: int)
    requires x in s
    ensures x in s + t && FirstIndex(s + t, x) == FirstIndex(s, x)
  {
    if s[0] != x {
      assert (s + t)[1..] == s[1..] + t;
      FirstIndexExtend(s[1..], t, x);
    }
  }

  lemma FirstIndexLast(s: seq<int>, x: int)
    requires x !in s
    ensures x in s + [x] && FirstIndex(s + [x], x) == |s|
  {
  }

  /**
   * `s.Except(excluded)` in LINQ: the elements of `s` that are not excluded, each
   * once, in the order of their first appearance in `s` (see ExceptOrder).
   */
  function Except(s: seq<int>, excluded: set<int>): (r: seq<int>)
    ensures forall x :: x in r <==> x in s && x !in excluded
    ensures NoDuplicates(r)
  {
    if s == [] then []
    else
      var d := Except(s[..|s| - 1], excluded);
      var x := s[|s| - 1];
      assert forall y :: y in s <==> y in s[..|s| - 1] || y == x;
      if x in excluded || x in d then d else d + [x]
  }

  lemma {:induction false} ExceptOrder(s: seq<int>, excluded: set<int>)
    ensures InFirstAppearanceOrder(s, Except(s, excluded))
  {
    if s != [] {
      var init, x := s[..|s| - 1], s[|s| - 1];
      assert s == init + [x];
      var d := Except(init, excluded);
      ExceptOrder(init, excluded);
      forall y | y in d { FirstIndexExtend(init, [x], y); }
      if !(x in excluded || x in d) {
        FirstIndexLast(init, x);
      }
    }
  }

  /** `s.Distinct()` in LINQ. */
  function Distinct(s: seq<int>): seq<int> {
    Except(s, {})
  }
}
