/** Sorted arrays of state numbers (rex/rexstate.c) and how many of them there can be. */
module Subsets {

  ghost predicate Ascending(s: seq<nat>) {
    forall a, b :: 0 <= a < b < |s| ==> s[a] < s[b]
  }

  ghost predicate Below(s: seq<nat>, n: nat) {
    forall k :: 0 <= k < |s| ==> s[k] < n
  }

  ghost function SetOf(s: seq<nat>): set<nat> {
    set u | u in s
  }

  /** Binary search and insertion; a value that is there already is not added again. */
  method AddNewSubstate(subset: seq<nat>, uid: nat) returns (r: seq<nat>)
    requires Ascending(subset)
    ensures Ascending(r) && SetOf(r) == SetOf(subset) + {uid}
    ensures |r| == |subset| + if uid in subset then 0 else 1
    ensures forall u :: u in r <==> u in subset || u == uid
    ensures forall n :: Below(subset, n) && uid < n ==> Below(r, n)
  {
    var min, max := 0, |subset|;
    while max > min
      invariant 0 <= min <= max <= |subset|
      invariant forall a :: 0 <= a < min ==> subset[a] < uid
      invariant forall b :: max <= b < |subset| ==> uid < subset[b]
    {
      var mid := (min + max) / 2;
      if uid == subset[mid] {
        return subset;
      } else if uid >= subset[mid] {
        min := mid + 1;
      } else {
        max := mid;
      }
    }
    r := subset[..min] + [uid] + subset[min..];
    MembersOfInsertion(subset, min, uid);
  }

  lemma MembersOfInsertion(s: seq<nat>, at: nat, uid: nat)
    requires at <= |s|
    ensures forall u :: u in s[..at] + [uid] + s[at..] <==> u in s || u == uid
  {
    assert s == s[..at] + s[at..];
  }

  /** Equal contents of sorted arrays are equal arrays: the hash table may compare them by element. */
  lemma {:induction false} AscendingUnique(s: seq<nat>, t: seq<nat>)
    requires Ascending(s) && Ascending(t) && SetOf(s) == SetOf(t)
    ensures s == t
  {
    assert |s| > 0 ==> s[0] in SetOf(t);
    assert |t| > 0 ==> t[0] in SetOf(s);
    if s != [] && t != [] {
      assert SetOf(s[1..]) == SetOf(s) - {s[0]};
      assert SetOf(t[1..]) == SetOf(t) - {t[0]};
      AscendingUnique(s[1..], t[1..]);
    }
  }

  lemma {:induction false} AscendingLength(s: seq<nat>, n: nat)
    requires Ascending(s) && Below(s, n)
    ensures |s| <= n
  {
    if s != [] {
      var last := s[|s| - 1];
      assert last in s;
      assert Below(s[..|s| - 1], last);
      AscendingLength(s[..|s| - 1], last);
    }
  }

  function Pow2(n: nat): (r: nat)
    ensures r > 0
  {
    if n == 0 then 1 else 2 * Pow2(n - 1)
  }

  ghost function Plus(s: set<nat>, x: nat): set<nat> {
    s + {x}
  }

  ghost function EachPlus(a: set<set<nat>>, x: nat): set<set<nat>> {
    set s | s in a :: Plus(s, x)
  }

  ghost function Power(n: nat): set<set<nat>> {
    if n == 0 then {{}} else Power(n - 1) + EachPlus(Power(n - 1), n - 1)
  }

  lemma {:induction false} ImageSize(a: set<set<nat>>, x: nat)
    ensures |EachPlus(a, x)| <= |a|
  {
    if a != {} {
      var e :| e in a;
      ImageSize(a - {e}, x);
      assert EachPlus(a, x) == EachPlus(a - {e}, x) + {Plus(e, x)};
    }
  }

  lemma {:induction false} PowerSize(n: nat)
    ensures |Power(n)| <= Pow2(n)
  {
    if n > 0 {
      PowerSize(n - 1);
      ImageSize(Power(n - 1), n - 1);
    }
  }

  lemma {:induction false} InPower(s: set<nat>, n: nat)
    requires forall u :: u in s ==> u < n
    ensures s in Power(n)
  {
    if n == 0 {
      assert s == {};
    } else {
      InPower(s - {n - 1}, n - 1);
      assert s == if n - 1 in s then Plus(s - {n - 1}, n - 1) else s - {n - 1};
    }
  }

  ghost predicate Distinct<T>(s: seq<T>) {
    forall a, b :: 0 <= a < b < |s| ==> s[a] != s[b]
  }

  lemma {:induction false} DistinctInside(s: seq<set<nat>>, all: set<set<nat>>)
    requires Distinct(s) && forall x :: x in s ==> x in all
    ensures |s| <= |all|
  {
    if s != [] {
      var e := s[0];
      DistinctInside(s[1..], all - {e});
    }
  }

  /** Pairwise different sorted arrays over n states: there are at most 2^n of them. */
  lemma SubsetCount(subsets: seq<seq<nat>>, n: nat)
    requires Distinct(subsets)
    requires forall k :: 0 <= k < |subsets| ==> Ascending(subsets[k]) && Below(subsets[k], n)
    ensures |subsets| <= Pow2(n)
  {
    var sets := seq(|subsets|, k requires 0 <= k < |subsets| => SetOf(subsets[k]));
    forall a, b | 0 <= a < b < |sets|
      ensures sets[a] != sets[b]
    {
      if sets[a] == sets[b] {
        AscendingUnique(subsets[a], subsets[b]);
      }
    }
    forall x | x in sets
      ensures x in Power(n)
    {
      InPower(x, n);
    }
    DistinctInside(sets, Power(n));
    PowerSize(n);
  }
}
