/** Arrays of symbol ranges (rex/rextransition.c): lookup, ordered insertion, merging and complement. */
module Transitions {
  import opened Automata

  predicate Proper(trans: seq<Transition>) {
    forall k :: 0 <= k < |trans| ==> trans[k].lowin <= trans[k].highin
  }

  predicate Sorted(trans: seq<Transition>) {
    forall a, b :: 0 <= a < b < |trans| ==> trans[a].lowin <= trans[b].lowin
  }

  /** No symbol fires two elements. */
  predicate Disjoint(trans: seq<Transition>) {
    forall a, b :: 0 <= a < b < |trans| ==> trans[a].highin < trans[b].lowin
  }

  /** Elements with one destination leave at least one symbol between them. */
  predicate Separated(trans: seq<Transition>) {
    SeparatedUpTo(trans, |trans|)
  }

  predicate SeparatedUpTo(trans: seq<Transition>, n: nat) {
    forall a, b :: 0 <= a < b < |trans| && a < n && trans[a].dst == trans[b].dst ==> trans[a].highin + 1 < trans[b].lowin
  }

  ghost predicate Covered(trans: seq<Transition>, c: Sym) {
    exists k :: 0 <= k < |trans| && Fires(trans[k], c)
  }

  ghost predicate SamePairs(s: seq<Transition>, t: seq<Transition>) {
    forall c: Sym, d: int :: Leads(s, c, d) <==> Leads(t, c, d)
  }

  /** Binary search; -1 stands for the null pointer. */
  method Find(trans: seq<Transition>, c: Sym) returns (k: int)
    ensures -1 <= k < |trans|
    ensures k >= 0 ==> Fires(trans[k], c)
    ensures Sorted(trans) && Disjoint(trans) && Covered(trans, c) ==> k >= 0
  {
    if |trans| == 0 {
      return -1;
    }
    var min, max := 0, |trans|;
    while max > min
      invariant 0 <= min <= max <= |trans|
      invariant Sorted(trans) ==> forall a :: 0 <= a < min ==> trans[a].lowin <= c
      invariant Sorted(trans) ==> forall b :: max <= b < |trans| ==> c < trans[b].lowin
    {
      var mid := (min + max) / 2;
      if c >= trans[mid].lowin {
        min := mid + 1;
      } else {
        max := mid;
      }
    }
    if min > 0 {
      min := min - 1;
    }
    k := if Fires(trans[min], c) then min else -1;
  }

  function Span(c1: Sym, c2: Sym, dst: int): Transition {
    if c1 < c2 then Transition(c1, c2, dst) else Transition(c2, c1, dst)
  }

  /** Where the binary search for `c1` ends up, on a sorted array or not. */
  function Position(trans: seq<Transition>, c1: Sym, min: nat, max: nat): (at: nat)
    requires min <= max <= |trans|
    ensures min <= at <= max
    decreases max - min
  {
    if min == max then min
    else if c1 >= trans[(min + max) / 2].lowin then Position(trans, c1, (min + max) / 2 + 1, max)
    else Position(trans, c1, min, (min + max) / 2)
  }

  function Inserted(trans: seq<Transition>, c1: Sym, c2: Sym, dst: int): seq<Transition> {
    var at := Position(trans, c1, 0, |trans|);
    trans[..at] + [Span(c1, c2, dst)] + trans[at..]
  }

  lemma {:induction false} PositionSorted(trans: seq<Transition>, c1: Sym, min: nat, max: nat)
    requires Sorted(trans) && min <= max <= |trans|
    requires forall a :: 0 <= a < min ==> trans[a].lowin <= c1
    requires forall b :: max <= b < |trans| ==> c1 < trans[b].lowin
    ensures var at := Position(trans, c1, min, max);
      (forall a :: 0 <= a < at ==> trans[a].lowin <= c1) && forall b :: at <= b < |trans| ==> c1 < trans[b].lowin
    decreases max - min
  {
    if min < max {
      var mid := (min + max) / 2;
      if c1 >= trans[mid].lowin {
        PositionSorted(trans, c1, mid + 1, max);
      } else {
        PositionSorted(trans, c1, min, mid);
      }
    }
  }

  /** The new range is stored with its smaller end first, but placed by its first end `c1`. The array
      stays sorted exactly when no element starts after the smaller end and not after `c1`. */
  method Add(trans: seq<Transition>, c1: Sym, c2: Sym, dst: int) returns (r: seq<Transition>, at: nat)
    ensures at <= |trans| && r == Inserted(trans, c1, c2, dst) == trans[..at] + [Span(c1, c2, dst)] + trans[at..]
    ensures forall c: Sym, d :: Leads(r, c, d) <==> Leads(trans, c, d) || (Fires(Span(c1, c2, dst), c) && d == dst)
    ensures Sorted(trans) ==> (Sorted(r) <==> forall k :: 0 <= k < |trans| ==> !(c2 < trans[k].lowin <= c1))
    ensures Sorted(trans) && (forall k :: 0 <= k < |trans| ==> trans[k].lowin <= c1) ==> at == |trans|
  {
    var min, max := 0, |trans|;
    while max > min
      invariant 0 <= min <= max <= |trans|
      invariant Position(trans, c1, min, max) == Position(trans, c1, 0, |trans|)
    {
      var mid := (min + max) / 2;
      if c1 >= trans[mid].lowin {
        min := mid + 1;
      } else {
        max := mid;
      }
    }
    at := min;
    r := trans[..at] + [Span(c1, c2, dst)] + trans[at..];
    LeadsInsert(trans, at, Span(c1, c2, dst));
    if Sorted(trans) {
      PositionSorted(trans, c1, 0, |trans|);
      assert at < |trans| ==> c1 < trans[at].lowin;
      SortedInsert(trans, at, c1, c2, dst);
    }
  }

  lemma LeadsInsert(trans: seq<Transition>, at: nat, t: Transition)
    requires at <= |trans|
    ensures forall c: Sym, d ::
              Leads(trans[..at] + [t] + trans[at..], c, d) <==> Leads(trans, c, d) || (Fires(t, c) && d == t.dst)
  {
    var r := trans[..at] + [t] + trans[at..];
    forall c: Sym, d
      ensures Leads(r, c, d) <==> Leads(trans, c, d) || (Fires(t, c) && d == t.dst)
    {
      if k :| 0 <= k < |trans| && Fires(trans[k], c) && trans[k].dst == d {
        assert r[if k < at then k else k + 1] == trans[k];
      }
      assert r[at] == t;
    }
  }

  lemma SortedInsert(trans: seq<Transition>, at: nat, c1: Sym, c2: Sym, dst: int)
    requires Sorted(trans) && at <= |trans|
    requires forall a :: 0 <= a < at ==> trans[a].lowin <= c1
    requires forall b :: at <= b < |trans| ==> c1 < trans[b].lowin
    ensures Sorted(trans[..at] + [Span(c1, c2, dst)] + trans[at..])
       <==> forall k :: 0 <= k < |trans| ==> !(c2 < trans[k].lowin <= c1)
  {
    var r := trans[..at] + [Span(c1, c2, dst)] + trans[at..];
    if k :| 0 <= k < |trans| && c2 < trans[k].lowin <= c1 {
      assert k < at && r[k] == trans[k] && r[at].lowin == c2;
    }
  }

  // ---- rex_transitions_normalize ---------------------------------------------------------------

  /** `b` overlaps `a` from the right or starts right behind it, with the same destination. */
  predicate Absorbs(a: Transition, b: Transition) {
    a.dst == b.dst && (a.lowin <= b.lowin <= a.highin || (a.highin != CHAR_MAX && b.lowin == a.highin + 1))
  }

  function Merged(a: Transition, b: Transition): Transition {
    if a.lowin <= b.lowin <= a.highin && b.highin <= a.highin then a else a.(highin := b.highin)
  }

  function Without<T>(s: seq<T>, j: nat): (r: seq<T>)
    requires j < |s|
  {
    s[..j] + s[j + 1..]
  }

  /** Element `i` swallows element `j`, which leaves the array. */
  function Swallow(trans: seq<Transition>, i: nat, j: nat): seq<Transition>
    requires i < |trans| && j < |trans|
  {
    Without(trans[i := Merged(trans[i], trans[j])], j)
  }

  /** The first element, other than the one at `skip`, that `t` absorbs. */
  function FirstAbsorbed(t: Transition, trans: seq<Transition>, skip: nat, from: nat): (j: nat)
    requires from <= |trans|
    ensures from <= j <= |trans|
    ensures j < |trans| ==> j != skip && Absorbs(t, trans[j])
    ensures forall k :: from <= k < j && k != skip ==> !Absorbs(t, trans[k])
    decreases |trans| - from
  {
    if from == |trans| then from
    else if from != skip && Absorbs(t, trans[from]) then from
    else FirstAbsorbed(t, trans, skip, from + 1)
  }

  /** What the pass leaves. `Overrun`: it went on with the slot behind the end of the shortened array,
      which still holds a copy of the last element; `lost` is what that copy has grown to. */
  datatype Outcome = Normal(items: seq<Transition>) | Overrun(items: seq<Transition>, lost: Transition)

  /** The copy `t` behind the end absorbs what it touches, itself included. */
  function Devour(trans: seq<Transition>, t: Transition): Outcome
    decreases |trans|
  {
    var j := FirstAbsorbed(t, trans, |trans|, 0);
    if j == |trans| then Overrun(trans, t) else Devour(Without(trans, j), Merged(t, trans[j]))
  }

  function NormalizeFrom(trans: seq<Transition>, i: nat): Outcome
    decreases |trans|, |trans| - i
  {
    if i >= |trans| then Normal(trans)
    else
      var j := FirstAbsorbed(trans[i], trans, i, 0);
      if j == |trans| then NormalizeFrom(trans, i + 1)
      else if i == |trans| - 1 then Devour(Swallow(trans, i, j), Merged(trans[i], trans[j]))
      else NormalizeFrom(Swallow(trans, i, j), i)
  }

  /** `t` is what slot `i` holds, also behind the end. */
  method Normalize(trans: seq<Transition>) returns (r: seq<Transition>)
    ensures r == NormalizeFrom(trans, 0).items
  {
    var items, i := trans, 0;
    while i < |items|
      invariant NormalizeFrom(trans, 0).items == NormalizeFrom(items, i).items
      decreases |items|, |items| - i
    {
      var t, j := items[i], 0;
      while j < |items|
        invariant 0 <= j <= |items|
        invariant if i < |items| then
            t == items[i] && NormalizeFrom(trans, 0).items == NormalizeFrom(items, i).items
            && FirstAbsorbed(t, items, i, 0) == FirstAbsorbed(t, items, i, j)
          else
            NormalizeFrom(trans, 0).items == Devour(items, t).items
            && FirstAbsorbed(t, items, |items|, 0) == FirstAbsorbed(t, items, |items|, j)
        decreases |items|, |items| - j
      {
        if i != j && Absorbs(t, items[j]) {
          t := Merged(t, items[j]);
          if i < |items| {
            items := items[i := t];
          }
          items := Without(items, j);
          if i < |items| {
            t := items[i];
          }
          j := 0;
        } else {
          j := j + 1;
        }
      }
      i := i + 1;
    }
    r := items;
  }

  lemma SwallowKeepsPairs(trans: seq<Transition>, i: nat, j: nat)
    requires Proper(trans) && i < |trans| && j < |trans| && i != j && Absorbs(trans[i], trans[j])
    ensures Proper(Swallow(trans, i, j)) && SamePairs(trans, Swallow(trans, i, j))
  {
    var t := Swallow(trans, i, j);
    var i' := if i < j then i else i - 1;
    assert t[i'] == Merged(trans[i], trans[j]);
    forall c: Sym, d
      ensures Leads(trans, c, d) <==> Leads(t, c, d)
    {
      if k :| 0 <= k < |trans| && Fires(trans[k], c) && trans[k].dst == d {
        assert k == i || k == j || t[if k < j then k else k - 1] == trans[k];
      }
    }
  }

  ghost predicate LeadsOrBlock(trans: seq<Transition>, t: Transition, c: Sym, d: int) {
    Leads(trans, c, d) || (Fires(t, c) && d == t.dst)
  }

  /** The growing copy takes over what it absorbs, and in the end touches nothing that is left. */
  lemma {:induction false} DevourPairs(trans: seq<Transition>, t: Transition)
    requires Proper(trans) && t.lowin <= t.highin
    ensures var r := Devour(trans, t);
      r.Overrun? && Proper(r.items) && r.lost.lowin <= r.lost.highin && r.lost.dst == t.dst
      && (forall c: Sym, d :: LeadsOrBlock(r.items, r.lost, c, d) <==> LeadsOrBlock(trans, t, c, d))
      && forall k :: 0 <= k < |r.items| ==> !Absorbs(r.lost, r.items[k])
    decreases |trans|
  {
    var j := FirstAbsorbed(t, trans, |trans|, 0);
    if j < |trans| {
      var rest, u := Without(trans, j), Merged(t, trans[j]);
      forall c: Sym, d
        ensures LeadsOrBlock(rest, u, c, d) <==> LeadsOrBlock(trans, t, c, d)
      {
        if k :| 0 <= k < |trans| && Fires(trans[k], c) && trans[k].dst == d {
          assert k == j || rest[if k < j then k else k - 1] == trans[k];
        }
      }
      DevourPairs(rest, u);
    }
  }

  /** For every array of proper ranges, sorted or not: a pass that stays inside the array keeps the set
      of (symbol, destination) pairs, and one that leaves it loses at most one block of them. */
  lemma {:induction false} NormalizeKeepsPairs(trans: seq<Transition>, i: nat)
    requires Proper(trans)
    ensures var r := NormalizeFrom(trans, i);
      Proper(r.items)
      && (r.Normal? ==> SamePairs(trans, r.items))
      && (r.Overrun? ==> r.lost.lowin <= r.lost.highin && forall c: Sym, d :: Leads(trans, c, d) <==> LeadsOrBlock(r.items, r.lost, c, d))
    decreases |trans|, |trans| - i
  {
    if i < |trans| {
      var j := FirstAbsorbed(trans[i], trans, i, 0);
      if j == |trans| {
        NormalizeKeepsPairs(trans, i + 1);
      } else {
        var t, u := Swallow(trans, i, j), Merged(trans[i], trans[j]);
        SwallowKeepsPairs(trans, i, j);
        if i < |trans| - 1 {
          NormalizeKeepsPairs(t, i);
        } else {
          assert t[i - 1] == u;
          assert forall c: Sym, d :: LeadsOrBlock(t, u, c, d) <==> Leads(t, c, d);
          DevourPairs(t, u);
        }
      }
    }
  }

  /** The pass keeps the pairs exactly if what it lost behind the end is still covered by the rest. */
  lemma NormalizeKeepsIff(trans: seq<Transition>)
    requires Proper(trans)
    ensures var r := NormalizeFrom(trans, 0);
      SamePairs(trans, r.items) <==> (r.Overrun? ==> forall c: Sym :: Fires(r.lost, c) ==> Leads(r.items, c, r.lost.dst))
  {
    NormalizeKeepsPairs(trans, 0);
    var r := NormalizeFrom(trans, 0);
    if r.Overrun? && SamePairs(trans, r.items) {
      forall c: Sym | Fires(r.lost, c)
        ensures Leads(r.items, c, r.lost.dst)
      {
        assert LeadsOrBlock(r.items, r.lost, c, r.lost.dst);
      }
    }
  }

  lemma SwallowSorted(trans: seq<Transition>, i: nat, j: nat)
    requires Proper(trans) && Sorted(trans) && SeparatedUpTo(trans, i)
    requires i < |trans| && j < |trans| && i != j && Absorbs(trans[i], trans[j])
    ensures i < j && Sorted(Swallow(trans, i, j)) && SeparatedUpTo(Swallow(trans, i, j), i)
  {
    assert !(j < i);
  }

  /** On a sorted array the pass never leaves the array, and two elements with one destination end up
      with a gap between them. */
  lemma {:induction false} NormalizeSeparates(trans: seq<Transition>, i: nat)
    requires Proper(trans) && Sorted(trans) && SeparatedUpTo(trans, i)
    ensures NormalizeFrom(trans, i).Normal?
    ensures Sorted(NormalizeFrom(trans, i).items) && Separated(NormalizeFrom(trans, i).items)
    decreases |trans|, |trans| - i
  {
    if i < |trans| {
      var j := FirstAbsorbed(trans[i], trans, i, 0);
      if j == |trans| {
        forall b | i < b < |trans| && trans[i].dst == trans[b].dst
          ensures trans[i].highin + 1 < trans[b].lowin
        {
          assert !Absorbs(trans[i], trans[b]);
        }
        NormalizeSeparates(trans, i + 1);
      } else {
        SwallowSorted(trans, i, j);
        SwallowKeepsPairs(trans, i, j);
        NormalizeSeparates(Swallow(trans, i, j), i);
      }
    }
  }

  /** Two ranges, the second behind the first: the pass leaves the array exactly if the second one reaches
      down over the start of the first, and then nothing is left. */
  lemma PairOverrunIff(x: Transition, y: Transition)
    requires Proper([x, y]) && x.dst == y.dst
    ensures var r := NormalizeFrom([x, y], 0);
      (r.Overrun? <==> !Absorbs(x, y) && Absorbs(y, x)) && (r.Overrun? ==> r.items == [])
  {
    var t := [x, y];
    if Absorbs(x, y) {
      assert FirstAbsorbed(x, t, 0, 0) == 1;
      assert Swallow(t, 0, 1) == [Merged(x, y)];
      var u := [Merged(x, y)];
      assert FirstAbsorbed(u[0], u, 0, 0) == 1;
      assert NormalizeFrom(u, 0) == NormalizeFrom(u, 1) == Normal(u);
    } else {
      assert FirstAbsorbed(x, t, 0, 0) == 2;
      assert NormalizeFrom(t, 0) == NormalizeFrom(t, 1);
      if Absorbs(y, x) {
        assert FirstAbsorbed(y, t, 1, 0) == 0;
        var u := Merged(y, x);
        assert Swallow(t, 1, 0) == [u];
        assert Without([u], 0) == [] && Merged(u, u) == u;
        assert FirstAbsorbed(u, [u], 1, 0) == 0;
        assert Devour([], u) == Overrun([], u);
      }
    }
  }

  // ---- rex_transitions_negative ----------------------------------------------------------------

  predicate Gapped(trans: seq<Transition>) {
    forall a, b :: 0 <= a < b < |trans| ==> trans[a].highin + 1 < trans[b].lowin
  }

  lemma CoveredInsert(trans: seq<Transition>, at: nat, t: Transition)
    requires at <= |trans|
    ensures forall c: Sym :: Covered(trans[..at] + [t] + trans[at..], c) <==> Covered(trans, c) || Fires(t, c)
  {
    LeadsInsert(trans, at, t);
    var r := trans[..at] + [t] + trans[at..];
    forall c: Sym
      ensures Covered(r, c) <==> Covered(trans, c) || Fires(t, c)
    {
      if k :| 0 <= k < |trans| && Fires(trans[k], c) {
        assert Leads(trans, c, trans[k].dst);
      }
      if k :| 0 <= k < |r| && Fires(r[k], c) {
        assert Leads(r, c, r[k].dst);
      }
      assert r[at] == t;
    }
  }

  /** Symbols wrap around at both ends. */
  function Succ(c: Sym): Sym {
    if c == CHAR_MAX then 0 else c + 1
  }

  function Pred(c: Sym): Sym {
    if c == 0 then CHAR_MAX else c - 1
  }

  /** The array made from the first `i` elements. */
  function Gaps(strans: seq<Transition>, i: nat, dst: int): seq<Transition>
    requires i <= |strans|
  {
    if i == 0 then []
    else
      var t := strans[i - 1];
      var front :=
        if i == 1 then if t.lowin != 0 then Inserted([], 0, t.lowin - 1, dst) else []
        else Inserted(Gaps(strans, i - 1, dst), Succ(strans[i - 2].highin), Pred(t.lowin), dst);
      if i == |strans| && t.highin != CHAR_MAX then Inserted(front, t.highin + 1, CHAR_MAX, dst) else front
  }

  function Complement(strans: seq<Transition>, dst: int): seq<Transition> {
    if strans == [] then Inserted([], 0, CHAR_MAX, dst) else Gaps(strans, |strans|, dst)
  }

  method Negative(strans: seq<Transition>, dst: int) returns (dtrans: seq<Transition>)
    ensures dtrans == Complement(strans, dst)
  {
    hide Inserted;
    dtrans := [];
    var at;
    if |strans| == 0 {
      dtrans, at := Add(dtrans, 0, CHAR_MAX, dst);
      return;
    }
    for i := 0 to |strans|
      invariant dtrans == Gaps(strans, i, dst)
    {
      var t := strans[i];
      if i == 0 {
        if t.lowin != 0 {
          dtrans, at := Add(dtrans, 0, t.lowin - 1, dst);
        }
      }
      if i > 0 {
        dtrans, at := Add(dtrans, Succ(strans[i - 1].highin), Pred(t.lowin), dst);
      }
      if i == |strans| - 1 {
        if t.highin != CHAR_MAX {
          dtrans, at := Add(dtrans, t.highin + 1, CHAR_MAX, dst);
        }
      }
    }
  }

  predicate OneWay(trans: seq<Transition>, dst: int) {
    Proper(trans) && forall k :: 0 <= k < |trans| ==> trans[k].dst == dst
  }

  lemma InsertedOneWay(trans: seq<Transition>, c1: Sym, c2: Sym, dst: int)
    requires OneWay(trans, dst)
    ensures OneWay(Inserted(trans, c1, c2, dst), dst)
    ensures forall c: Sym :: Covered(Inserted(trans, c1, c2, dst), c) <==> Covered(trans, c) || Fires(Span(c1, c2, dst), c)
  {
    CoveredInsert(trans, Position(trans, c1, 0, |trans|), Span(c1, c2, dst));
  }

  lemma InsertedSorted(trans: seq<Transition>, c1: Sym, c2: Sym, dst: int)
    requires Sorted(trans)
    ensures Sorted(Inserted(trans, c1, c2, dst)) <==> forall k :: 0 <= k < |trans| ==> !(c2 < trans[k].lowin <= c1)
  {
    PositionSorted(trans, c1, 0, |trans|);
    SortedInsert(trans, Position(trans, c1, 0, |trans|), c1, c2, dst);
  }

  lemma {:induction false} GapsOneWay(strans: seq<Transition>, i: nat, dst: int)
    requires i <= |strans|
    ensures OneWay(Gaps(strans, i, dst), dst)
    decreases i
  {
    hide Inserted;
    if i > 0 {
      var t := strans[i - 1];
      GapsOneWay(strans, i - 1, dst);
      InsertedOneWay([], 0, Pred(t.lowin), dst);
      var front := if i == 1 then if t.lowin != 0 then Inserted([], 0, t.lowin - 1, dst) else []
                   else Inserted(Gaps(strans, i - 1, dst), Succ(strans[i - 2].highin), Pred(t.lowin), dst);
      if i > 1 {
        InsertedOneWay(Gaps(strans, i - 1, dst), Succ(strans[i - 2].highin), Pred(t.lowin), dst);
      }
      InsertedOneWay(front, Succ(t.highin), CHAR_MAX, dst);
    }
  }

  /** `r` is the complement as far as the symbols below `upto` go. */
  ghost predicate Filled(strans: seq<Transition>, r: seq<Transition>, dst: int, upto: nat) {
    OneWay(r, dst) && Sorted(r) && forall c: Sym :: Covered(r, c) <==> !Covered(strans, c) && c < upto
  }

  /** One more gap, behind symbols that the array covers. */
  lemma FillGap(strans: seq<Transition>, r: seq<Transition>, dst: int, upto: nat, c1: Sym, c2: Sym)
    requires Filled(strans, r, dst, upto) && upto <= c1 <= c2
    requires forall c: Sym :: upto <= c < c1 ==> Covered(strans, c)
    requires forall c: Sym :: c1 <= c <= c2 ==> !Covered(strans, c)
    ensures Filled(strans, Inserted(r, c1, c2, dst), dst, c2 + 1)
  {
    hide Inserted;
    InsertedOneWay(r, c1, c2, dst);
    InsertedSorted(r, c1, c2, dst);
  }

  lemma FilledOver(strans: seq<Transition>, r: seq<Transition>, dst: int, upto: nat, further: nat)
    requires Filled(strans, r, dst, upto) && upto <= further
    requires forall c: Sym :: upto <= c < further ==> Covered(strans, c)
    ensures Filled(strans, r, dst, further)
  {
  }

  /** The gaps in front of element `i` are filled, and behind the last one. */
  lemma {:induction false} GapsFilled(strans: seq<Transition>, i: nat, dst: int)
    requires Proper(strans) && Gapped(strans) && 0 < i <= |strans|
    ensures Filled(strans, Gaps(strans, i, dst), dst, if i == |strans| then CHAR_MAX + 1 else strans[i - 1].highin + 1)
    decreases i
  {
    hide Inserted, Filled;
    var t := strans[i - 1];
    GapUncovered(strans, i - 1);
    var front: seq<Transition> := [];
    if i == 1 {
      FilledNone(strans, dst);
      if t.lowin != 0 {
        FillGap(strans, [], dst, 0, 0, t.lowin - 1);
        front := Inserted([], 0, t.lowin - 1, dst);
      }
    } else {
      GapsFilled(strans, i - 1, dst);
      FillGap(strans, Gaps(strans, i - 1, dst), dst, strans[i - 2].highin + 1, strans[i - 2].highin + 1, t.lowin - 1);
      front := Inserted(Gaps(strans, i - 1, dst), strans[i - 2].highin + 1, t.lowin - 1, dst);
    }
    FilledOver(strans, front, dst, t.lowin, t.highin + 1);
    if i == |strans| && t.highin != CHAR_MAX {
      FillGap(strans, front, dst, t.highin + 1, t.highin + 1, CHAR_MAX);
    }
  }

  lemma FilledNone(strans: seq<Transition>, dst: int)
    ensures Filled(strans, [], dst, 0)
  {
  }

  lemma ComplementOneWay(strans: seq<Transition>, dst: int)
    ensures OneWay(Complement(strans, dst), dst)
  {
    hide Inserted;
    InsertedOneWay([], 0, CHAR_MAX, dst);
    GapsOneWay(strans, |strans|, dst);
  }

  /** The complement over all symbols of an array with gaps between its elements. */
  lemma ComplementExact(strans: seq<Transition>, dst: int)
    requires Proper(strans) && Gapped(strans)
    ensures var r := Complement(strans, dst);
      OneWay(r, dst) && Sorted(r) && forall c: Sym :: Covered(r, c) <==> !Covered(strans, c)
  {
    if strans == [] {
      InsertedOneWay([], 0, CHAR_MAX, dst);
      InsertedSorted([], 0, CHAR_MAX, dst);
    } else {
      GapsFilled(strans, |strans|, dst);
    }
  }

  lemma GapUncovered(trans: seq<Transition>, i: nat)
    requires Proper(trans) && Gapped(trans) && i < |trans|
    ensures forall c: Sym :: c < trans[i].lowin && (i > 0 ==> trans[i - 1].highin < c) ==> !Covered(trans, c)
    ensures i == |trans| - 1 ==> forall c: Sym :: trans[i].highin < c ==> !Covered(trans, c)
    ensures forall c: Sym :: trans[i].lowin <= c <= trans[i].highin ==> Covered(trans, c)
    ensures i > 0 ==> forall c: Sym :: trans[i - 1].lowin <= c <= trans[i - 1].highin ==> Covered(trans, c)
  {
    forall c: Sym, k | 0 <= k < |trans| && c < trans[i].lowin && (i > 0 ==> trans[i - 1].highin < c)
      ensures !Fires(trans[k], c)
    {
      assert k < i ==> k <= i - 1;
    }
  }

  // ---- rows of a DFA ---------------------------------------------------------------------------

  /** The destination of the first element that `c` fires. */
  function Target(trans: seq<Transition>, c: Sym): int {
    if trans == [] then DANGLING
    else if Fires(trans[0], c) then trans[0].dst
    else Target(trans[1..], c)
  }

  lemma {:induction false} TargetUnique(trans: seq<Transition>, c: Sym, k: nat)
    requires Proper(trans) && Disjoint(trans) && k < |trans| && Fires(trans[k], c)
    ensures Target(trans, c) == trans[k].dst
  {
    if k > 0 {
      assert !Fires(trans[0], c);
      TargetUnique(trans[1..], c, k - 1);
    }
  }

  /** The ranges are contiguous from symbol 0 to the largest symbol. */
  ghost predicate Partition(t: seq<Transition>) {
    && |t| > 0
    && Proper(t)
    && t[0].lowin == 0 && t[|t| - 1].highin == CHAR_MAX
    && forall k :: 0 <= k < |t| - 1 ==> t[k].highin + 1 == t[k + 1].lowin
  }

  lemma {:induction false} PartitionOrder(t: seq<Transition>, a: nat, b: nat)
    requires Partition(t) && a < b < |t|
    ensures t[a].highin < t[b].lowin
    decreases b
  {
    if a < b - 1 {
      PartitionOrder(t, a, b - 1);
    }
  }

  lemma PartitionDisjoint(t: seq<Transition>)
    requires Partition(t)
    ensures Disjoint(t) && Sorted(t)
  {
    forall a, b | 0 <= a < b < |t|
      ensures t[a].highin < t[b].lowin
    {
      PartitionOrder(t, a, b);
    }
  }

  lemma {:induction false} PartitionFrom(t: seq<Transition>, c: Sym, m: nat) returns (k: nat)
    requires Partition(t) && m < |t| && t[m].lowin <= c
    ensures m <= k < |t| && Fires(t[k], c)
    decreases |t| - m
  {
    if c <= t[m].highin {
      k := m;
    } else {
      k := PartitionFrom(t, c, m + 1);
    }
  }

  /** Merging a partition's neighbours with one destination leaves a partition, and every symbol keeps
      its destination. */
  lemma NormalizedPartition(t: seq<Transition>)
    requires Partition(t)
    ensures NormalizeFrom(t, 0).Normal?
    ensures Partition(NormalizeFrom(t, 0).items) && Separated(NormalizeFrom(t, 0).items)
    ensures forall c: Sym, d :: Leads(NormalizeFrom(t, 0).items, c, d) <==> Leads(t, c, d)
  {
    PartitionDisjoint(t);
    NormalizeSeparates(t, 0);
    NormalizeKeepsPairs(t, 0);
    var r := NormalizeFrom(t, 0).items;
    assert SamePairs(t, r);
    forall c: Sym
      ensures Covered(r, c)
    {
      var k := PartitionFrom(t, c, 0);
      assert Leads(t, c, t[k].dst);
      assert Leads(r, c, t[k].dst);
    }
    forall a, b, c: Sym | 0 <= a < b < |r| && Fires(r[a], c)
      ensures !Fires(r[b], c)
    {
      if Fires(r[b], c) {
        assert Leads(r, c, r[a].dst) && Leads(r, c, r[b].dst);
        SingleDestination(t, c, r[a].dst, r[b].dst);
      }
    }
    DisjointCoverPartition(r);
  }

  lemma SingleDestination(t: seq<Transition>, c: Sym, d: int, e: int)
    requires Disjoint(t) && Leads(t, c, d) && Leads(t, c, e)
    ensures d == e
  {
  }

  lemma DisjointCoverPartition(r: seq<Transition>)
    requires Proper(r) && Sorted(r)
    requires forall a, b, c: Sym :: 0 <= a < b < |r| && Fires(r[a], c) ==> !Fires(r[b], c)
    requires forall c: Sym :: Covered(r, c)
    ensures Partition(r)
  {
    assert Covered(r, 0) && Covered(r, CHAR_MAX);
    forall a, b | 0 <= a < b < |r|
      ensures r[a].highin < r[b].lowin
    {
      assert Fires(r[b], r[b].lowin) && !Fires(r[a], r[b].lowin);
    }
    forall k | 0 <= k < |r| - 1
      ensures r[k].highin + 1 == r[k + 1].lowin
    {
      assert r[k].highin < r[k + 1].lowin;
      var c: Sym := r[k].highin + 1;
      assert Covered(r, c);
    }
  }
}
