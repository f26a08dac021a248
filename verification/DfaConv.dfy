/** The subset construction (rex/rexdfaconv.c). The converter keeps its work arrays as fields, the DFA
    is built in place state by state while the outer loop walks over the growing array of states. */
module DfaConverter {
  import opened Automata
  import opened Transitions
  import opened Subsets
  import opened Reachability
  import opened Database

  predicate IsMarked(marked: seq<bool>, uid: nat) {
    uid < |marked| && marked[uid]
  }

  /** A write behind the end of the array extends it with zeros. */
  function WithMark(marked: seq<bool>, uid: nat, mark: bool): (r: seq<bool>)
    ensures IsMarked(r, uid) == mark
    ensures forall u: nat :: u != uid ==> IsMarked(r, u) == IsMarked(marked, u)
  {
    if uid < |marked| then marked[uid := mark]
    else marked + seq(uid - |marked|, _ => false) + [mark]
  }

  ghost predicate MarkedExactly(marked: seq<bool>, s: seq<nat>) {
    forall u: nat :: IsMarked(marked, u) <==> u in s
  }

  /** The invariant of the closure's work loop: the result grows from `src` towards its closure. */
  ghost predicate Closing(nfa: seq<State>, src: seq<nat>, dest: seq<nat>, setT: seq<nat>, marked: seq<bool>) {
    && Ascending(dest) && Ascending(setT) && MarkedExactly(marked, dest) && Below(dest, |nfa|)
    && (forall u :: u in setT ==> u in dest)
    && (forall u :: u in src ==> u in dest)
    && SetOf(dest) <= Closure(nfa, SetOf(src))
  }

  ghost predicate Followed(etrans: seq<int>, dest: seq<nat>, n: nat)
    requires n <= |etrans|
  {
    forall k :: 0 <= k < n ==> etrans[k] >= 0 && etrans[k] in dest
  }

  lemma PopLast(s: seq<nat>)
    requires |s| > 0
    ensures forall u :: u in s <==> u in s[..|s| - 1] || u == s[|s| - 1]
  {
    assert s == s[..|s| - 1] + [s[|s| - 1]];
  }

  /** Every transition of the listed states that spans all of [c1, c2]. */
  ghost predicate Spans(trans: seq<Transition>, c1: Sym, c2: Sym, q: int, n: nat)
    requires n <= |trans|
  {
    exists k :: 0 <= k < n && trans[k].lowin <= c1 && c2 <= trans[k].highin && trans[k].dst == q
  }

  ghost predicate SomeSpans(nfa: seq<State>, substates: seq<nat>, c1: Sym, c2: Sym, q: int, n: nat)
    requires Below(substates, |nfa|) && n <= |substates|
  {
    exists i :: 0 <= i < n && Spans(nfa[substates[i]].trans, c1, c2, q, |nfa[substates[i]].trans|)
  }

  /** The symbols of a cell are alike for every source range: it holds all of them or none. */
  ghost predicate Refines(cells: seq<Transition>, src: seq<Transition>) {
    forall m, k, c: Sym, e: Sym :: 0 <= m < |cells| && 0 <= k < |src| && Fires(cells[m], c) && Fires(cells[m], e) ==>
      (Fires(src[k], c) <==> Fires(src[k], e))
  }

  /** The first symbol behind a range; the one behind the largest symbol wraps round to 0. */
  function Behind(highin: Sym): nat {
    (highin + 1) % 0x1_0000_0000
  }

  /** The cell boundaries hold both ends of the first `n` ranges. */
  ghost predicate HasEnds(ranges: seq<nat>, src: seq<Transition>, n: nat)
    requires n <= |src|
  {
    forall k :: 0 <= k < n ==> src[k].lowin in ranges && Behind(src[k].highin) in ranges
  }

  ghost predicate HasRanges(trans: seq<Transition>, substate: State, n: nat)
    requires n <= |substate.trans|
  {
    forall k :: 0 <= k < n ==>
      exists m :: 0 <= m < |trans| && trans[m].lowin == substate.trans[k].lowin && trans[m].highin == substate.trans[k].highin
  }

  /** Cell `i` runs from boundary `i` up to the next boundary, the last one to the largest symbol. */
  ghost predicate IsCell(t: Transition, ranges: seq<nat>, i: nat)
    requires i < |ranges|
  {
    t.lowin == ranges[i] && if i == |ranges| - 1 then t.highin == CHAR_MAX else t.highin + 1 == ranges[i + 1]
  }

  lemma AscendingOrder(s: seq<nat>, m: nat, a: nat)
    requires Ascending(s) && m < |s| && a < |s|
    ensures if a <= m then s[a] <= s[m] else m + 1 < |s| && s[m + 1] <= s[a]
  {
  }

  /** The cells made so far start in front of the next boundary. */
  lemma LastCell(cells: seq<Transition>, ranges: seq<nat>, i: nat)
    requires Ascending(ranges) && Below(ranges, 0x1_0000_0000) && |cells| == i < |ranges|
    requires forall k :: 0 <= k < i ==> IsCell(cells[k], ranges, k)
    ensures forall k :: 0 <= k < i ==> cells[k].lowin <= ranges[i]
    ensures ranges[i] <= CHAR_MAX && (i < |ranges| - 1 ==> ranges[i] < ranges[i + 1])
  {
    assert ranges[i] in ranges;
    forall k | 0 <= k < i
      ensures cells[k].lowin <= ranges[i]
    {
      assert IsCell(cells[k], ranges, k);
      AscendingOrder(ranges, i, k);
    }
    if i < |ranges| - 1 { AscendingOrder(ranges, i + 1, i); }
  }

  lemma CellsPartition(cells: seq<Transition>, ranges: seq<nat>)
    requires Ascending(ranges) && Below(ranges, 0x1_0000_0000) && 0 in ranges && |cells| == |ranges|
    requires forall k :: 0 <= k < |ranges| ==> IsCell(cells[k], ranges, k)
    ensures Partition(cells)
  {
    var z :| 0 <= z < |ranges| && ranges[z] == 0;
    AscendingOrder(ranges, z, 0);
    assert ranges[0] == 0;
    assert IsCell(cells[0], ranges, 0) && IsCell(cells[|cells| - 1], ranges, |cells| - 1);
    forall k | 0 <= k < |cells|
      ensures cells[k].lowin <= cells[k].highin && (k < |cells| - 1 ==> cells[k].highin + 1 == cells[k + 1].lowin)
    {
      assert IsCell(cells[k], ranges, k);
      assert ranges[k] in ranges;
      if k < |cells| - 1 {
        assert IsCell(cells[k + 1], ranges, k + 1);
        AscendingOrder(ranges, k + 1, k);
      }
    }
  }

  lemma CellInside(cells: seq<Transition>, ranges: seq<nat>, src: seq<Transition>, m: nat, k: nat, c: Sym, e: Sym)
    requires Ascending(ranges) && |cells| == |ranges| && Below(ranges, 0x1_0000_0000)
    requires forall i :: 0 <= i < |ranges| ==> IsCell(cells[i], ranges, i)
    requires Proper(src) && HasEnds(ranges, src, |src|)
    requires m < |cells| && k < |src| && Fires(cells[m], c) && Fires(cells[m], e) && Fires(src[k], c)
    ensures Fires(src[k], e)
  {
    var a :| 0 <= a < |ranges| && ranges[a] == src[k].lowin;
    var b :| 0 <= b < |ranges| && ranges[b] == Behind(src[k].highin);
    AscendingOrder(ranges, m, a);
    AscendingOrder(ranges, m, b);
  }

  function SubstatesOf(nfa: seq<State>): (r: seq<Substate>) {
    seq(|nfa|, u requires 0 <= u < |nfa| => Substate(u, nfa[u].kind, nfa[u].userdata))
  }

  /** The hash table knows exactly the subsets of the states from 1 on. */
  ghost predicate Indexed(dfa: seq<State>, hash: map<seq<nat>, nat>) {
    && (forall k :: 1 <= k < |dfa| ==> dfa[k].subset in hash && hash[dfa[k].subset] == k)
    && (forall key :: key in hash ==> 1 <= hash[key] < |dfa| && dfa[hash[key]].subset == key)
  }

  /** The transitions of state `i` follow the first `j` cells. */
  ghost predicate RowSoFar(nfa: seq<State>, dfa: seq<State>, i: nat, cells: seq<Transition>, j: nat) {
    && i < |dfa| && j <= |cells| && |dfa[i].trans| == j
    && forall m :: 0 <= m < j ==>
         && dfa[i].trans[m].lowin == cells[m].lowin && dfa[i].trans[m].highin == cells[m].highin
         && forall c: Sym :: Fires(cells[m], c) ==> IsStep(nfa, dfa, SetOf(dfa[i].subset), c, dfa[i].trans[m].dst)
  }

  ghost predicate SameSubsets(a: seq<State>, b: seq<State>) {
    |a| <= |b| && forall k :: 0 <= k < |a| ==> a[k].subset == b[k].subset
  }

  ghost predicate RowsOk(nfa: seq<State>, dfa: seq<State>, n: nat)
    requires n <= |dfa|
  {
    forall k :: 0 <= k < n ==> RowOk(nfa, dfa, k)
  }

  ghost predicate RowsEmpty(dfa: seq<State>, n: nat) {
    forall k :: n <= k < |dfa| ==> dfa[k].trans == []
  }

  lemma CellsRefine(cells: seq<Transition>, ranges: seq<nat>, src: seq<Transition>)
    requires Ascending(ranges) && |cells| == |ranges| && Below(ranges, 0x1_0000_0000)
    requires forall i :: 0 <= i < |ranges| ==> IsCell(cells[i], ranges, i)
    requires Proper(src) && HasEnds(ranges, src, |src|)
    ensures Refines(cells, src)
  {
    hide IsCell, HasEnds, Ascending, Proper;
    forall m, k, c: Sym, e: Sym | 0 <= m < |cells| && 0 <= k < |src| && Fires(cells[m], c) && Fires(cells[m], e)
      ensures Fires(src[k], c) <==> Fires(src[k], e)
    {
      if Fires(src[k], c) { CellInside(cells, ranges, src, m, k, c, e); }
      if Fires(src[k], e) { CellInside(cells, ranges, src, m, k, e, c); }
    }
  }

  lemma RowKept(nfa: seq<State>, a: seq<State>, b: seq<State>, k: nat)
    requires k < |a| && SameSubsets(a, b) && a[k].trans == b[k].trans && RowOk(nfa, a, k)
    ensures RowOk(nfa, b, k)
  {
    forall c: Sym, m | 0 <= m < |b[k].trans| && Fires(b[k].trans[m], c)
      ensures IsStep(nfa, b, SetOf(b[k].subset), c, b[k].trans[m].dst)
    {
      assert IsStep(nfa, a, SetOf(a[k].subset), c, a[k].trans[m].dst);
    }
  }

  lemma RowsKept(nfa: seq<State>, a: seq<State>, b: seq<State>, i: nat)
    requires i <= |a| && SameSubsets(a, b) && RowsOk(nfa, a, i)
    requires forall k :: 0 <= k < i ==> a[k].trans == b[k].trans
    ensures RowsOk(nfa, b, i)
  {
    forall k | 0 <= k < i
      ensures RowOk(nfa, b, k)
    {
      RowKept(nfa, a, b, k);
    }
  }

  lemma RowSoFarKept(nfa: seq<State>, a: seq<State>, b: seq<State>, i: nat, cells: seq<Transition>, j: nat)
    requires SameSubsets(a, b) && RowSoFar(nfa, a, i, cells, j) && a[i].trans == b[i].trans
    ensures RowSoFar(nfa, b, i, cells, j)
  {
    forall m, c: Sym | 0 <= m < j && Fires(cells[m], c)
      ensures IsStep(nfa, b, SetOf(b[i].subset), c, b[i].trans[m].dst)
    {
      assert IsStep(nfa, a, SetOf(a[i].subset), c, a[i].trans[m].dst);
    }
  }

  /** What holds while the row of state `i` is being filled, after `j` cells. */
  ghost predicate Filling(nfa: seq<State>, start: nat, dfa: seq<State>, hash: map<seq<nat>, nat>, i: nat, cells: seq<Transition>, j: nat) {
    && HeadsOk(nfa, start, dfa) && Indexed(dfa, hash)
    && i < |dfa| && RowsOk(nfa, dfa, i) && RowsEmpty(dfa, i + 1)
    && RowSoFar(nfa, dfa, i, cells, j)
  }

  lemma FillingKept(nfa: seq<State>, start: nat, a: seq<State>, b: seq<State>, hash: map<seq<nat>, nat>, i: nat, cells: seq<Transition>, j: nat)
    requires i < |a| && RowsOk(nfa, a, i) && RowsEmpty(a, i + 1) && RowSoFar(nfa, a, i, cells, j)
    requires HeadsOk(nfa, start, b) && Indexed(b, hash)
    requires a <= b && RowsEmpty(b, |a|)
    ensures Filling(nfa, start, b, hash, i, cells, j)
  {
    RowsKept(nfa, a, b, i);
    RowSoFarKept(nfa, a, b, i, cells, j);
  }

  /** Only transitions changed. */
  lemma HeadsKept(nfa: seq<State>, start: nat, a: seq<State>, b: seq<State>, hash: map<seq<nat>, nat>)
    requires HeadsOk(nfa, start, a) && Indexed(a, hash)
    requires |a| == |b| && forall k :: 0 <= k < |a| ==> a[k].subset == b[k].subset && a[k].kind == b[k].kind
    ensures HeadsOk(nfa, start, b) && Indexed(b, hash)
  {
  }

  /** One more state, for a subset that was not there. */
  lemma HeadsGrown(nfa: seq<State>, start: nat, a: seq<State>, b: seq<State>, hash: map<seq<nat>, nat>, hash': map<seq<nat>, nat>, s: seq<nat>)
    requires HeadsOk(nfa, start, a) && Indexed(a, hash) && s !in hash && hash' == hash[s := |a|]
    requires Ascending(s) && Below(s, |nfa|) && s != [] && |b| == |a| + 1 && a <= b
    requires b[|a|].subset == s && b[|a|].kind == if HasAccept(nfa, SetOf(s)) then AcceptKind else NoKind
    ensures HeadsOk(nfa, start, b) && Indexed(b, hash')
  {
  }

  lemma RowGrown(nfa: seq<State>, a: seq<State>, b: seq<State>, i: nat, cells: seq<Transition>, j: nat, target: nat)
    requires SameSubsets(a, b) && |a| == |b| && j < |cells| && RowSoFar(nfa, a, i, cells, j)
    requires b[i].trans == a[i].trans + [Transition(cells[j].lowin, cells[j].highin, target)]
    requires forall c: Sym :: Fires(cells[j], c) ==> IsStep(nfa, a, SetOf(a[i].subset), c, target)
    ensures RowSoFar(nfa, b, i, cells, j + 1)
  {
    forall m, c: Sym | 0 <= m < j + 1 && Fires(cells[m], c)
      ensures IsStep(nfa, b, SetOf(b[i].subset), c, b[i].trans[m].dst)
    {
      if m < j {
        assert IsStep(nfa, a, SetOf(a[i].subset), c, a[i].trans[m].dst);
      } else {
        assert IsStep(nfa, a, SetOf(a[i].subset), c, target);
      }
    }
  }

  /** The transition of cell `j` goes to the end of the row. */
  lemma FillingGrown(nfa: seq<State>, start: nat, a: seq<State>, b: seq<State>, hash: map<seq<nat>, nat>, i: nat, cells: seq<Transition>, j: nat,
                     target: nat, at: nat)
    requires Filling(nfa, start, a, hash, i, cells, j) && j < |cells| && Sorted(cells) && Partition(cells)
    requires at <= |a[i].trans|
    requires b == a[i := a[i].(trans := a[i].trans[..at] + [Span(cells[j].lowin, cells[j].highin, target)] + a[i].trans[at..])]
    requires Sorted(a[i].trans) && (forall k :: 0 <= k < |a[i].trans| ==> a[i].trans[k].lowin <= cells[j].lowin) ==> at == |a[i].trans|
    requires forall c: Sym :: Fires(cells[j], c) ==> IsStep(nfa, a, SetOf(a[i].subset), c, target)
    ensures Filling(nfa, start, b, hash, i, cells, j + 1) && |b| == |a| && b[i].subset == a[i].subset
  {
    hide IsStep, RowsOk, HeadsOk, Indexed;
    HeadsKept(nfa, start, a, b, hash);
    RowsKept(nfa, a, b, i);
    RowGrown(nfa, a, b, i, cells, j, target);
  }

  lemma RowPartition(nfa: seq<State>, a: seq<State>, i: nat, cells: seq<Transition>)
    requires Partition(cells) && RowSoFar(nfa, a, i, cells, |cells|)
    ensures Partition(a[i].trans)
  {
    NormalizedPartition(a[i].trans);
  }

  /** The finished row, merged, still sends every symbol to its step. */
  lemma RowDone(nfa: seq<State>, a: seq<State>, b: seq<State>, i: nat, cells: seq<Transition>)
    requires Partition(cells) && RowSoFar(nfa, a, i, cells, |cells|)
    requires |b| == |a| && SameSubsets(a, b)
    requires NormalizeFrom(a[i].trans, 0).items == b[i].trans
    ensures RowOk(nfa, b, i)
  {
    var t := a[i].trans;
    RowPartition(nfa, a, i, cells);
    NormalizedPartition(t);
    forall c: Sym, m | 0 <= m < |b[i].trans| && Fires(b[i].trans[m], c)
      ensures IsStep(nfa, b, SetOf(b[i].subset), c, b[i].trans[m].dst)
    {
      var d := b[i].trans[m].dst;
      assert Leads(b[i].trans, c, d);
      var k :| 0 <= k < |t| && Fires(t[k], c) && t[k].dst == d;
      assert Fires(cells[k], c);
      assert IsStep(nfa, a, SetOf(a[i].subset), c, d);
    }
  }

  lemma RowFinished(nfa: seq<State>, start: nat, a: seq<State>, b: seq<State>, hash: map<seq<nat>, nat>, i: nat, cells: seq<Transition>)
    requires Filling(nfa, start, a, hash, i, cells, |cells|) && Partition(cells)
    requires b == a[i := a[i].(trans := NormalizeFrom(a[i].trans, 0).items)]
    ensures HeadsOk(nfa, start, b) && Indexed(b, hash) && |b| == |a|
    ensures RowsOk(nfa, b, i + 1) && RowsEmpty(b, i + 1)
  {
    hide NormalizeFrom, IsStep, RowSoFar;
    HeadsKept(nfa, start, a, b, hash);
    RowsKept(nfa, a, b, i);
    RowDone(nfa, a, b, i, cells);
  }

  lemma AcceptIndex(nfa: seq<State>, s: seq<nat>)
    requires Below(s, |nfa|)
    ensures HasAccept(nfa, SetOf(s)) <==> exists m :: 0 <= m < |s| && nfa[s[m]].kind == AcceptKind
  {
    if m :| 0 <= m < |s| && nfa[s[m]].kind == AcceptKind {
      assert s[m] in SetOf(s);
    }
  }

  lemma StartHeads(nfa: seq<State>, start: nat, dfa: seq<State>, hash: map<seq<nat>, nat>, first: seq<nat>)
    requires start < |nfa| && dfa == [NewState(DeadKind), NewState(StartKind).(subset := first)] && hash == map[first := 1]
    requires Ascending(first) && Below(first, |nfa|) && SetOf(first) == Closure(nfa, {start})
    ensures HeadsOk(nfa, start, dfa) && Indexed(dfa, hash)
  {
    ClosureContains(nfa, {start});
    assert start in SetOf(first);
  }

  lemma StateCount(nfa: seq<State>, start: nat, dfa: seq<State>)
    requires HeadsOk(nfa, start, dfa)
    ensures |dfa| <= Pow2(|nfa|)
  {
    SubsetCount(seq(|dfa|, k requires 0 <= k < |dfa| => dfa[k].subset), |nfa|);
  }

  lemma MovedSpans(nfa: seq<State>, subset: seq<nat>, cells: seq<Transition>, src: seq<Transition>, j: nat, c: Sym, q: nat)
    requires ValidNfa(nfa) && Below(subset, |nfa|) && j < |cells| && Proper(cells) && Refines(cells, src) && Fires(cells[j], c)
    requires forall m :: 0 <= m < |subset| ==> HasRanges(src, nfa[subset[m]], |nfa[subset[m]].trans|)
    requires q in MoveSet(nfa, SetOf(subset), c)
    ensures SomeSpans(nfa, subset, cells[j].lowin, cells[j].highin, q, |subset|)
  {
    var p: nat :| p in SetOf(subset) && SymEdge(nfa, p, c, q);
    var i :| 0 <= i < |subset| && subset[i] == p;
    var k :| 0 <= k < |nfa[p].trans| && Fires(nfa[p].trans[k], c) && nfa[p].trans[k].dst == q;
    var m :| 0 <= m < |src| && src[m].lowin == nfa[p].trans[k].lowin && src[m].highin == nfa[p].trans[k].highin;
    assert Fires(cells[j], cells[j].lowin) && Fires(cells[j], cells[j].highin) && Fires(src[m], c);
    assert Spans(nfa[subset[i]].trans, cells[j].lowin, cells[j].highin, q, |nfa[subset[i]].trans|);
  }

  lemma SpansMoved(nfa: seq<State>, subset: seq<nat>, t: Transition, c: Sym, q: nat)
    requires ValidNfa(nfa) && Below(subset, |nfa|) && Fires(t, c) && q < |nfa| && SomeSpans(nfa, subset, t.lowin, t.highin, q, |subset|)
    ensures q in MoveSet(nfa, SetOf(subset), c)
  {
    var i :| 0 <= i < |subset| && Spans(nfa[subset[i]].trans, t.lowin, t.highin, q, |nfa[subset[i]].trans|);
    assert subset[i] in SetOf(subset) && SymEdge(nfa, subset[i], c, q);
  }

  /** The states that span a cell are those one symbol of the cell leads to. */
  lemma CellMove(nfa: seq<State>, subset: seq<nat>, cells: seq<Transition>, src: seq<Transition>, j: nat, moveset: seq<nat>)
    requires ValidNfa(nfa) && Below(subset, |nfa|) && j < |cells| && Proper(cells) && Refines(cells, src)
    requires forall m :: 0 <= m < |subset| ==> HasRanges(src, nfa[subset[m]], |nfa[subset[m]].trans|)
    requires Below(moveset, |nfa|)
    requires forall q: nat :: q in moveset <==> SomeSpans(nfa, subset, cells[j].lowin, cells[j].highin, q, |subset|)
    ensures forall c: Sym :: Fires(cells[j], c) ==> MoveSet(nfa, SetOf(subset), c) == SetOf(moveset)
  {
    hide SomeSpans, HasRanges, Refines, ValidNfa;
    forall c: Sym | Fires(cells[j], c)
      ensures MoveSet(nfa, SetOf(subset), c) == SetOf(moveset)
    {
      forall q: nat
        ensures q in MoveSet(nfa, SetOf(subset), c) <==> q in moveset
      {
        hide MoveSet;
        if q in MoveSet(nfa, SetOf(subset), c) { MovedSpans(nfa, subset, cells, src, j, c, q); }
        if q in moveset { SpansMoved(nfa, subset, cells[j], c, q); }
      }
    }
  }

  lemma ClosureStarts(nfa: seq<State>, s: seq<nat>, closed: seq<nat>)
    requires Below(s, |nfa|) && s != [] && SetOf(closed) == Closure(nfa, SetOf(s))
    ensures closed != []
  {
    ClosureContains(nfa, SetOf(s));
    assert s[0] in SetOf(closed);
  }

  /** No state spans the cell: its symbols lead to the dead state. */
  lemma DeadTarget(nfa: seq<State>, dfa: seq<State>, start: nat, subset: seq<nat>, t: Transition, moveset: seq<nat>)
    requires HeadsOk(nfa, start, dfa) && moveset == []
    requires forall c: Sym :: Fires(t, c) ==> MoveSet(nfa, SetOf(subset), c) == SetOf(moveset)
    ensures forall c: Sym :: Fires(t, c) ==> IsStep(nfa, dfa, SetOf(subset), c, 0)
  {
    assert SetOf(moveset) == {};
    assert Closure(nfa, {}) == {};
  }

  lemma LiveTarget(nfa: seq<State>, dfa: seq<State>, start: nat, subset: seq<nat>, t: Transition, moveset: seq<nat>, closed: seq<nat>, target: nat)
    requires HeadsOk(nfa, start, dfa) && closed != [] && SetOf(closed) == Closure(nfa, SetOf(moveset))
    requires target < |dfa| && dfa[target].subset == closed
    requires forall c: Sym :: Fires(t, c) ==> MoveSet(nfa, SetOf(subset), c) == SetOf(moveset)
    ensures forall c: Sym :: Fires(t, c) ==> IsStep(nfa, dfa, SetOf(subset), c, target)
  {
    hide Closure, MoveSet;
    assert closed[0] in SetOf(closed);
  }

  class RexDfaConv {
    var setT: seq<nat>
    var setU: seq<nat>
    var setV: seq<nat>
    var trans: seq<Transition>
    var temptrans: seq<Transition>
    var ranges: seq<nat>
    var marked: seq<bool>
    var hash: map<seq<nat>, nat>

    constructor ()
      ensures MarkedExactly(marked, []) && hash == map[]
    {
      setT, setU, setV, trans, temptrans, ranges, marked, hash := [], [], [], [], [], [], [], map[];
    }

    /** The work set setT holds the states whose empty transitions are still to be followed; a mark says
        that a state is in the result already. */
    method EClosure(nfa: seq<State>, src: seq<nat>) returns (dest: seq<nat>)
      requires ValidNfa(nfa) && Ascending(src) && Below(src, |nfa|) && MarkedExactly(marked, [])
      modifies this`setT, this`marked
      ensures MarkedExactly(marked, [])
      ensures Ascending(dest) && Below(dest, |nfa|) && SetOf(dest) == Closure(nfa, SetOf(src))
    {
      dest, setT := [], [];
      for i := 0 to |src|
        invariant Ascending(dest) && Ascending(setT) && MarkedExactly(marked, dest)
        invariant forall u :: u in dest <==> u in src[..i]
        invariant forall u :: u in setT <==> u in src[..i]
      {
        var uid := src[i];
        setT := AddNewSubstate(setT, uid);
        dest := AddNewSubstate(dest, uid);
        marked := WithMark(marked, uid, true);
      }
      assert src[..|src|] == src;
      ClosureContains(nfa, SetOf(src));
      while |setT| > 0
        invariant Closing(nfa, src, dest, setT, marked)
        invariant forall a :: 0 <= a < |dest| && dest[a] !in setT ==> Followed(nfa[dest[a]].etrans, dest, |nfa[dest[a]].etrans|)
        decreases |nfa| - |dest|, |setT|
      {
        AscendingLength(dest, |nfa|);
        var uid := setT[|setT| - 1];
        assert uid in setT;
        PopLast(setT);
        setT := setT[..|setT| - 1];
        dest := Follow(nfa, src, dest, uid);
        AscendingLength(dest, |nfa|);
      }
      ClosureLeast(nfa, SetOf(src), SetOf(dest));
      for i := 0 to |dest|
        invariant forall u: nat :: IsMarked(marked, u) <==> u in dest[i..]
      {
        assert dest[i..] == [dest[i]] + dest[i + 1..];
        marked := WithMark(marked, dest[i], false);
      }
    }

    /** One round of the work loop: the empty transitions of state `uid`. */
    method Follow(nfa: seq<State>, ghost src: seq<nat>, dest0: seq<nat>, uid: nat) returns (dest: seq<nat>)
      requires Closing(nfa, src, dest0, setT, marked) && uid in dest0
      requires ValidNfa(nfa)
      modifies this`setT, this`marked
      ensures Closing(nfa, src, dest, setT, marked)
      ensures |dest0| < |dest| || (dest0 == dest && setT == old(setT))
      ensures Followed(nfa[uid].etrans, dest, |nfa[uid].etrans|)
      ensures forall u :: u in dest <==> u in dest0 || (u in setT && u !in old(setT))
      ensures forall u :: u in old(setT) ==> u in setT
    {
      dest := dest0;
      var s := nfa[uid];
      for j := 0 to |s.etrans|
        invariant Closing(nfa, src, dest, setT, marked) && uid in dest
        invariant |dest0| < |dest| || (dest0 == dest && setT == old(setT))
        invariant Followed(s.etrans, dest, j)
        invariant forall u :: u in dest <==> u in dest0 || (u in setT && u !in old(setT))
        invariant forall u :: u in old(setT) ==> u in setT
      {
        var next := s.etrans[j];
        assert EpsEdge(nfa, uid, next);
        if !IsMarked(marked, next) {
          ClosureClosed(nfa, SetOf(src), uid, next);
          setT := AddNewSubstate(setT, next);
          dest := AddNewSubstate(dest, next);
          marked := WithMark(marked, next, true);
        }
      }
    }

    method Move(nfa: seq<State>, substates: seq<nat>, c1: Sym, c2: Sym) returns (moveset: seq<nat>)
      requires ValidNfa(nfa) && Below(substates, |nfa|)
      ensures Ascending(moveset) && Below(moveset, |nfa|)
      ensures forall q: nat :: q in moveset <==> SomeSpans(nfa, substates, c1, c2, q, |substates|)
    {
      moveset := [];
      for i := 0 to |substates|
        invariant Ascending(moveset) && Below(moveset, |nfa|)
        invariant forall q: nat :: q in moveset <==> SomeSpans(nfa, substates, c1, c2, q, i)
      {
        var s := nfa[substates[i]];
        for j := 0 to |s.trans|
          invariant Ascending(moveset) && Below(moveset, |nfa|)
          invariant forall q: nat :: q in moveset <==> SomeSpans(nfa, substates, c1, c2, q, i) || Spans(s.trans, c1, c2, q, j)
        {
          var t := s.trans[j];
          if c1 >= t.lowin && c2 <= t.highin {
            moveset := AddNewSubstate(moveset, t.dst);
          }
        }
      }
    }

    method GetSubsetTransitions(nfa: seq<State>, substates: seq<nat>)
      requires ValidNfa(nfa) && Below(substates, |nfa|)
      modifies this`temptrans
      ensures Proper(temptrans)
      ensures forall m :: 0 <= m < |substates| ==> HasRanges(temptrans, nfa[substates[m]], |nfa[substates[m]].trans|)
    {
      temptrans := [];
      for i := 0 to |substates|
        invariant Proper(temptrans)
        invariant forall m :: 0 <= m < i ==> HasRanges(temptrans, nfa[substates[m]], |nfa[substates[m]].trans|)
      {
        var s := nfa[substates[i]];
        for j := 0 to |s.trans|
          invariant Proper(temptrans)
          invariant forall m :: 0 <= m < i ==> HasRanges(temptrans, nfa[substates[m]], |nfa[substates[m]].trans|)
          invariant HasRanges(temptrans, s, j)
        {
          ghost var prev := temptrans;
          temptrans := temptrans + [Transition(s.trans[j].lowin, s.trans[j].highin, 0)];
          assert forall m :: 0 <= m < |prev| ==> temptrans[m] == prev[m];
          assert temptrans[|prev|].lowin == s.trans[j].lowin;
        }
      }
    }

    /** Every range starts and ends at a boundary. */
    method InsertValues()
      requires Proper(temptrans)
      modifies this`ranges
      ensures Ascending(ranges) && Below(ranges, 0x1_0000_0000) && 0 in ranges && HasEnds(ranges, temptrans, |temptrans|)
    {
      ranges := [0];
      for i := 0 to |temptrans|
        invariant Ascending(ranges) && Below(ranges, 0x1_0000_0000) && 0 in ranges
        invariant HasEnds(ranges, temptrans, i)
      {
        ranges := AddNewSubstate(ranges, temptrans[i].lowin);
        ranges := AddNewSubstate(ranges, Behind(temptrans[i].highin));
      }
    }

    /** The sorted cells of all range ends: a partition of the symbols that splits no source range. */
    method UniqueRanges()
      requires Proper(temptrans)
      modifies this`ranges, this`trans
      ensures Partition(trans) && Refines(trans, temptrans)
    {
      InsertValues();
      var bounds := ranges;
      trans := [];
      for i := 0 to |bounds|
        invariant |trans| == i && Sorted(trans)
        invariant forall k :: 0 <= k < i ==> IsCell(trans[k], bounds, k)
      {
        LastCell(trans, bounds, i);
        var low := bounds[i];
        var high := if i == |bounds| - 1 then CHAR_MAX else bounds[i + 1] - 1;
        var at;
        trans, at := Add(trans, low, high, 0);
      }
      CellsPartition(trans, bounds);
      CellsRefine(trans, bounds, temptrans);
    }

    /** The substate record of every NFA state, in order. */
    method InitSubstates(dfa: RexDb, nfa: seq<State>)
      modifies dfa`substates
      ensures dfa.substates == SubstatesOf(nfa)
    {
      var records: seq<Substate> := [];
      for i := 0 to |nfa|
        invariant records == seq(i, u requires 0 <= u < |nfa| => Substate(u, nfa[u].kind, nfa[u].userdata))
      {
        records := records + [Substate(i, nfa[i].kind, nfa[i].userdata)];
      }
      dfa.substates := records;
    }

    /** Fills in the subset of a new DFA state; one accepting NFA state makes it accepting. */
    method SetSubstates(dfa: RexDb, uid: nat, nfa: seq<State>, set_: seq<nat>)
      requires uid < |dfa.states| && Ascending(set_) && Below(set_, |nfa|)
      modifies dfa`states
      ensures dfa.states == old(dfa.states)[uid := old(dfa.states)[uid].(subset := set_,
                kind := if HasAccept(nfa, SetOf(set_)) then AcceptKind else old(dfa.states)[uid].kind)]
    {
      var s := dfa.states[uid];
      var subset, kind := [], s.kind;
      for i := 0 to |set_|
        invariant Ascending(subset) && forall u :: u in subset <==> u in set_[..i]
        invariant dfa.states == old(dfa.states)
        invariant kind == if exists m :: 0 <= m < i && nfa[set_[m]].kind == AcceptKind then AcceptKind else s.kind
      {
        subset := AddNewSubstate(subset, set_[i]);
        if nfa[set_[i]].kind == AcceptKind {
          kind := AcceptKind;
        }
      }
      assert set_[..|set_|] == set_;
      AscendingUnique(subset, set_);
      AcceptIndex(nfa, set_);
      dfa.states := dfa.states[uid := s.(subset := subset, kind := kind)];
    }

    /** The DFA state for the subset setV, a new one if the hash table does not know it. */
    method FindOrCreate(dfa: RexDb, nfa: seq<State>, ghost start: nat) returns (uid: nat)
      requires HeadsOk(nfa, start, dfa.states) && Indexed(dfa.states, hash)
      requires Ascending(setV) && Below(setV, |nfa|) && setV != []
      modifies dfa`states, this`hash
      ensures HeadsOk(nfa, start, dfa.states) && Indexed(dfa.states, hash)
      ensures uid < |dfa.states| && dfa.states[uid].subset == setV
      ensures old(dfa.states) <= dfa.states && |dfa.states| <= |old(dfa.states)| + 1
      ensures RowsEmpty(dfa.states, |old(dfa.states)|)
    {
      if setV in hash {
        uid := hash[setV];
      } else {
        ghost var before := dfa.states;
        uid := dfa.CreateState(NoKind);
        SetSubstates(dfa, uid, nfa, setV);
        hash := hash[setV := uid];
        assert dfa.states[..uid] == before;
        HeadsGrown(nfa, start, before, dfa.states, old(hash), hash, setV);
      }
    }

    /** From NFA start state `start` to the DFA. */
    method Run(nfa: RexDb, start: nat) returns (dfa: RexDb)
      requires ValidNfa(nfa.states) && start < |nfa.states|
      requires MarkedExactly(marked, []) && hash == map[]
      modifies this
      ensures fresh(dfa) && DfaOf(nfa.states, start, dfa.states)
      ensures |dfa.states| <= Pow2(|nfa.states|)
      ensures dfa.substates == SubstatesOf(nfa.states)
    {
      var n := nfa.states;
      dfa := new RexDb(true);
      InitSubstates(dfa, n);
      var uid := dfa.CreateState(StartKind);
      setU := [start];
      var first := EClosure(n, setU);
      dfa.states := dfa.states[uid := dfa.states[uid].(subset := first)];
      hash := hash[first := uid];
      StartHeads(n, start, dfa.states, hash, first);
      var i := 0;
      while i < |dfa.states|
        invariant HeadsOk(n, start, dfa.states) && Indexed(dfa.states, hash) && MarkedExactly(marked, [])
        invariant i <= |dfa.states| && dfa.substates == SubstatesOf(n)
        invariant RowsOk(n, dfa.states, i) && RowsEmpty(dfa.states, i)
        decreases Pow2(|n|) - i
      {
        StateCount(n, start, dfa.states);
        FillRow(dfa, n, start, i);
        StateCount(n, start, dfa.states);
        i := i + 1;
      }
      StateCount(n, start, dfa.states);
    }

    /** The DFA state for the step from `subset` by the cell `t`; the dead state 0 if there is none. */
    method CellTarget(dfa: RexDb, nfa: seq<State>, ghost start: nat, subset: seq<nat>, cells: seq<Transition>, j: nat) returns (target: nat)
      requires ValidNfa(nfa) && HeadsOk(nfa, start, dfa.states) && Indexed(dfa.states, hash) && MarkedExactly(marked, [])
      requires j < |cells| && Below(subset, |nfa|) && Proper(cells) && Refines(cells, temptrans)
      requires forall m :: 0 <= m < |subset| ==> HasRanges(temptrans, nfa[subset[m]], |nfa[subset[m]].trans|)
      modifies dfa`states, this`setT, this`setU, this`setV, this`marked, this`hash
      ensures HeadsOk(nfa, start, dfa.states) && Indexed(dfa.states, hash) && MarkedExactly(marked, [])
      ensures old(dfa.states) <= dfa.states
      ensures RowsEmpty(dfa.states, |old(dfa.states)|)
      ensures forall c: Sym :: Fires(cells[j], c) ==> IsStep(nfa, dfa.states, SetOf(subset), c, target)
    {
      setU := Move(nfa, subset, cells[j].lowin, cells[j].highin);
      CellMove(nfa, subset, cells, temptrans, j, setU);
      if |setU| == 0 {
        DeadTarget(nfa, dfa.states, start, subset, cells[j], setU);
        return 0;
      }
      setV := EClosure(nfa, setU);
      ClosureStarts(nfa, setU, setV);
      hide *;
      target := FindOrCreate(dfa, nfa, start);
      LiveTarget(nfa, dfa.states, start, subset, cells[j], setU, setV, target);
    }

    /** One cell of state `i`: its target and its transition. */
    method FillCell(dfa: RexDb, nfa: seq<State>, ghost start: nat, i: nat, cells: seq<Transition>, j: nat)
      requires ValidNfa(nfa) && Filling(nfa, start, dfa.states, hash, i, cells, j) && MarkedExactly(marked, [])
      requires j < |cells| && Partition(cells) && Sorted(cells) && Refines(cells, temptrans)
      requires forall m :: 0 <= m < |dfa.states[i].subset| ==>
                 HasRanges(temptrans, nfa[dfa.states[i].subset[m]], |nfa[dfa.states[i].subset[m]].trans|)
      modifies dfa`states, this`setT, this`setU, this`setV, this`marked, this`hash
      ensures Filling(nfa, start, dfa.states, hash, i, cells, j + 1) && MarkedExactly(marked, [])
      ensures |old(dfa.states)| <= |dfa.states| && dfa.states[i].subset == old(dfa.states[i].subset)
    {
      ghost var before := dfa.states;
      var target := CellTarget(dfa, nfa, start, dfa.states[i].subset, cells, j);
      FillingKept(nfa, start, before, dfa.states, hash, i, cells, j);
      before := dfa.states;
      var at := dfa.AddTransition(i, cells[j].lowin, cells[j].highin, target);
      hide *;
      FillingGrown(nfa, start, before, dfa.states, hash, i, cells, j, target, at);
    }

    /** The transitions of DFA state `i`: one per cell, then merged. */
    method FillRow(dfa: RexDb, nfa: seq<State>, ghost start: nat, i: nat)
      requires ValidNfa(nfa) && HeadsOk(nfa, start, dfa.states) && Indexed(dfa.states, hash) && MarkedExactly(marked, [])
      requires i < |dfa.states| && RowsOk(nfa, dfa.states, i) && dfa.states[i].trans == [] && RowsEmpty(dfa.states, i + 1)
      modifies dfa`states, this
      ensures HeadsOk(nfa, start, dfa.states) && Indexed(dfa.states, hash) && MarkedExactly(marked, [])
      ensures |old(dfa.states)| <= |dfa.states|
      ensures RowsOk(nfa, dfa.states, i + 1) && RowsEmpty(dfa.states, i + 1)
    {
      var subset := dfa.states[i].subset;
      GetSubsetTransitions(nfa, subset);
      UniqueRanges();
      var cells := trans;
      ghost var src := temptrans;
      PartitionDisjoint(cells);
      for j := 0 to |cells|
        invariant Filling(nfa, start, dfa.states, hash, i, cells, j) && MarkedExactly(marked, [])
        invariant temptrans == src && |old(dfa.states)| <= |dfa.states| && dfa.states[i].subset == subset
      {
        FillCell(dfa, nfa, start, i, cells, j);
      }
      ghost var before := dfa.states;
      var r := Normalize(dfa.states[i].trans);
      dfa.states := dfa.states[i := dfa.states[i].(trans := r)];
      hide *;
      RowFinished(nfa, start, before, dfa.states, hash, i, cells);
    }
  }
}
