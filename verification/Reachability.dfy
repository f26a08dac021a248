/** What the subset construction is about: the set of states an NFA can be in after a word, and the
    state a DFA is in after the same word. */
module Reachability {
  import opened Automata
  import opened Transitions
  import opened Subsets

  ghost predicate ValidNfa(nfa: seq<State>) {
    forall p :: 0 <= p < |nfa| ==>
      && Proper(nfa[p].trans)
      && (forall k :: 0 <= k < |nfa[p].trans| ==> 0 <= nfa[p].trans[k].dst < |nfa|)
      && (forall q :: q in nfa[p].etrans ==> 0 <= q < |nfa|)
  }

  ghost predicate InClosure(nfa: seq<State>, from: set<nat>, q: nat) {
    exists p: nat :: p in from && Path(nfa, p, [], q)
  }

  ghost predicate CanMove(nfa: seq<State>, from: set<nat>, c: Sym, q: nat) {
    exists p: nat :: p in from && SymEdge(nfa, p, c, q)
  }

  /** The states reachable from `from` through empty transitions alone. */
  ghost function Closure(nfa: seq<State>, from: set<nat>): set<nat> {
    set q: nat | q < |nfa| && InClosure(nfa, from, q)
  }

  ghost function MoveSet(nfa: seq<State>, from: set<nat>, c: Sym): set<nat> {
    set q: nat | q < |nfa| && CanMove(nfa, from, c, q)
  }

  ghost function StepSet(nfa: seq<State>, from: set<nat>, c: Sym): set<nat> {
    Closure(nfa, MoveSet(nfa, from, c))
  }

  ghost function Reach(nfa: seq<State>, start: nat, w: Word): set<nat> {
    set q: nat | q < |nfa| && Path(nfa, start, w, q)
  }

  ghost predicate HasAccept(nfa: seq<State>, s: set<nat>) {
    exists q: nat :: q in s && q < |nfa| && nfa[q].kind == AcceptKind
  }

  ghost predicate Accepts(nfa: seq<State>, start: nat, w: Word) {
    HasAccept(nfa, Reach(nfa, start, w))
  }

  lemma {:induction false} ClosureInside(nfa: seq<State>, p: int, q: int, n: nat, d: set<nat>)
    requires PathN(nfa, p, [], q, n) && p >= 0 && p in d
    requires forall a: nat, b: int :: a in d && EpsEdge(nfa, a, b) ==> b >= 0 && b in d
    ensures q >= 0 && q in d
    decreases n
  {
    if n > 0 {
      var r: int :| EpsEdge(nfa, p, r) && PathN(nfa, r, [], q, n - 1);
      ClosureInside(nfa, r, q, n - 1, d);
    }
  }

  lemma ClosureLeast(nfa: seq<State>, from: set<nat>, d: set<nat>)
    requires from <= d
    requires forall a: nat, b: int :: a in d && EpsEdge(nfa, a, b) ==> b >= 0 && b in d
    ensures Closure(nfa, from) <= d
  {
    forall q: nat | q in Closure(nfa, from)
      ensures q in d
    {
      var p: nat :| p in from && Path(nfa, p, [], q);
      var n: nat :| PathN(nfa, p, [], q, n);
      ClosureInside(nfa, p, q, n, d);
    }
  }

  lemma ClosureContains(nfa: seq<State>, from: set<nat>)
    requires forall u :: u in from ==> u < |nfa|
    ensures from <= Closure(nfa, from)
  {
    forall u | u in from
      ensures u in Closure(nfa, from)
    {
      PathRefl(nfa, u);
    }
  }

  lemma ClosureClosed(nfa: seq<State>, from: set<nat>, p: nat, q: nat)
    requires p in Closure(nfa, from) && EpsEdge(nfa, p, q) && q < |nfa|
    ensures q in Closure(nfa, from)
  {
    var o: nat :| o in from && Path(nfa, o, [], p);
    PathRefl(nfa, q);
    PathEps(nfa, p, q, [], q);
    PathConcat(nfa, o, [], p, [], q);
    var none: Word := [];
    assert none + none == none;
  }

  lemma {:induction false} PathNSplit(s: seq<State>, p: int, u: Word, v: Word, q: int, n: nat) returns (mid: int, k: nat)
    requires PathN(s, p, u + v, q, n)
    ensures k <= n && PathN(s, p, u, mid, k) && PathN(s, mid, v, q, n - k)
    decreases n
  {
    if u == [] {
      assert u + v == v;
      return p, 0;
    }
    if r: int :| n > 0 && EpsEdge(s, p, r) && PathN(s, r, u + v, q, n - 1) {
      mid, k := PathNSplit(s, r, u, v, q, n - 1);
      k := k + 1;
    } else {
      var r: int :| SymEdge(s, p, (u + v)[0], r) && PathN(s, r, (u + v)[1..], q, n - 1);
      assert (u + v)[1..] == u[1..] + v;
      mid, k := PathNSplit(s, r, u[1..], v, q, n - 1);
      k := k + 1;
    }
  }

  /** A path that spells one symbol is empty transitions, the symbol's edge, empty transitions. */
  lemma {:induction false} PathNSymbol(s: seq<State>, p: int, c: Sym, q: int, n: nat) returns (a: int, b: int)
    requires PathN(s, p, [c], q, n)
    ensures Path(s, p, [], a) && SymEdge(s, a, c, b) && Path(s, b, [], q)
    decreases n
  {
    if r: int :| EpsEdge(s, p, r) && PathN(s, r, [c], q, n - 1) {
      a, b := PathNSymbol(s, r, c, q, n - 1);
      PathEps(s, p, r, [], a);
    } else {
      a := p;
      b :| SymEdge(s, p, [c][0], b) && PathN(s, b, [c][1..], q, n - 1);
      PathRefl(s, p);
      assert [c][1..] == [];
    }
  }

  lemma PathOneSymbol(s: seq<State>, a: int, c: Sym, b: int, q: int)
    requires SymEdge(s, a, c, b) && Path(s, b, [], q)
    ensures Path(s, a, [c], q)
  {
    var n: nat :| PathN(s, b, [], q, n);
    assert [c][0] == c && [c][1..] == [];
    assert PathN(s, a, [c], q, n + 1);
  }

  lemma ReachStep(nfa: seq<State>, start: nat, w: Word, c: Sym)
    requires ValidNfa(nfa) && start < |nfa|
    ensures Reach(nfa, start, w + [c]) == StepSet(nfa, Reach(nfa, start, w), c)
  {
    var before := Reach(nfa, start, w);
    forall q: nat | q in Reach(nfa, start, w + [c])
      ensures q in StepSet(nfa, before, c)
    {
      var n: nat :| PathN(nfa, start, w + [c], q, n);
      var mid, k := PathNSplit(nfa, start, w, [c], q, n);
      var a, b := PathNSymbol(nfa, mid, c, q, n - k);
      assert Path(nfa, start, w, mid);
      PathConcat(nfa, start, w, mid, [], a);
      assert w + [] == w;
      assert a in before && b in MoveSet(nfa, before, c);
    }
    forall q: nat | q in StepSet(nfa, before, c)
      ensures q in Reach(nfa, start, w + [c])
    {
      var b: nat :| b in MoveSet(nfa, before, c) && Path(nfa, b, [], q);
      var a: nat :| a in before && SymEdge(nfa, a, c, b);
      PathOneSymbol(nfa, a, c, b, q);
      PathConcat(nfa, start, w, a, [c], q);
    }
  }

  // ---- the DFA side ----------------------------------------------------------------------------

  function Next(dfa: seq<State>, d: int, c: Sym): int {
    if 0 <= d < |dfa| then Target(dfa[d].trans, c) else DANGLING
  }

  /** The state of the DFA after `w`, from its start state 1. */
  function After(dfa: seq<State>, w: Word): int {
    if w == [] then 1 else Next(dfa, After(dfa, w[..|w| - 1]), w[|w| - 1])
  }

  lemma AfterSnoc(dfa: seq<State>, w: Word, c: Sym)
    ensures After(dfa, w + [c]) == Next(dfa, After(dfa, w), c)
  {
    assert (w + [c])[..|w|] == w;
  }

  ghost predicate DfaAccepts(dfa: seq<State>, w: Word) {
    0 <= After(dfa, w) < |dfa| && dfa[After(dfa, w)].kind == AcceptKind
  }

  /** `d` is the DFA state whose subset is the step of `from` by `c`; the dead state stands for none. */
  ghost predicate IsStep(nfa: seq<State>, dfa: seq<State>, from: set<nat>, c: Sym, d: int) {
    && 0 <= d < |dfa|
    && (StepSet(nfa, from, c) == {} <==> d == 0)
    && (d != 0 ==> SetOf(dfa[d].subset) == StepSet(nfa, from, c))
  }

  ghost predicate RowOk(nfa: seq<State>, dfa: seq<State>, k: nat)
    requires k < |dfa|
  {
    && Partition(dfa[k].trans)
    && forall c: Sym, m :: 0 <= m < |dfa[k].trans| && Fires(dfa[k].trans[m], c) ==>
         IsStep(nfa, dfa, SetOf(dfa[k].subset), c, dfa[k].trans[m].dst)
  }

  /** State 0 is dead, state 1 is the start state and keeps the kind START whatever its subset holds,
      every later state is accepting exactly when its subset has an accepting state. */
  ghost predicate HeadsOk(nfa: seq<State>, start: nat, dfa: seq<State>) {
    && |dfa| >= 2
    && dfa[0].kind == DeadKind && dfa[0].subset == []
    && dfa[1].kind == StartKind && SetOf(dfa[1].subset) == Closure(nfa, {start})
    && (forall k :: 1 <= k < |dfa| ==> dfa[k].subset != [])
    && (forall k :: 0 <= k < |dfa| ==> Ascending(dfa[k].subset) && Below(dfa[k].subset, |nfa|))
    && (forall a, b :: 0 <= a < b < |dfa| ==> dfa[a].subset != dfa[b].subset)
    && (forall k :: 2 <= k < |dfa| ==>
          dfa[k].kind == if HasAccept(nfa, SetOf(dfa[k].subset)) then AcceptKind else NoKind)
  }

  ghost predicate DfaOf(nfa: seq<State>, start: nat, dfa: seq<State>) {
    HeadsOk(nfa, start, dfa) && forall k :: 0 <= k < |dfa| ==> RowOk(nfa, dfa, k)
  }

  lemma NextIsStep(nfa: seq<State>, dfa: seq<State>, d: nat, c: Sym)
    requires d < |dfa| && RowOk(nfa, dfa, d)
    ensures IsStep(nfa, dfa, SetOf(dfa[d].subset), c, Next(dfa, d, c))
  {
    var t := dfa[d].trans;
    var k := PartitionFrom(t, c, 0);
    PartitionDisjoint(t);
    TargetUnique(t, c, k);
  }

  /** The DFA state after a word carries exactly the states the NFA can be in after that word. */
  lemma {:induction false} AfterIsReach(nfa: seq<State>, start: nat, dfa: seq<State>, w: Word)
    requires ValidNfa(nfa) && start < |nfa| && DfaOf(nfa, start, dfa)
    ensures 0 <= After(dfa, w) < |dfa|
    ensures SetOf(dfa[After(dfa, w)].subset) == Reach(nfa, start, w)
    ensures After(dfa, w) == 0 <==> Reach(nfa, start, w) == {}
    decreases |w|
  {
    if w == [] {
      assert Reach(nfa, start, []) == Closure(nfa, {start});
      ClosureContains(nfa, {start});
    } else {
      var u, c := w[..|w| - 1], w[|w| - 1];
      assert w == u + [c];
      AfterIsReach(nfa, start, dfa, u);
      NextIsStep(nfa, dfa, After(dfa, u), c);
      ReachStep(nfa, start, u, c);
    }
  }

  lemma SameSubset(nfa: seq<State>, start: nat, dfa: seq<State>, d: nat)
    requires HeadsOk(nfa, start, dfa) && d < |dfa| && SetOf(dfa[d].subset) == SetOf(dfa[1].subset)
    ensures d == 1
  {
    AscendingUnique(dfa[d].subset, dfa[1].subset);
  }

  /** One word: the two automata agree unless the word leads back to the start state's subset and that
      subset has an accepting state. */
  lemma AgreeOnWord(nfa: seq<State>, start: nat, dfa: seq<State>, w: Word)
    requires ValidNfa(nfa) && start < |nfa| && DfaOf(nfa, start, dfa) && w != []
    ensures (Accepts(nfa, start, w) <==> DfaAccepts(dfa, w))
       <==> !(HasAccept(nfa, Closure(nfa, {start})) && Reach(nfa, start, w) == Closure(nfa, {start}))
  {
    AfterIsReach(nfa, start, dfa, w);
    var d := After(dfa, w);
    if Reach(nfa, start, w) == Closure(nfa, {start}) {
      SameSubset(nfa, start, dfa, d);
    }
  }

  /** The subset construction keeps the language of nonempty words exactly when the start state's
      closure has no accepting state or no nonempty word leads back to that closure. */
  lemma LanguageKeptIff(nfa: seq<State>, start: nat, dfa: seq<State>)
    requires ValidNfa(nfa) && start < |nfa| && DfaOf(nfa, start, dfa)
    ensures (forall w: Word :: w != [] ==> (Accepts(nfa, start, w) <==> DfaAccepts(dfa, w)))
       <==> (HasAccept(nfa, Closure(nfa, {start})) ==> forall w: Word :: w != [] ==> Reach(nfa, start, w) != Closure(nfa, {start}))
  {
    forall w: Word | w != []
      ensures (Accepts(nfa, start, w) <==> DfaAccepts(dfa, w))
         <==> !(HasAccept(nfa, Closure(nfa, {start})) && Reach(nfa, start, w) == Closure(nfa, {start}))
    {
      AgreeOnWord(nfa, start, dfa, w);
    }
  }

  ghost predicate NoEdgeInto(nfa: seq<State>, q: int) {
    forall p :: 0 <= p < |nfa| ==>
      && q !in nfa[p].etrans
      && forall k :: 0 <= k < |nfa[p].trans| ==> nfa[p].trans[k].dst != q
  }

  lemma {:induction false} NoPathInto(nfa: seq<State>, p: int, w: Word, q: int, n: nat)
    requires NoEdgeInto(nfa, q) && PathN(nfa, p, w, q, n)
    ensures p == q && w == []
    decreases n
  {
    if n > 0 {
      if r: int :| EpsEdge(nfa, p, r) && PathN(nfa, r, w, q, n - 1) {
        NoPathInto(nfa, r, w, q, n - 1);
      } else {
        var r: int :| SymEdge(nfa, p, w[0], r) && PathN(nfa, r, w[1..], q, n - 1);
        NoPathInto(nfa, r, w[1..], q, n - 1);
      }
    }
  }

  /** A start state no transition leads to: the language of nonempty words is kept. */
  lemma LanguageKept(nfa: seq<State>, start: nat, dfa: seq<State>, w: Word)
    requires ValidNfa(nfa) && start < |nfa| && DfaOf(nfa, start, dfa) && w != [] && NoEdgeInto(nfa, start)
    ensures DfaAccepts(dfa, w) <==> Accepts(nfa, start, w)
    ensures After(dfa, w) != 1
  {
    AgreeOnWord(nfa, start, dfa, w);
    AfterIsReach(nfa, start, dfa, w);
    ClosureContains(nfa, {start});
    assert start in Closure(nfa, {start});
    if start in Reach(nfa, start, w) {
      var n: nat :| PathN(nfa, start, w, start, n);
      NoPathInto(nfa, start, w, start, n);
    }
  }

  /** The automaton built by hand in the unit tests: 0 loops on the digit 0 and has an empty transition
      to the accepting state 1. */
  function LoopToStart(): seq<State> {
    [ State([Transition(48, 48, 0), Transition(49, 49, 2)], [1], [], StartKind, 0),
      State([], [], [], AcceptKind, 0),
      State([Transition(49, 49, 1)], [], [], NoKind, 0) ]
  }

  lemma LoopToStartClosure()
    ensures Closure(LoopToStart(), {0}) == {0, 1}
  {
    var nfa := LoopToStart();
    assert nfa[0].etrans == [1] && nfa[1].etrans == [];
    ClosureLeast(nfa, {0}, {0, 1});
    ClosureContains(nfa, {0});
    assert EpsEdge(nfa, 0, 1);
    ClosureClosed(nfa, {0}, 0, 1);
  }

  lemma LoopToStartMove()
    ensures MoveSet(LoopToStart(), {0, 1}, 48) == {0}
  {
    var nfa := LoopToStart();
    assert Fires(nfa[0].trans[0], 48) && SymEdge(nfa, 0, 48, 0);
    forall p: nat, q: nat | p in {0, 1} && SymEdge(nfa, p, 48, q)
      ensures q == 0
    {
      var k :| 0 <= k < |nfa[p].trans| && Fires(nfa[p].trans[k], 48) && nfa[p].trans[k].dst == q;
      assert nfa[1].trans == [];
      assert p == 0 && k == 0;
    }
  }

  lemma LoopToStartFacts()
    ensures ValidNfa(LoopToStart()) && |LoopToStart()| == 3
    ensures HasAccept(LoopToStart(), Closure(LoopToStart(), {0}))
    ensures MoveSet(LoopToStart(), Closure(LoopToStart(), {0}), 48) == {0}
  {
    LoopToStartClosure();
    LoopToStartMove();
    assert LoopToStart()[1].kind == AcceptKind;
  }

  lemma ReenteredLost(nfa: seq<State>, start: nat, dfa: seq<State>, c: Sym)
    requires ValidNfa(nfa) && start < |nfa| && DfaOf(nfa, start, dfa)
    requires HasAccept(nfa, Closure(nfa, {start})) && MoveSet(nfa, Closure(nfa, {start}), c) == {start}
    ensures Accepts(nfa, start, [c]) && !DfaAccepts(dfa, [c])
  {
    var w: Word := [c];
    assert Reach(nfa, start, []) == Closure(nfa, {start});
    ReachStep(nfa, start, [], c);
    assert [] + w == w;
    AgreeOnWord(nfa, start, dfa, w);
  }

  /** On it the word "0" leads back to the start state's closure: the NFA accepts, no DFA made by the
      construction does. */
  lemma LoopToStartLost(dfa: seq<State>)
    requires DfaOf(LoopToStart(), 0, dfa)
    ensures Accepts(LoopToStart(), 0, [48]) && !DfaAccepts(dfa, [48])
  {
    LoopToStartFacts();
    ReenteredLost(LoopToStart(), 0, dfa, 48);
  }
}
