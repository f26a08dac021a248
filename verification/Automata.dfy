/** Symbols, states and paths shared by the NFA and the DFA side of the regular expression library.
    A transition whose destination is DANGLING leads to the virtual node -1, which has no edges: the
    words a half-built automaton can emit at its open ends are the words of the paths to that node. */
module Automata {

  const CHAR_MAX: int := 0xFFFF_FFFF
  const DANGLING: int := -1

  type Sym = c: int | 0 <= c <= 0xFFFF_FFFF
  type Word = seq<Sym>

  datatype StateKind = NoKind | StartKind | AcceptKind | DeadKind

  datatype Transition = Transition(lowin: Sym, highin: Sym, dst: int)

  /** `etrans` holds the destinations of the empty transitions. */
  datatype State = State(trans: seq<Transition>, etrans: seq<int>, subset: seq<nat>, kind: StateKind, userdata: nat)

  function NewState(kind: StateKind): State {
    State([], [], [], kind, 0)
  }

  predicate Fires(t: Transition, c: Sym) {
    t.lowin <= c <= t.highin
  }

  /** Some transition of the array leads from symbol `c` to `dst`. */
  ghost predicate Leads(trans: seq<Transition>, c: Sym, dst: int) {
    exists k :: 0 <= k < |trans| && Fires(trans[k], c) && trans[k].dst == dst
  }

  ghost predicate EpsEdge(s: seq<State>, p: int, q: int) {
    0 <= p < |s| && q in s[p].etrans
  }

  ghost predicate SymEdge(s: seq<State>, p: int, c: Sym, q: int) {
    0 <= p < |s| && Leads(s[p].trans, c, q)
  }

  /** A path of exactly `n` edges from `p` to `q` that spells `w`. */
  ghost predicate PathN(s: seq<State>, p: int, w: Word, q: int, n: nat)
    decreases n
  {
    if n == 0 then p == q && w == []
    else
      || (exists r: int :: EpsEdge(s, p, r) && PathN(s, r, w, q, n - 1))
      || (w != [] && exists r: int :: SymEdge(s, p, w[0], r) && PathN(s, r, w[1..], q, n - 1))
  }

  ghost predicate Path(s: seq<State>, p: int, w: Word, q: int) {
    exists n: nat :: PathN(s, p, w, q, n)
  }

  lemma {:induction false} PathNConcat(s: seq<State>, p: int, u: Word, q: int, v: Word, r: int, m: nat, n: nat)
    requires PathN(s, p, u, q, m) && PathN(s, q, v, r, n)
    ensures PathN(s, p, u + v, r, m + n)
    decreases m
  {
    if m == 0 {
      assert u + v == v;
    } else if e: int :| EpsEdge(s, p, e) && PathN(s, e, u, q, m - 1) {
      PathNConcat(s, e, u, q, v, r, m - 1, n);
    } else {
      var e: int :| SymEdge(s, p, u[0], e) && PathN(s, e, u[1..], q, m - 1);
      PathNConcat(s, e, u[1..], q, v, r, m - 1, n);
      assert (u + v)[0] == u[0] && (u + v)[1..] == u[1..] + v;
      assert PathN(s, e, (u + v)[1..], r, m + n - 1);
    }
  }

  lemma PathConcat(s: seq<State>, p: int, u: Word, q: int, v: Word, r: int)
    requires Path(s, p, u, q) && Path(s, q, v, r)
    ensures Path(s, p, u + v, r)
  {
    var m: nat :| PathN(s, p, u, q, m);
    var n: nat :| PathN(s, q, v, r, n);
    PathNConcat(s, p, u, q, v, r, m, n);
  }

  lemma PathEps(s: seq<State>, p: int, q: int, w: Word, r: int)
    requires EpsEdge(s, p, q) && Path(s, q, w, r)
    ensures Path(s, p, w, r)
  {
    var n: nat :| PathN(s, q, w, r, n);
    assert PathN(s, p, w, r, n + 1);
  }

  lemma PathRefl(s: seq<State>, p: int)
    ensures Path(s, p, [], p)
  {
    assert PathN(s, p, [], p, 0);
  }
}
