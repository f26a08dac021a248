/** The array of states of an automaton (rex/rexdb.c). A state's number is its index. */
module Database {
  import opened Automata
  import opened Transitions

  datatype Substate = Substate(uid: nat, kind: StateKind, userdata: nat)

  class RexDb {
    var states: seq<State>
    var substates: seq<Substate>

    /** A DFA starts out with its dead state 0. */
    constructor (isDfa: bool)
      ensures states == (if isDfa then [NewState(DeadKind)] else []) && substates == []
    {
      states := if isDfa then [NewState(DeadKind)] else [];
      substates := [];
    }

    method CreateState(kind: StateKind) returns (uid: nat)
      modifies this`states
      ensures uid == |old(states)| && states == old(states) + [NewState(kind)]
      ensures var s := states[uid]; s.trans == [] && s.etrans == [] && s.subset == [] && s.kind == kind && s.userdata == 0
    {
      uid := |states|;
      states := states + [NewState(kind)];
    }

    /** Where the range went, or -1 if there is no such state. */
    method AddTransition(uid: nat, c1: Sym, c2: Sym, dst: int) returns (at: int)
      modifies this`states
      ensures at == -1 <==> uid >= |old(states)|
      ensures at == -1 ==> states == old(states)
      ensures at != -1 ==> 0 <= at <= |old(states)[uid].trans|
      ensures at != -1 ==>
        Inserted(old(states)[uid].trans, c1, c2, dst)
        == old(states)[uid].trans[..at] + [Span(c1, c2, dst)] + old(states)[uid].trans[at..]
      ensures at != -1 ==> states == old(states)[uid := old(states)[uid].(trans := Inserted(old(states)[uid].trans, c1, c2, dst))]
      ensures at != -1 && Sorted(old(states)[uid].trans)
              && (forall k :: 0 <= k < |old(states)[uid].trans| ==> old(states)[uid].trans[k].lowin <= c1)
              ==> at == |old(states)[uid].trans|
      ensures at != -1 && Sorted(old(states)[uid].trans) ==>
        (Sorted(states[uid].trans) <==> forall k :: 0 <= k < |old(states)[uid].trans| ==> !(c2 < old(states)[uid].trans[k].lowin <= c1))
    {
      if uid >= |states| {
        return -1;
      }
      var t;
      t, at := Add(states[uid].trans, c1, c2, dst);
      states := states[uid := states[uid].(trans := t)];
    }

    method AddTransitionE(uid: nat, dst: int)
      requires uid < |states|
      modifies this`states
      ensures states == old(states)[uid := old(states)[uid].(etrans := old(states)[uid].etrans + [dst])]
    {
      states := states[uid := states[uid].(etrans := states[uid].etrans + [dst])];
    }
  }
}
