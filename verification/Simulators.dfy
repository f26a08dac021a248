/** Stepping an automaton over the input (rex/rexnfasimulator.c, rex/rexdfasimulator.c). */
module Simulators {
  import opened Automata
  import opened Transitions
  import opened Subsets
  import opened Reachability
  import opened Symbols
  import opened DfaWords

  /** An accepting state was met after `count` symbols, `inputsize` bytes. */
  datatype AcceptRecord = AcceptRecord(state: nat, inputsize: nat, count: nat)

  ghost predicate AllOff(onmap: seq<bool>, n: nat) {
    |onmap| == n && forall u :: 0 <= u < n ==> !onmap[u]
  }

  /** The map is on exactly for the members of the list, each of which is there once. */
  ghost predicate OnExactly(onmap: seq<bool>, list: seq<nat>, n: nat) {
    |onmap| == n && Below(list, n) && Distinct(list) && forall u: nat :: u < n ==> (onmap[u] <==> u in list)
  }

  ghost function OffStates(onmap: seq<bool>): set<nat> {
    set u: nat | u < |onmap| && !onmap[u]
  }

  ghost predicate SuccessorsIn(nfa: seq<State>, u: nat, list: seq<nat>)
    requires u < |nfa|
  {
    forall k :: 0 <= k < |nfa[u].etrans| ==> nfa[u].etrans[k] >= 0 && nfa[u].etrans[k] in list
  }

  ghost predicate EdgesIn(etrans: seq<int>, list: seq<nat>, n: nat)
    requires n <= |etrans|
  {
    forall k :: 0 <= k < n ==> etrans[k] >= 0 && etrans[k] in list
  }

  lemma EdgesMore(etrans: seq<int>, list: seq<nat>, n: nat)
    requires n < |etrans| && EdgesIn(etrans, list, n) && etrans[n] >= 0 && etrans[n] in list
    ensures EdgesIn(etrans, list, n + 1)
  {
  }

  lemma EdgesKept(etrans: seq<int>, before: seq<nat>, after: seq<nat>, n: nat)
    requires n <= |etrans| && EdgesIn(etrans, before, n) && forall u :: u in before ==> u in after
    ensures EdgesIn(etrans, after, n)
  {
  }

  /** What a depth-first visit of `uid` adds to the list: states reached through empty transitions, with
      all their successors. */
  ghost predicate Visited(nfa: seq<State>, uid: nat, before: seq<nat>, list: seq<nat>) {
    && before <= list && uid in list && Below(list, |nfa|)
    && forall k :: |before| <= k < |list| ==> Path(nfa, uid, [], list[k]) && SuccessorsIn(nfa, list[k], list)
  }

  /** The records name exactly the prefixes of the input, up to `n` symbols, that are in the language. */
  ghost predicate Recorded(lang: iset<Word>, b: seq<byte>, start: nat, accepts: seq<AcceptRecord>, n: nat) {
    var w := Tail(Utf8, b, start);
    && n <= |w|
    && (forall i :: 0 <= i < |accepts| ==> RecordOk(lang, b, start, accepts[i], n))
    && (forall k :: 1 <= k <= n && w[..k] in lang ==> exists i :: 0 <= i < |accepts| && accepts[i].count == k)
    && forall i, j :: 0 <= i < j < |accepts| ==> accepts[i].count <= accepts[j].count
  }

  ghost predicate RecordOk(lang: iset<Word>, b: seq<byte>, start: nat, a: AcceptRecord, n: nat) {
    var w := Tail(Utf8, b, start);
    1 <= a.count <= n <= |w| && w[..a.count] in lang && a.inputsize == Width(Utf8, b, start, a.count)
  }

  ghost function AcceptingIn(nfa: seq<State>, states: set<nat>): set<nat> {
    set u | u in states && u < |nfa| && nfa[u].kind == AcceptKind
  }

  /** The records from `from` on name these states, each of them once. */
  ghost predicate Names(accepts: seq<AcceptRecord>, from: nat, states: set<nat>) {
    && from <= |accepts|
    && (forall k :: from <= k < |accepts| ==> accepts[k].state in states)
    && (forall u :: u in states ==> exists k :: from <= k < |accepts| && accepts[k].state == u)
    && forall j, k :: from <= j < k < |accepts| ==> accepts[j].state != accepts[k].state
  }

  lemma NamesSnoc(accepts: seq<AcceptRecord>, from: nat, states: set<nat>, a: AcceptRecord)
    requires Names(accepts, from, states) && a.state !in states
    ensures Names(accepts + [a], from, states + {a.state})
  {
    var after := accepts + [a];
    forall u | u in states + {a.state}
      ensures exists k :: from <= k < |after| && after[k].state == u
    {
      if u in states {
        var k :| from <= k < |accepts| && accepts[k].state == u;
        assert after[k].state == u;
      } else {
        assert after[|accepts|].state == u;
      }
    }
  }

  ghost predicate HasRecord(accepts: seq<AcceptRecord>, count: nat, state: nat) {
    exists i :: 0 <= i < |accepts| && accepts[i].count == count && accepts[i].state == state
  }

  /** The records name exactly the accepting states that the prefixes of `w` lead to, up to `n` symbols. */
  ghost predicate StatesRecorded(nfa: seq<State>, start: nat, w: Word, accepts: seq<AcceptRecord>, n: nat) {
    n <= |w| &&
    forall k: nat, u: nat :: HasRecord(accepts, k, u) <==> 1 <= k <= n && u in AcceptingIn(nfa, Reach(nfa, start, w[..k]))
  }

  lemma StatesRecordedStep(nfa: seq<State>, start: nat, w: Word, before: seq<AcceptRecord>, accepts: seq<AcceptRecord>, n: nat)
    requires StatesRecorded(nfa, start, w, before, n) && n < |w| && before <= accepts
    requires forall k :: |before| <= k < |accepts| ==> accepts[k].count == n + 1
    requires Names(accepts, |before|, AcceptingIn(nfa, Reach(nfa, start, w[..n + 1])))
    ensures StatesRecorded(nfa, start, w, accepts, n + 1)
  {
    hide Reach, AcceptingIn;
    forall k: nat, u: nat
      ensures HasRecord(accepts, k, u) <==> 1 <= k <= n + 1 && u in AcceptingIn(nfa, Reach(nfa, start, w[..k]))
    {
      RecordSplit(before, accepts, k, u);
    }
  }

  lemma RecordSplit(before: seq<AcceptRecord>, accepts: seq<AcceptRecord>, count: nat, state: nat)
    requires before <= accepts
    ensures HasRecord(accepts, count, state) <==>
      HasRecord(before, count, state) || exists k :: |before| <= k < |accepts| && accepts[k].count == count && accepts[k].state == state
  {
    if i :| 0 <= i < |before| && before[i].count == count && before[i].state == state {
      assert accepts[i] == before[i];
    }
  }

  lemma StatesRecordedAll(nfa: seq<State>, start: nat, w: Word, accepts: seq<AcceptRecord>, n: nat)
    requires ValidNfa(nfa) && start < |nfa| && StatesRecorded(nfa, start, w, accepts, n) && n < |w|
    requires Reach(nfa, start, w[..n + 1]) == {}
    ensures StatesRecorded(nfa, start, w, accepts, |w|)
  {
    hide HasRecord;
    forall k: nat | n < k <= |w|
      ensures AcceptingIn(nfa, Reach(nfa, start, w[..k])) == {}
    {
      assert w[..k][..n + 1] == w[..n + 1];
      ReachEmpty(nfa, start, w[..k], n + 1);
    }
  }

  /** The states a DFA's records name: the one state each accepted prefix leads to. */
  ghost predicate EndsRecorded(dfa: seq<State>, w: Word, accepts: seq<AcceptRecord>) {
    forall a :: a in accepts ==> a.count <= |w| && a.state == After(dfa, w[..a.count])
  }

  /** One more symbol: new records, all for this prefix, exactly if it is in the language. */
  lemma RecordedStep(lang: iset<Word>, b: seq<byte>, start: nat, old_: seq<AcceptRecord>, accepts: seq<AcceptRecord>, n: nat)
    requires Recorded(lang, b, start, old_, n) && n < |Tail(Utf8, b, start)| && old_ <= accepts
    requires forall k :: |old_| <= k < |accepts| ==> accepts[k].count == n + 1 && accepts[k].inputsize == Width(Utf8, b, start, n + 1)
    requires |old_| < |accepts| <==> Tail(Utf8, b, start)[..n + 1] in lang
    ensures Recorded(lang, b, start, accepts, n + 1)
  {
    hide Tail, Width;
    var w := Tail(Utf8, b, start);
    assert accepts[..|old_|] == old_;
    forall i | 0 <= i < |accepts|
      ensures RecordOk(lang, b, start, accepts[i], n + 1)
    {
      if i < |old_| {
        assert accepts[i] == old_[i];
        assert RecordOk(lang, b, start, old_[i], n);
      }
    }
    forall k | 1 <= k <= n + 1 && w[..k] in lang
      ensures exists i :: 0 <= i < |accepts| && accepts[i].count == k
    {
      if k <= n {
        var i :| 0 <= i < |old_| && old_[i].count == k;
        assert accepts[i].count == k;
      } else {
        assert accepts[|old_|].count == k;
      }
    }
    forall i, j | 0 <= i < j < |accepts|
      ensures accepts[i].count <= accepts[j].count
    {
      if i < |old_| {
        assert RecordOk(lang, b, start, old_[i], n);
      }
    }
  }

  /** No match behind the first `n` symbols. */
  lemma RecordedAll(lang: iset<Word>, b: seq<byte>, start: nat, accepts: seq<AcceptRecord>, n: nat)
    requires Recorded(lang, b, start, accepts, n)
    requires forall k :: n < k <= |Tail(Utf8, b, start)| ==> Tail(Utf8, b, start)[..k] !in lang
    ensures Recorded(lang, b, start, accepts, |Tail(Utf8, b, start)|)
  {
    hide Tail, Width;
    forall i | 0 <= i < |accepts|
      ensures RecordOk(lang, b, start, accepts[i], |Tail(Utf8, b, start)|)
    {
      assert RecordOk(lang, b, start, accepts[i], n);
    }
  }

  /** The last record is the longest match. */
  lemma LastRecord(lang: iset<Word>, b: seq<byte>, start: nat, accepts: seq<AcceptRecord>)
    requires Recorded(lang, b, start, accepts, |Tail(Utf8, b, start)|)
    ensures MatchBytes(lang, Utf8, b, start) == if accepts == [] then 0 else accepts[|accepts| - 1].inputsize
  {
    hide Tail;
    var w := Tail(Utf8, b, start);
    if accepts == [] {
      LongestUnique(lang, w, 0);
      assert Width(Utf8, b, start, 0) == 0;
    } else {
      hide Width;
      var last := accepts[|accepts| - 1];
      assert RecordOk(lang, b, start, last, |w|);
      forall k | last.count < k <= |w|
        ensures w[..k] !in lang
      {
        assert !exists i :: 0 <= i < |accepts| && accepts[i].count == k;
      }
      LongestUnique(lang, w, last.count);
    }
  }

  lemma {:induction false} ReachEmpty(nfa: seq<State>, start: nat, w: Word, n: nat)
    requires ValidNfa(nfa) && start < |nfa| && n <= |w| && Reach(nfa, start, w[..n]) == {}
    ensures Reach(nfa, start, w) == {}
    decreases |w| - n
  {
    if n == |w| {
      assert w[..n] == w;
    } else {
      var u, c := w[..|w| - 1], w[|w| - 1];
      assert u[..n] == w[..n] && w == u + [c];
      ReachEmpty(nfa, start, u, n);
      ReachStep(nfa, start, u, c);
      NothingFromNothing(nfa, c);
    }
  }

  lemma AcceptingPlus(nfa: seq<State>, s: seq<nat>, u: nat)
    requires u < |nfa|
    ensures AcceptingIn(nfa, SetOf(s + [u])) == AcceptingIn(nfa, SetOf(s)) + if nfa[u].kind == AcceptKind then {u} else {}
  {
  }

  lemma NoneNamed(accepts: seq<AcceptRecord>)
    requires Names(accepts, 0, {})
    ensures accepts == []
  {
    if accepts != [] { SomeNamed(accepts, 0, {}); }
  }

  lemma SomeNamed(accepts: seq<AcceptRecord>, from: nat, states: set<nat>)
    requires Names(accepts, from, states) && from < |accepts|
    ensures states != {}
  {
    assert accepts[from].state in states;
  }

  lemma AcceptNamed(nfa: seq<State>, accepts: seq<AcceptRecord>, from: nat, states: set<nat>)
    requires Names(accepts, from, AcceptingIn(nfa, states))
    ensures from < |accepts| <==> HasAccept(nfa, states)
  {
    if from < |accepts| {
      assert accepts[from].state in AcceptingIn(nfa, states);
    }
    if HasAccept(nfa, states) {
      var u :| u in states && u < |nfa| && nfa[u].kind == AcceptKind;
      assert u in AcceptingIn(nfa, states);
    }
  }

  class RexNfaSimulator {
    var accepts: seq<AcceptRecord>
    var newstates: seq<nat>
    var oldstates: seq<nat>
    var onmap: seq<bool>
    var inputsize: nat
    var count: nat

    constructor () {
      accepts, newstates, oldstates, onmap, inputsize, count := [], [], [], [], 0, 0;
    }

    ghost predicate Idle(nfa: seq<State>)
      reads this
    {
      newstates == [] && AllOff(onmap, |nfa|) && Below(oldstates, |nfa|)
    }

    /** Adds `uid` and whatever empty transitions lead to from it through states that are not on yet. */
    method AddState(nfa: seq<State>, uid: nat)
      requires ValidNfa(nfa) && uid < |nfa| && OnExactly(onmap, newstates, |nfa|) && !onmap[uid]
      modifies this`newstates, this`onmap
      ensures OnExactly(onmap, newstates, |nfa|)
      ensures Visited(nfa, uid, old(newstates), newstates)
      ensures OffStates(onmap) < OffStates(old(onmap))
      decreases OffStates(onmap)
    {
      ghost var before, off := newstates, OffStates(onmap);
      assert uid in off;
      newstates := newstates + [uid];
      onmap := onmap[uid := true];
      PathRefl(nfa, uid);
      var s := nfa[uid];
      assert uid !in OffStates(onmap);
      for i := 0 to |s.etrans|
        invariant OnExactly(onmap, newstates, |nfa|) && OffStates(onmap) < off
        invariant before + [uid] <= newstates
        invariant forall k :: |before| < k < |newstates| ==> Path(nfa, uid, [], newstates[k]) && SuccessorsIn(nfa, newstates[k], newstates)
        invariant EdgesIn(s.etrans, newstates, i)
      {
        hide EdgesIn;
        var dst := s.etrans[i];
        assert EpsEdge(nfa, uid, dst);
        if !onmap[dst] {
          ghost var list := newstates;
          AddState(nfa, dst);
          VisitedThrough(nfa, uid, dst, before + [uid], list, newstates);
          EdgesKept(s.etrans, list, newstates, i);
        }
        EdgesMore(s.etrans, newstates, i);
      }
    }

    /** The new states become the old ones, in reverse order; the map is cleared on the way. Accepting
        states are recorded unless the input has not started. */
    method Transfer(nfa: seq<State>, record: bool)
      requires OnExactly(onmap, newstates, |nfa|) && oldstates == []
      modifies this`newstates, this`oldstates, this`onmap, this`accepts
      ensures Idle(nfa) && SetOf(oldstates) == SetOf(old(newstates))
      ensures old(accepts) <= accepts
      ensures forall k :: |old(accepts)| <= k < |accepts| ==> accepts[k].inputsize == inputsize && accepts[k].count == count
      ensures Names(accepts, |old(accepts)|, if record then AcceptingIn(nfa, SetOf(oldstates)) else {})
    {
      ghost var list := newstates;
      while |newstates| > 0
        invariant newstates <= list && OnExactly(onmap, newstates, |nfa|) && Below(oldstates, |nfa|)
        invariant forall u :: u in oldstates <==> u in list[|newstates|..]
        invariant old(accepts) <= accepts
        invariant forall k :: |old(accepts)| <= k < |accepts| ==> accepts[k].inputsize == inputsize && accepts[k].count == count
        invariant Names(accepts, |old(accepts)|, if record then AcceptingIn(nfa, SetOf(oldstates)) else {})
        decreases |newstates|
      {
        var suid := newstates[|newstates| - 1];
        assert list[|newstates| - 1..] == [suid] + list[|newstates|..];
        assert newstates == newstates[..|newstates| - 1] + [suid];
        newstates := newstates[..|newstates| - 1];
        assert suid !in oldstates;
        ghost var olds, named := oldstates, accepts;
        oldstates := oldstates + [suid];
        AcceptingPlus(nfa, olds, suid);
        onmap := onmap[suid := false];
        if record && nfa[suid].kind == AcceptKind {
          accepts := accepts + [AcceptRecord(suid, inputsize, count)];
          NamesSnoc(named, |old(accepts)|, AcceptingIn(nfa, SetOf(olds)), AcceptRecord(suid, inputsize, count));
        }
      }
      assert list[0..] == list;
    }

    method Start(nfa: seq<State>, uid: nat)
      requires ValidNfa(nfa) && uid < |nfa|
      modifies this
      ensures Idle(nfa) && SetOf(oldstates) == Closure(nfa, {uid})
      ensures accepts == [] && count == 0 && inputsize == 0
    {
      count, inputsize := 0, 0;
      accepts, oldstates, newstates := [], [], [];
      onmap := seq(|nfa|, _ => false);
      AddState(nfa, uid);
      VisitedClosure(nfa, uid, newstates);
      Transfer(nfa, false);
      NoneNamed(accepts);
    }

    /** Transition `i` of the state `suid`. */
    method Step(nfa: seq<State>, ghost from: set<nat>, suid: nat, i: nat, wc: Sym)
      requires ValidNfa(nfa) && suid in from && suid < |nfa| && i < |nfa[suid].trans|
      requires OnExactly(onmap, newstates, |nfa|) && Stepping(nfa, from, wc, newstates) && MovesIn(nfa, suid, wc, newstates, i)
      modifies this`newstates, this`onmap
      ensures OnExactly(onmap, newstates, |nfa|) && Stepping(nfa, from, wc, newstates) && MovesIn(nfa, suid, wc, newstates, i + 1)
      ensures forall u :: u in old(newstates) ==> u in newstates
    {
      var t := nfa[suid].trans[i];
      if t.lowin <= wc <= t.highin {
        if !onmap[t.dst] {
          AddState(nfa, t.dst);
          SteppedTo(nfa, from, suid, wc, t.dst, old(newstates), newstates);
        }
      }
    }

    /** One symbol: from the states reached so far to those reached through it. */
    method Next(nfa: seq<State>, wc: Sym, wcsize: nat) returns (n: nat)
      requires ValidNfa(nfa) && Idle(nfa)
      modifies this
      ensures Idle(nfa) && SetOf(oldstates) == StepSet(nfa, SetOf(old(oldstates)), wc)
      ensures n == 0 <==> SetOf(oldstates) == {}
      ensures old(accepts) <= accepts
      ensures forall k :: |old(accepts)| <= k < |accepts| ==> accepts[k].inputsize == inputsize && accepts[k].count == count
      ensures Names(accepts, |old(accepts)|, AcceptingIn(nfa, SetOf(oldstates)))
      ensures old(oldstates) != [] ==> count == old(count) + 1 && inputsize == old(inputsize) + wcsize
    {
      if |oldstates| == 0 {
        NothingFromNothing(nfa, wc);
        assert SetOf(oldstates) == {};
        return 0;
      }
      count := count + 1;
      inputsize := inputsize + wcsize;
      ghost var from, list := SetOf(oldstates), oldstates;
      while |oldstates| > 0
        invariant oldstates <= list && OnExactly(onmap, newstates, |nfa|)
        invariant Stepping(nfa, from, wc, newstates)
        invariant forall m :: |oldstates| <= m < |list| ==> MovesIn(nfa, list[m], wc, newstates, |nfa[list[m]].trans|)
        invariant accepts == old(accepts) && count == old(count) + 1 && inputsize == old(inputsize) + wcsize
        decreases |oldstates|
      {
        var suid := oldstates[|oldstates| - 1];
        assert suid in list;
        oldstates := oldstates[..|oldstates| - 1];
        ghost var left := |oldstates|;
        var s := nfa[suid];
        for i := 0 to |s.trans|
          invariant left == |oldstates| < |list| && oldstates == list[..|oldstates|] && list[|oldstates|] == suid
          invariant OnExactly(onmap, newstates, |nfa|) && Stepping(nfa, from, wc, newstates)
          invariant forall m :: |oldstates| < m < |list| ==> MovesIn(nfa, list[m], wc, newstates, |nfa[list[m]].trans|)
          invariant MovesIn(nfa, suid, wc, newstates, i)
          invariant accepts == old(accepts) && count == old(count) + 1 && inputsize == old(inputsize) + wcsize
        {
          ghost var before := newstates;
          Step(nfa, from, suid, i, wc);
          KeptMoves(nfa, list, |oldstates| + 1, wc, before, newstates);
        }
      }
      SteppedAll(nfa, from, list, wc, newstates);
      Transfer(nfa, true);
      n := |oldstates|;
      if n > 0 {
        assert oldstates[0] in SetOf(oldstates);
      }
    }

    /** Steps over the UTF-8 input until no state is left: the records then name every prefix of the
        input that the NFA accepts. */
    method Run(nfa: seq<State>, uid: nat, b: seq<byte>, start: nat) returns (n: nat)
      requires ValidNfa(nfa) && uid < |nfa| && start <= |b|
      modifies this
      ensures Recorded(NfaLanguage(nfa, uid), b, start, accepts, |Tail(Utf8, b, start)|) && n == |accepts|
      ensures StatesRecorded(nfa, uid, Tail(Utf8, b, start), accepts, |Tail(Utf8, b, start)|)
    {
      hide Mbtowc, Recorded, StepSet, Closure, Names, StatesRecorded, AcceptingIn;
      Start(nfa, uid);
      ghost var lang, w, k := NfaLanguage(nfa, uid), Tail(Utf8, b, start), 0;
      RunStart(nfa, uid, b, start);
      NoneRecorded(nfa, uid, w);
      var ptr := start;
      while ptr < |b|
        invariant k <= |w| && start <= ptr == start + Width(Utf8, b, start, k) <= |b| && (k < |w| <==> ptr < |b|)
        invariant Idle(nfa) && oldstates != [] && SetOf(oldstates) == Reach(nfa, uid, w[..k])
        invariant Recorded(lang, b, start, accepts, k) && StatesRecorded(nfa, uid, w, accepts, k)
        invariant count == k && inputsize == ptr - start
        decreases |b| - ptr
      {
        WidthTail(Utf8, b, start, k);
        var (wc, inc) := Mbtowc(b, ptr);
        ghost var before := accepts;
        var left := Next(nfa, wc, inc);
        assert w[..k + 1] == w[..k] + [wc];
        ReachStep(nfa, uid, w[..k], wc);
        AcceptNamed(nfa, accepts, |before|, SetOf(oldstates));
        StatesRecordedStep(nfa, uid, w, before, accepts, k);
        if left == 0 {
          assert accepts == before;
          DeadRun(nfa, uid, b, start, accepts, k);
          StatesRecordedAll(nfa, uid, w, accepts, k);
          break;
        }
        StepRun(nfa, uid, b, start, before, accepts, k);
        k := k + 1;
        ptr := ptr + inc;
        WidthTail(Utf8, b, start, k);
      }
      n := |accepts|;
    }
  }

  class RexDfaSimulator {
    var accepts: seq<AcceptRecord>
    /** The current state; a number outside the DFA stands for the null pointer. */
    var next: nat
    var inputsize: nat
    var count: nat

    constructor () {
      accepts, next, inputsize, count := [], 0, 0, 0;
    }

    method Start(uid: nat)
      modifies this
      ensures accepts == [] && next == uid && count == 0 && inputsize == 0
    {
      count, inputsize, next, accepts := 0, 0, uid, [];
    }

    /** One symbol through the linked states; the lookup cannot fail on a complete DFA. */
    method Next(dfa: seq<State>, wc: Sym, wcsize: nat) returns (uid: nat)
      requires DfaWords.Complete(dfa)
      modifies this
      ensures count == old(count) + 1 && inputsize == old(inputsize) + wcsize
      ensures old(next) >= |dfa| || dfa[old(next)].kind == DeadKind ==> uid == 0 && next == old(next) && accepts == old(accepts)
      ensures old(next) < |dfa| && dfa[old(next)].kind != DeadKind ==>
        && uid == next == Reachability.Next(dfa, old(next), wc) && next < |dfa|
        && accepts == old(accepts) + if dfa[next].kind == AcceptKind then [AcceptRecord(next, inputsize, count)] else []
    {
      count := count + 1;
      inputsize := inputsize + wcsize;
      if next >= |dfa| || dfa[next].kind == DeadKind {
        return 0;
      }
      assert RowTotal(dfa, next);
      ghost var k := PartitionFrom(dfa[next].trans, wc, 0);
      PartitionDisjoint(dfa[next].trans);
      NextTotal(dfa, next, wc);
      var t := Find(dfa[next].trans, wc);
      TargetUnique(dfa[next].trans, wc, t);
      next := dfa[next].trans[t].dst;
      if dfa[next].kind == AcceptKind {
        accepts := accepts + [AcceptRecord(next, inputsize, count)];
      }
      uid := next;
    }

    /** From the start state over the UTF-8 input: the size of the last accepted prefix. */
    method Run(dfa: seq<State>, b: seq<byte>, start: nat) returns (ret: nat)
      requires DfaWords.Complete(dfa) && start <= |b|
      modifies this
      ensures Recorded(DfaLanguage(dfa), b, start, accepts, |Tail(Utf8, b, start)|)
      ensures EndsRecorded(dfa, Tail(Utf8, b, start), accepts)
      ensures ret == MatchBytes(DfaLanguage(dfa), Utf8, b, start)
    {
      hide Mbtowc, Recorded, EndsRecorded, DfaWords.Complete, After, Reachability.Next;
      ret := 0;
      Start(1);
      var input := start;
      ghost var lang, w, k := DfaLanguage(dfa), Tail(Utf8, b, start), 0;
      RunStartDfa(dfa, b, start);
      NoEnds(dfa, w);
      while input < |b|
        invariant k <= |w| && start <= input == start + Width(Utf8, b, start, k) <= |b| && (k < |w| <==> input < |b|)
        invariant 0 < next < |dfa| && next == After(dfa, w[..k])
        invariant Recorded(lang, b, start, accepts, k) && EndsRecorded(dfa, w, accepts)
        invariant count == k && inputsize == input - start
        decreases |b| - input
      {
        WidthTail(Utf8, b, start, k);
        var (wc, inc) := Mbtowc(b, input);
        ghost var before := accepts;
        input := input + inc;
        AliveKind(dfa, w[..k]);
        assert w[..k + 1] == w[..k] + [wc];
        AfterSnoc(dfa, w[..k], wc);
        var uid := Next(dfa, wc, inc);
        RecordedStep(lang, b, start, before, accepts, k);
        EndsStep(dfa, w, before, accepts, k);
        k := k + 1;
        WidthTail(Utf8, b, start, k);
        if uid == 0 {
          DeadRunDfa(dfa, b, start, accepts, k);
          break;
        }
      }
      LastRecord(lang, b, start, accepts);
      if |accepts| > 0 {
        ret := accepts[|accepts| - 1].inputsize;
      }
    }
  }

  lemma NoEnds(dfa: seq<State>, w: Word)
    ensures EndsRecorded(dfa, w, [])
  {
  }

  lemma EndsStep(dfa: seq<State>, w: Word, before: seq<AcceptRecord>, accepts: seq<AcceptRecord>, k: nat)
    requires EndsRecorded(dfa, w, before) && k < |w| && before <= accepts
    requires forall i :: |before| <= i < |accepts| ==> accepts[i].count == k + 1 && accepts[i].state == After(dfa, w[..k + 1])
    ensures EndsRecorded(dfa, w, accepts)
  {
    hide After;
    forall a | a in accepts
      ensures a in before || (a.count == k + 1 && a.state == After(dfa, w[..k + 1]))
    {
      var i :| 0 <= i < |accepts| && accepts[i] == a;
      assert i < |before| ==> before[i] == a;
    }
  }

  lemma RunStartDfa(dfa: seq<State>, b: seq<byte>, start: nat)
    requires start <= |b| && DfaWords.Complete(dfa)
    ensures |dfa| > 1 && Recorded(DfaLanguage(dfa), b, start, [], 0) && After(dfa, Tail(Utf8, b, start)[..0]) == 1
    ensures Width(Utf8, b, start, 0) == 0
  {
    hide Tail;
  }

  /** Only state 0 is dead. */
  lemma AliveKind(dfa: seq<State>, u: Word)
    requires DfaWords.Complete(dfa) && 0 < After(dfa, u) < |dfa|
    ensures dfa[After(dfa, u)].kind != DeadKind
  {
  }

  lemma DeadRunDfa(dfa: seq<State>, b: seq<byte>, start: nat, accepts: seq<AcceptRecord>, k: nat)
    requires DfaWords.Complete(dfa) && k <= |Tail(Utf8, b, start)|
    requires Recorded(DfaLanguage(dfa), b, start, accepts, k) && After(dfa, Tail(Utf8, b, start)[..k]) == 0
    ensures Recorded(DfaLanguage(dfa), b, start, accepts, |Tail(Utf8, b, start)|)
  {
    hide Tail, Width, Recorded;
    var w := Tail(Utf8, b, start);
    forall m | k < m <= |w|
      ensures w[..m] !in DfaLanguage(dfa)
    {
      assert w[..m][..k] == w[..k];
      DeadStays(dfa, w[..m], k);
    }
    RecordedAll(DfaLanguage(dfa), b, start, accepts, k);
  }

  lemma RunStart(nfa: seq<State>, uid: nat, b: seq<byte>, start: nat)
    requires ValidNfa(nfa) && uid < |nfa| && start <= |b|
    ensures Recorded(NfaLanguage(nfa, uid), b, start, [], 0)
    ensures Reach(nfa, uid, Tail(Utf8, b, start)[..0]) == Closure(nfa, {uid}) && uid in Closure(nfa, {uid})
    ensures Width(Utf8, b, start, 0) == 0
  {
    hide Tail;
    ClosureContains(nfa, {uid});
  }

  lemma NoneRecorded(nfa: seq<State>, uid: nat, w: Word)
    ensures StatesRecorded(nfa, uid, w, [], 0)
  {
  }

  lemma StepRun(nfa: seq<State>, uid: nat, b: seq<byte>, start: nat, before: seq<AcceptRecord>, accepts: seq<AcceptRecord>, k: nat)
    requires Recorded(NfaLanguage(nfa, uid), b, start, before, k) && k < |Tail(Utf8, b, start)| && before <= accepts
    requires forall i :: |before| <= i < |accepts| ==> accepts[i].count == k + 1 && accepts[i].inputsize == Width(Utf8, b, start, k + 1)
    requires |before| < |accepts| <==> HasAccept(nfa, Reach(nfa, uid, Tail(Utf8, b, start)[..k + 1]))
    ensures Recorded(NfaLanguage(nfa, uid), b, start, accepts, k + 1)
  {
    hide Tail, Width, Recorded;
    RecordedStep(NfaLanguage(nfa, uid), b, start, before, accepts, k);
  }

  lemma DeadRun(nfa: seq<State>, uid: nat, b: seq<byte>, start: nat, accepts: seq<AcceptRecord>, k: nat)
    requires ValidNfa(nfa) && uid < |nfa|
    requires Recorded(NfaLanguage(nfa, uid), b, start, accepts, k) && k < |Tail(Utf8, b, start)|
    requires Reach(nfa, uid, Tail(Utf8, b, start)[..k + 1]) == {}
    ensures Recorded(NfaLanguage(nfa, uid), b, start, accepts, |Tail(Utf8, b, start)|)
  {
    hide Tail, Width, Recorded;
    var w := Tail(Utf8, b, start);
    forall m | k < m <= |w|
      ensures w[..m] !in NfaLanguage(nfa, uid)
    {
      assert w[..m][..k + 1] == w[..k + 1];
      ReachEmpty(nfa, uid, w[..m], k + 1);
    }
    RecordedAll(NfaLanguage(nfa, uid), b, start, accepts, k);
  }

  lemma NothingFromNothing(nfa: seq<State>, wc: Sym)
    ensures StepSet(nfa, {}, wc) == {}
  {
    assert MoveSet(nfa, {}, wc) == {};
  }

  lemma VisitedClosure(nfa: seq<State>, uid: nat, list: seq<nat>)
    requires ValidNfa(nfa) && uid < |nfa| && Visited(nfa, uid, [], list)
    ensures SetOf(list) == Closure(nfa, {uid})
  {
    ClosureLeast(nfa, {uid}, SetOf(list)) by {
      forall a: nat, b: int | a in SetOf(list) && EpsEdge(nfa, a, b)
        ensures b >= 0 && b in SetOf(list)
      {
        var k :| 0 <= k < |list| && list[k] == a;
        assert SuccessorsIn(nfa, list[k], list);
      }
    }
    forall u | u in SetOf(list)
      ensures u in Closure(nfa, {uid})
    {
      var k :| 0 <= k < |list| && list[k] == u;
    }
  }

  /** The list holds only states of the step and is closed under empty transitions. */
  ghost predicate Stepping(nfa: seq<State>, from: set<nat>, wc: Sym, list: seq<nat>) {
    && Below(list, |nfa|)
    && forall k :: 0 <= k < |list| ==> list[k] in StepSet(nfa, from, wc) && SuccessorsIn(nfa, list[k], list)
  }

  ghost predicate MovesIn(nfa: seq<State>, p: nat, wc: Sym, list: seq<nat>, n: nat)
    requires p < |nfa| && n <= |nfa[p].trans|
  {
    forall k :: 0 <= k < n && Fires(nfa[p].trans[k], wc) ==> nfa[p].trans[k].dst >= 0 && nfa[p].trans[k].dst in list
  }

  lemma SteppedTo(nfa: seq<State>, from: set<nat>, p: nat, wc: Sym, dst: nat, before: seq<nat>, list: seq<nat>)
    requires ValidNfa(nfa) && p in from && SymEdge(nfa, p, wc, dst) && Stepping(nfa, from, wc, before) && Visited(nfa, dst, before, list)
    ensures Stepping(nfa, from, wc, list)
    ensures forall u :: u in before ==> u in list
  {
    assert list[..|before|] == before;
    assert dst in MoveSet(nfa, from, wc);
    forall k | 0 <= k < |list|
      ensures list[k] in StepSet(nfa, from, wc) && SuccessorsIn(nfa, list[k], list)
    {
      if k < |before| {
        assert list[k] == before[k];
        assert SuccessorsIn(nfa, before[k], before);
      }
    }
  }

  lemma SteppedAll(nfa: seq<State>, from: set<nat>, olds: seq<nat>, wc: Sym, list: seq<nat>)
    requires ValidNfa(nfa) && Below(olds, |nfa|) && from == SetOf(olds) && Stepping(nfa, from, wc, list)
    requires forall m :: 0 <= m < |olds| ==> MovesIn(nfa, olds[m], wc, list, |nfa[olds[m]].trans|)
    ensures SetOf(list) == StepSet(nfa, from, wc)
  {
    forall q: nat | q in MoveSet(nfa, from, wc)
      ensures q in SetOf(list)
    {
      var p: nat :| p in from && SymEdge(nfa, p, wc, q);
      var m :| 0 <= m < |olds| && olds[m] == p;
      assert MovesIn(nfa, olds[m], wc, list, |nfa[olds[m]].trans|);
    }
    forall a: nat, b: int | a in SetOf(list) && EpsEdge(nfa, a, b)
      ensures b >= 0 && b in SetOf(list)
    {
      var k :| 0 <= k < |list| && list[k] == a;
      assert SuccessorsIn(nfa, list[k], list);
    }
    ClosureLeast(nfa, MoveSet(nfa, from, wc), SetOf(list));
    forall u | u in SetOf(list)
      ensures u in StepSet(nfa, from, wc)
    {
      var k :| 0 <= k < |list| && list[k] == u;
    }
  }

  lemma KeptMoves(nfa: seq<State>, list: seq<nat>, from: nat, wc: Sym, before: seq<nat>, after: seq<nat>)
    requires Below(list, |nfa|) && forall u :: u in before ==> u in after
    requires forall m :: from <= m < |list| ==> MovesIn(nfa, list[m], wc, before, |nfa[list[m]].trans|)
    ensures forall m :: from <= m < |list| ==> MovesIn(nfa, list[m], wc, after, |nfa[list[m]].trans|)
  {
  }

  lemma VisitedThrough(nfa: seq<State>, uid: nat, dst: nat, before: seq<nat>, list: seq<nat>, after: seq<nat>)
    requires EpsEdge(nfa, uid, dst) && before <= list && Visited(nfa, dst, list, after)
    requires forall k :: |before| <= k < |list| ==> list[k] < |nfa| && Path(nfa, uid, [], list[k]) && SuccessorsIn(nfa, list[k], list)
    ensures before <= after
    ensures forall k :: |before| <= k < |after| ==> Path(nfa, uid, [], after[k]) && SuccessorsIn(nfa, after[k], after)
    ensures forall u :: u in list ==> u in after
  {
    assert after[..|list|] == list;
    forall k | |before| <= k < |after|
      ensures Path(nfa, uid, [], after[k]) && SuccessorsIn(nfa, after[k], after)
    {
      if k < |list| {
        assert after[k] == list[k];
      } else {
        PathEps(nfa, uid, dst, [], after[k]);
      }
    }
    forall u | u in list
      ensures u in after
    {
      var k :| 0 <= k < |list| && list[k] == u;
      assert after[k] == u;
    }
  }

  // ---- both simulators -------------------------------------------------------------------------

  /** The two simulators stay in step: where the NFA simulator's states are the subset of the DFA
      simulator's state, they still are after one more symbol, and one records an accept exactly if the
      other does. */
  lemma SimulatorsInStep(nfa: seq<State>, start: nat, dfa: seq<State>, w: Word, olds: seq<nat>, next: nat, c: Sym)
    requires ValidNfa(nfa) && start < |nfa| && DfaOf(nfa, start, dfa) && NoEdgeInto(nfa, start)
    requires next == After(dfa, w) && next < |dfa| && SetOf(olds) == SetOf(dfa[next].subset)
    ensures var n := Reachability.Next(dfa, next, c);
      && n == After(dfa, w + [c]) && 0 <= n < |dfa|
      && SetOf(dfa[n].subset) == StepSet(nfa, SetOf(olds), c)
      && (dfa[n].kind == AcceptKind <==> HasAccept(nfa, StepSet(nfa, SetOf(olds), c)))
  {
    hide StepSet;
    AfterSnoc(dfa, w, c);
    AfterIsReach(nfa, start, dfa, w);
    AfterIsReach(nfa, start, dfa, w + [c]);
    ReachStep(nfa, start, w, c);
    LanguageKept(nfa, start, dfa, w + [c]);
  }

  ghost predicate Position(accepts: seq<AcceptRecord>, count: nat, inputsize: nat) {
    exists i :: 0 <= i < |accepts| && accepts[i].count == count && accepts[i].inputsize == inputsize
  }

  lemma PositionIff(lang: iset<Word>, b: seq<byte>, start: nat, accepts: seq<AcceptRecord>, n: nat, count: nat, inputsize: nat)
    requires Recorded(lang, b, start, accepts, n)
    ensures Position(accepts, count, inputsize) <==>
      1 <= count <= n && Tail(Utf8, b, start)[..count] in lang && inputsize == Width(Utf8, b, start, count)
  {
    hide Tail, Width;
    forall i | 0 <= i < |accepts|
      ensures 1 <= accepts[i].count <= n && Tail(Utf8, b, start)[..accepts[i].count] in lang
        && accepts[i].inputsize == Width(Utf8, b, start, accepts[i].count)
    {
      assert RecordOk(lang, b, start, accepts[i], n);
    }
  }

  /** After whole runs the two lists of records name the same positions. */
  lemma SimulatorsAgree(nfa: seq<State>, start: nat, dfa: seq<State>, b: seq<byte>, from: nat, byNfa: seq<AcceptRecord>, byDfa: seq<AcceptRecord>)
    requires ValidNfa(nfa) && start < |nfa| && DfaOf(nfa, start, dfa) && NoEdgeInto(nfa, start)
    requires Recorded(NfaLanguage(nfa, start), b, from, byNfa, |Tail(Utf8, b, from)|)
    requires Recorded(DfaLanguage(dfa), b, from, byDfa, |Tail(Utf8, b, from)|)
    ensures forall count: nat, inputsize: nat :: Position(byNfa, count, inputsize) <==> Position(byDfa, count, inputsize)
  {
    hide Tail, Width, Recorded, Position;
    forall w: Word
      ensures w in NfaLanguage(nfa, start) <==> w in DfaLanguage(dfa)
    {
      if w != [] { LanguageKept(nfa, start, dfa, w); }
    }
    forall count: nat, inputsize: nat
      ensures Position(byNfa, count, inputsize) <==> Position(byDfa, count, inputsize)
    {
      PositionIff(NfaLanguage(nfa, start), b, from, byNfa, |Tail(Utf8, b, from)|, count, inputsize);
      PositionIff(DfaLanguage(dfa), b, from, byDfa, |Tail(Utf8, b, from)|, count, inputsize);
    }
  }
}
