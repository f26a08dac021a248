/** The flat DFA: per-state offsets into shared arrays (rex/rexdfatypes.h, rex/rexdfa.c) and how it is
    filled from the linked states (rex/rexdb.c). */
module FlatDfa {
  import opened Arithmetic
  import opened Automata
  import opened Transitions
  import opened Subsets
  import opened Database
  import opened DfaWords
  import opened Symbols

  datatype DfaState = DfaState(kind: StateKind, trans: nat, ntrans: nat,
                               accsubstates: nat, naccsubstates: nat, substates: nat, nsubstates: nat)

  /** Running offsets while the arrays are filled. */
  datatype Context = Context(nstates: nat, ntrans: nat, naccsubstates: nat, nsubstates: nat)

  ghost predicate AllKnown(subs: seq<Substate>, rows: seq<State>) {
    forall i :: 0 <= i < |rows| ==> Below(rows[i].subset, |subs|)
  }

  function Entry(subs: seq<Substate>, uid: nat): Substate
    requires uid < |subs|
  {
    Substate(uid, subs[uid].kind, subs[uid].userdata)
  }

  ghost function SubOf(subs: seq<Substate>, subset: seq<nat>): (r: seq<Substate>)
    requires Below(subset, |subs|)
  {
    seq(|subset|, k requires 0 <= k < |subset| => Entry(subs, subset[k]))
  }

  /** The accepting states of a subset, in its order. */
  ghost function AccOf(subs: seq<Substate>, subset: seq<nat>): (r: seq<Substate>)
    requires Below(subset, |subs|)
  {
    if subset == [] then []
    else
      var last := subset[|subset| - 1];
      AccOf(subs, subset[..|subset| - 1]) + if subs[last].kind == AcceptKind then [Entry(subs, last)] else []
  }

  ghost function AllTrans(rows: seq<State>): (r: seq<Transition>) {
    if rows == [] then [] else AllTrans(rows[..|rows| - 1]) + rows[|rows| - 1].trans
  }

  ghost function AllAcc(subs: seq<Substate>, rows: seq<State>): (r: seq<Substate>)
    requires AllKnown(subs, rows)
  {
    if rows == [] then [] else AllAcc(subs, rows[..|rows| - 1]) + AccOf(subs, rows[|rows| - 1].subset)
  }

  ghost function AllSub(subs: seq<Substate>, rows: seq<State>): (r: seq<Substate>)
    requires AllKnown(subs, rows)
  {
    if rows == [] then [] else AllSub(subs, rows[..|rows| - 1]) + SubOf(subs, rows[|rows| - 1].subset)
  }

  /** State `i` of the flat form: the lengths of what lies in front of it are its offsets. */
  ghost function HeadOf(subs: seq<Substate>, rows: seq<State>, i: nat, withsubstates: bool): DfaState
    requires AllKnown(subs, rows) && i < |rows|
  {
    DfaState(rows[i].kind, |AllTrans(rows[..i])|, |rows[i].trans|, |AllAcc(subs, rows[..i])|, |AccOf(subs, rows[i].subset)|,
             if withsubstates then |AllSub(subs, rows[..i])| else 0, if withsubstates then |rows[i].subset| else 0)
  }

  lemma AllTransSnoc(rows: seq<State>, i: nat)
    requires i < |rows|
    ensures AllTrans(rows[..i + 1]) == AllTrans(rows[..i]) + rows[i].trans
  {
    assert rows[..i + 1][..i] == rows[..i];
  }

  lemma AllSubsSnoc(subs: seq<Substate>, rows: seq<State>, i: nat)
    requires AllKnown(subs, rows) && i < |rows|
    ensures AllAcc(subs, rows[..i + 1]) == AllAcc(subs, rows[..i]) + AccOf(subs, rows[i].subset)
    ensures AllSub(subs, rows[..i + 1]) == AllSub(subs, rows[..i]) + SubOf(subs, rows[i].subset)
  {
    assert rows[..i + 1][..i] == rows[..i];
  }

  lemma AccOfSnoc(subs: seq<Substate>, subset: seq<nat>, k: nat)
    requires Below(subset, |subs|) && k < |subset|
    ensures AccOf(subs, subset[..k + 1]) == AccOf(subs, subset[..k]) + if subs[subset[k]].kind == AcceptKind then [Entry(subs, subset[k])] else []
  {
    assert subset[..k + 1][..k] == subset[..k];
  }

  lemma {:induction false} TransPrefix(rows: seq<State>, i: nat, n: nat)
    requires i <= n <= |rows|
    ensures AllTrans(rows[..i]) <= AllTrans(rows[..n])
    decreases n
  {
    if i < n {
      TransPrefix(rows, i, n - 1);
      AllTransSnoc(rows, n - 1);
    }
  }

  lemma {:induction false} SubsPrefix(subs: seq<Substate>, rows: seq<State>, i: nat, n: nat)
    requires AllKnown(subs, rows) && i <= n <= |rows|
    ensures AllAcc(subs, rows[..i]) <= AllAcc(subs, rows[..n])
    ensures AllSub(subs, rows[..i]) <= AllSub(subs, rows[..n])
    decreases n
  {
    if i < n {
      SubsPrefix(subs, rows, i, n - 1);
      AllSubsSnoc(subs, rows, n - 1);
    }
  }

  lemma AccInside(subs: seq<Substate>, rows: seq<State>, n: nat)
    requires AllKnown(subs, rows) && n < |rows|
    ensures var a := |AllAcc(subs, rows[..n])|; var k := |AccOf(subs, rows[n].subset)|;
      a + k <= |AllAcc(subs, rows)| && AllAcc(subs, rows)[a..a + k] == AccOf(subs, rows[n].subset)
  {
    AllSubsSnoc(subs, rows, n);
    SubsPrefix(subs, rows, n + 1, |rows|);
    assert rows[..|rows|] == rows;
  }

  lemma SubInside(subs: seq<Substate>, rows: seq<State>, n: nat)
    requires AllKnown(subs, rows) && n < |rows|
    ensures var a := |AllSub(subs, rows[..n])|; var k := |rows[n].subset|;
      a + k <= |AllSub(subs, rows)| && AllSub(subs, rows)[a..a + k] == SubOf(subs, rows[n].subset)
  {
    AllSubsSnoc(subs, rows, n);
    SubsPrefix(subs, rows, n + 1, |rows|);
    assert rows[..|rows|] == rows;
  }

  /** The indices of the accepting states of a subset, and what is kept of them. */
  lemma {:induction false} AccPlaces(subs: seq<Substate>, subset: seq<nat>) returns (which: seq<nat>)
    requires Below(subset, |subs|)
    ensures Ascending(which) && |which| == |AccOf(subs, subset)|
    ensures forall i: nat :: i in which <==> i < |subset| && subs[subset[i]].kind == AcceptKind
    ensures forall k :: 0 <= k < |which| ==> which[k] < |subset|
    ensures forall k :: 0 <= k < |which| ==>
      var u := subset[which[k]]; AccOf(subs, subset)[k] == Substate(u, AcceptKind, subs[u].userdata)
  {
    which := [];
    if subset != [] {
      var last := |subset| - 1;
      var front := AccPlaces(subs, subset[..last]);
      which := front + if subs[subset[last]].kind == AcceptKind then [last] else [];
      hide Entry;
      forall i: nat
        ensures i in which <==> i < |subset| && subs[subset[i]].kind == AcceptKind
      {
        assert i in which <==> i in front || (i == last && subs[subset[last]].kind == AcceptKind);
        assert i < last ==> subset[..last][i] == subset[i];
      }
    }
  }

  ghost predicate HeadsFilled(subs: seq<Substate>, rows: seq<State>, withsubstates: bool, heads: seq<DfaState>, n: nat)
    requires AllKnown(subs, rows) && n <= |rows| == |heads|
  {
    forall i :: 0 <= i < n ==> heads[i] == HeadOf(subs, rows, i, withsubstates)
  }

  lemma HeadsSnoc(subs: seq<Substate>, rows: seq<State>, withsubstates: bool, a: seq<DfaState>, b: seq<DfaState>, n: nat)
    requires AllKnown(subs, rows) && n < |rows| == |a| && HeadsFilled(subs, rows, withsubstates, a, n)
    requires b == a[n := HeadOf(subs, rows, n, withsubstates)]
    ensures HeadsFilled(subs, rows, withsubstates, b, n + 1)
  {
  }

  method NumTransitions(states: seq<State>) returns (n: nat)
    ensures n == |AllTrans(states)|
  {
    n := 0;
    for i := 0 to |states|
      invariant n == |AllTrans(states[..i])|
    {
      AllTransSnoc(states, i);
      n := n + |states[i].trans|;
    }
    assert states[..|states|] == states;
  }

  method NumSubstates(ghost subs: seq<Substate>, states: seq<State>) returns (n: nat)
    requires AllKnown(subs, states)
    ensures n == |AllSub(subs, states)|
  {
    n := 0;
    for i := 0 to |states|
      invariant n == |AllSub(subs, states[..i])|
    {
      AllSubsSnoc(subs, states, i);
      n := n + |states[i].subset|;
    }
    assert states[..|states|] == states;
  }

  method NumAccSubstates(subs: seq<Substate>, states: seq<State>) returns (n: nat)
    requires AllKnown(subs, states)
    ensures n == |AllAcc(subs, states)|
  {
    n := 0;
    for i := 0 to |states|
      invariant n == |AllAcc(subs, states[..i])|
    {
      AllSubsSnoc(subs, states, i);
      var subset := states[i].subset;
      for j := 0 to |subset|
        invariant n == |AllAcc(subs, states[..i])| + |AccOf(subs, subset[..j])|
      {
        AccOfSnoc(subs, subset, j);
        if subs[subset[j]].kind == AcceptKind {
          n := n + 1;
        }
      }
      assert subset[..|subset|] == subset;
    }
    assert states[..|states|] == states;
  }

  // ---- the bit array ---------------------------------------------------------------------------

  function Mask(k: nat): bv8
    requires k < 8
  {
    (1 as bv8) << k
  }

  predicate BitAt(bits: seq<bv8>, e: nat) {
    e / 8 < |bits| && bits[e / 8] & Mask(e % 8) != 0
  }

  lemma SetMask(b: bv8, k: nat, j: nat)
    requires k < 8 && j < 8
    ensures (b | Mask(k)) & Mask(j) != 0 <==> k == j || b & Mask(j) != 0
  {
  }

  lemma {:induction false} PowOfPow2(hbits: nat, n: nat)
    ensures Pow(Pow2(hbits), n) == Pow2(n * hbits)
  {
    if n > 0 {
      PowOfPow2(hbits, n - 1);
      Pow2Add(hbits, (n - 1) * hbits);
      assert hbits + (n - 1) * hbits == n * hbits;
    }
  }

  lemma {:induction false} Pow2Add(a: nat, b: nat)
    ensures Pow2(a) * Pow2(b) == Pow2(a + b)
  {
    if a > 0 {
      Pow2Add(a - 1, b);
    }
  }

  ghost predicate Grows(a: seq<bv8>, b: seq<bv8>) {
    |a| == |b| && forall e: nat :: BitAt(a, e) ==> BitAt(b, e)
  }

  /** A set bit for every row of `n` symbols that does not rule out a match from `state`. */
  ghost predicate AllMarked(rows: seq<State>, bits: seq<bv8>, state: nat, n: nat, entry: nat, m: nat)
    requires m > 0 && n > 0
  {
    forall x: Word :: |x| == n && Live(rows, state, x) ==> BitAt(bits, EntryOf(entry, x, m))
  }

  /** A set bit for every row of `n` symbols whose first one has residue `cur` and whose others do not
      rule out a match from `next`. */
  ghost predicate ResidueMarked(rows: seq<State>, bits: seq<bv8>, next: nat, n: nat, entry: nat, m: nat, cur: nat)
    requires m > 0 && n > 0
  {
    forall x: Word :: |x| == n && x[0] % m == cur && (n == 1 || Live(rows, next, x[1..])) ==> BitAt(bits, EntryOf(entry, x, m))
  }

  ghost predicate RowMarked(rows: seq<State>, bits: seq<bv8>, row: seq<Transition>, n: nat, entry: nat, m: nat, done: nat)
    requires m > 0 && n > 0 && done <= |row|
  {
    forall k :: 0 <= k < done && row[k].dst > 0 ==> RangeMarked(rows, bits, row[k], n, entry, m)
  }

  ghost predicate RangeMarked(rows: seq<State>, bits: seq<bv8>, t: Transition, n: nat, entry: nat, m: nat)
    requires m > 0 && n > 0 && t.dst >= 0
  {
    forall c: Sym :: Fires(t, c) ==> ResidueMarked(rows, bits, t.dst, n, entry, m, c % m)
  }

  /** The first `count` symbols of the range are done. */
  ghost predicate RoundMarked(rows: seq<State>, bits: seq<bv8>, t: Transition, n: nat, entry: nat, m: nat, count: nat)
    requires m > 0 && n > 0 && t.dst >= 0
  {
    forall c: Sym :: Fires(t, c) && c < t.lowin + count ==> ResidueMarked(rows, bits, t.dst, n, entry, m, c % m)
  }

  ghost predicate ResiduesMarked(rows: seq<State>, bits: seq<bv8>, next: nat, n: nat, entry: nat, m: nat, count: nat)
    requires m > 0 && n > 0
  {
    forall c: nat :: c < count ==> ResidueMarked(rows, bits, next, n, entry, m, c)
  }

  /** A symbol for which the range is followed. Behind the largest symbol the counter goes on with 0, so that
      a range that ends there is followed for any symbol. */
  predicate Tries(t: Transition, c: Sym) {
    Fires(t, c) || t.highin == CHAR_MAX
  }

  /** The symbols `x` lead from `d` to an accepting state, or nowhere to the dead state, along ranges that are
      followed for them. */
  ghost predicate Loose(rows: seq<State>, d: int, x: Word)
    decreases |x|
  {
    0 <= d < |rows| && (rows[d].kind == AcceptKind || (x != [] && exists t :: t in rows[d].trans && LooseBy(rows, t, x)))
  }

  ghost predicate LooseBy(rows: seq<State>, t: Transition, x: Word)
    requires x != []
    decreases |x|, 0
  {
    Tries(t, x[0]) && t.dst != 0 && (|x| == 1 || Loose(rows, t.dst, x[1..]))
  }

  ghost predicate LooseEntry(rows: seq<State>, state: nat, n: nat, entry: nat, m: nat, e: nat)
    requires m > 0 && n > 0
  {
    exists x: Word :: |x| == n && Loose(rows, state, x) && EntryOf(entry, x, m) == e
  }

  /** `e` is the entry of a row of symbols of which the first one has residue `cur` and the others are loose
      from `next`. */
  ghost predicate ResidueEntry(rows: seq<State>, next: nat, n: nat, entry: nat, m: nat, cur: nat, e: nat)
    requires m > 0 && n > 0
  {
    exists x: Word :: |x| == n && x[0] % m == cur && (n == 1 || Loose(rows, next, x[1..])) && EntryOf(entry, x, m) == e
  }

  ghost predicate RangeEntry(rows: seq<State>, t: Transition, n: nat, entry: nat, m: nat, e: nat)
    requires m > 0 && n > 0 && t.dst >= 0
  {
    exists c: Sym :: Tries(t, c) && ResidueEntry(rows, t.dst, n, entry, m, c % m, e)
  }

  lemma EntryCons(entry: nat, c: Sym, y: Word, m: nat)
    requires m > 0
    ensures ([c] + y)[1..] == y
    ensures EntryOf(entry, [c] + y, m) == if y == [] then entry + c % m else EntryOf((entry + c % m) * m, y, m)
  {
    assert ([c] + y)[1..] == y;
  }

  lemma RowWith(entry: nat, cur: nat, y: Word, m: nat) returns (x: Word)
    requires cur < m <= 0x1000_0000
    ensures |x| == |y| + 1 && x[0] % m == cur && x[1..] == y
    ensures EntryOf(entry, x, m) == if y == [] then entry + cur else EntryOf((entry + cur) * m, y, m)
  {
    hide EntryOf;
    var c: Sym := cur;
    ModUnique(cur, 0, cur, m);
    EntryCons(entry, c, y, m);
    x := [c] + y;
  }

  lemma EntryBehind(rows: seq<State>, next: nat, n: nat, entry: nat, m: nat, cur: nat, e: nat)
    requires 0 < n && cur < m <= 0x1000_0000 && LooseEntry(rows, next, n, (entry + cur) * m, m, e)
    ensures ResidueEntry(rows, next, n + 1, entry, m, cur, e)
  {
    hide EntryOf, Loose;
    var y: Word :| |y| == n && Loose(rows, next, y) && EntryOf((entry + cur) * m, y, m) == e;
    var x := RowWith(entry, cur, y, m);
  }

  lemma EntriesBehind(rows: seq<State>, a: seq<bv8>, b: seq<bv8>, next: nat, n: nat, entry: nat, m: nat, cur: nat)
    requires 0 < n && cur < m <= 0x1000_0000
    requires forall e: nat :: BitAt(b, e) && !BitAt(a, e) ==> LooseEntry(rows, next, n, (entry + cur) * m, m, e)
    ensures forall e: nat :: BitAt(b, e) && !BitAt(a, e) ==> ResidueEntry(rows, next, n + 1, entry, m, cur, e)
  {
    hide LooseEntry, ResidueEntry, BitAt;
    forall e: nat | BitAt(b, e) && !BitAt(a, e)
      ensures ResidueEntry(rows, next, n + 1, entry, m, cur, e)
    {
      EntryBehind(rows, next, n, entry, m, cur, e);
    }
  }

  lemma EntryHere(rows: seq<State>, next: nat, entry: nat, m: nat, cur: nat)
    requires cur < m <= 0x1000_0000
    ensures ResidueEntry(rows, next, 1, entry, m, cur, entry + cur)
  {
    hide EntryOf, Loose;
    var x := RowWith(entry, cur, [], m);
  }

  lemma AcceptEntry(rows: seq<State>, state: nat, n: nat, entry: nat, m: nat, cur: nat, e: nat)
    requires m > 0 && n > 0 && state < |rows| && rows[state].kind == AcceptKind && ResidueEntry(rows, state, n, entry, m, cur, e)
    ensures LooseEntry(rows, state, n, entry, m, e)
  {
    hide EntryOf;
    var x: Word :| |x| == n && x[0] % m == cur && (n == 1 || Loose(rows, state, x[1..])) && EntryOf(entry, x, m) == e;
    assert Loose(rows, state, x);
  }

  lemma RowEntry(rows: seq<State>, state: nat, t: Transition, n: nat, entry: nat, m: nat, e: nat)
    requires m > 0 && n > 0 && state < |rows| && t in rows[state].trans && t.dst > 0 && RangeEntry(rows, t, n, entry, m, e)
    ensures LooseEntry(rows, state, n, entry, m, e)
  {
    hide EntryOf;
    var c: Sym :| Tries(t, c) && ResidueEntry(rows, t.dst, n, entry, m, c % m, e);
    var y: Word :| |y| == n && y[0] % m == c % m && (n == 1 || Loose(rows, t.dst, y[1..])) && EntryOf(entry, y, m) == e;
    EntryCons(entry, c, y[1..], m);
    EntryCons(entry, y[0], y[1..], m);
    assert [y[0]] + y[1..] == y;
    var x := [c] + y[1..];
    assert LooseBy(rows, t, x);
    assert Loose(rows, state, x);
  }

  /** No range that ends at the largest symbol, other than to the dead state, has fewer symbols than there are
      residues. */
  ghost predicate WideAtEnd(rows: seq<State>, m: nat) {
    forall d, k :: 0 <= d < |rows| && 0 <= k < |rows[d].trans| && rows[d].trans[k].highin == CHAR_MAX && rows[d].trans[k].dst != 0
      ==> rows[d].trans[k].lowin + m <= CHAR_MAX + 1
  }

  lemma LooseSymbol(t: Transition, c: Sym, m: nat) returns (a: Sym)
    requires 0 < m && t.lowin <= t.highin && Tries(t, c) && (t.highin == CHAR_MAX ==> t.lowin + m <= CHAR_MAX + 1)
    ensures Fires(t, a) && a % m == c % m
  {
    if Fires(t, c) {
      a := c;
    } else {
      ModShift(c, t.lowin, m);
      MulMono(1, m, t.lowin);
      var far := c + t.lowin * m;
      SameResidue(t.lowin, far, m);
      a := t.lowin + (far - t.lowin) % m;
    }
  }

  /** Under that condition the table has no bit but for rows that do not rule out a match: for every loose row
      there is one with the same residues, and so the same entry. */
  lemma {:induction false} LooseIsLive(rows: seq<State>, m: nat, d: nat, x: Word) returns (y: Word)
    requires DfaWords.Complete(rows) && m > 0 && WideAtEnd(rows, m) && x != [] && Loose(rows, d, x)
    ensures Live(rows, d, y) && |y| == |x| && forall i :: 0 <= i < |x| ==> y[i] % m == x[i] % m
    decreases |x|
  {
    if rows[d].kind == AcceptKind {
      y := x;
    } else {
      var row := rows[d].trans;
      var t :| t in row && LooseBy(rows, t, x);
      var k :| 0 <= k < |row| && row[k] == t;
      assert RowTotal(rows, d);
      PartitionDisjoint(row);
      var c := LooseSymbol(t, x[0], m);
      TargetUnique(row, c, k);
      var rest := [];
      if |x| > 1 {
        rest := LooseIsLive(rows, m, t.dst, x[1..]);
      }
      y := [c] + rest;
      assert y[1..] == rest;
      forall i | 0 <= i < |x|
        ensures y[i] % m == x[i] % m
      {
        assert i > 0 ==> y[i] == rest[i - 1] && x[1..][i - 1] == x[i];
      }
    }
  }

  lemma {:induction false} SameEntry(entry: nat, x: Word, y: Word, m: nat)
    requires m > 0 && x != [] && |y| == |x| && forall i :: 0 <= i < |x| ==> y[i] % m == x[i] % m
    ensures EntryOf(entry, y, m) == EntryOf(entry, x, m)
    decreases |x|
  {
    if |x| > 1 {
      forall i | 0 <= i < |x| - 1
        ensures y[1..][i] % m == x[1..][i] % m
      {
        assert y[i + 1] % m == x[i + 1] % m;
      }
      SameEntry((entry + x[0] % m) * m, x[1..], y[1..], m);
    }
  }

  /** The filter is exact but for ranges at the end of the symbols that are too short. */
  lemma EntryExact(rows: seq<State>, state: nat, n: nat, entry: nat, m: nat, e: nat)
    requires DfaWords.Complete(rows) && m > 0 && n > 0 && WideAtEnd(rows, m) && LooseEntry(rows, state, n, entry, m, e)
    ensures exists y: Word :: |y| == n && Live(rows, state, y) && EntryOf(entry, y, m) == e
  {
    var x: Word :| |x| == n && Loose(rows, state, x) && EntryOf(entry, x, m) == e;
    var y := LooseIsLive(rows, m, state, x);
    SameEntry(entry, x, y, m);
  }

  lemma MarkedBelow(rows: seq<State>, bits: seq<bv8>, next: nat, n: nat, entry: nat, m: nat, cur: nat)
    requires m > 0 && n > 0 && AllMarked(rows, bits, next, n, (entry + cur) * m, m)
    ensures ResidueMarked(rows, bits, next, n + 1, entry, m, cur)
  {
    forall x: Word | |x| == n + 1 && x[0] % m == cur && Live(rows, next, x[1..])
      ensures BitAt(bits, EntryOf(entry, x, m))
    {
      assert |x[1..]| == n;
    }
  }

  lemma MarkedHere(rows: seq<State>, bits: seq<bv8>, next: nat, entry: nat, m: nat, cur: nat)
    requires m > 0 && BitAt(bits, entry + cur)
    ensures ResidueMarked(rows, bits, next, 1, entry, m, cur)
  {
  }

  lemma BlockFits(block: nat, m: nat, cur: nat, level: nat, size: nat)
    requires cur < m && (block + 1) * Pow(m, level + 1) <= size
    ensures (block * m + cur + 1) * Pow(m, level) <= size
    ensures level == 0 ==> block * m + cur < size
  {
    BlockBounds(block, m, cur, Pow(m, level));
  }

  lemma ResidueKept(rows: seq<State>, a: seq<bv8>, b: seq<bv8>, next: nat, n: nat, entry: nat, m: nat, cur: nat)
    requires m > 0 && n > 0 && Grows(a, b) && ResidueMarked(rows, a, next, n, entry, m, cur)
    ensures ResidueMarked(rows, b, next, n, entry, m, cur)
  {
  }

  lemma KeptBelow(rows: seq<State>, a: seq<bv8>, b: seq<bv8>, next: nat, n: nat, entry: nat, m: nat, cur: nat)
    requires m > 0 && n > 0 && Grows(a, b)
    requires ResiduesMarked(rows, a, next, n, entry, m, cur) && ResidueMarked(rows, b, next, n, entry, m, cur)
    ensures ResiduesMarked(rows, b, next, n, entry, m, cur + 1)
  {
    forall c: nat | c < cur
      ensures ResidueMarked(rows, b, next, n, entry, m, c)
    {
      ResidueKept(rows, a, b, next, n, entry, m, c);
    }
  }

  lemma RowMarkedKept(rows: seq<State>, a: seq<bv8>, b: seq<bv8>, row: seq<Transition>, n: nat, entry: nat, m: nat, done: nat)
    requires m > 0 && n > 0 && done <= |row| && Grows(a, b) && RowMarked(rows, a, row, n, entry, m, done)
    ensures RowMarked(rows, b, row, n, entry, m, done)
  {
    forall k, c: Sym | 0 <= k < done && row[k].dst > 0 && Fires(row[k], c)
      ensures ResidueMarked(rows, b, row[k].dst, n, entry, m, c % m)
    {
      assert RangeMarked(rows, a, row[k], n, entry, m);
      ResidueKept(rows, a, b, row[k].dst, n, entry, m, c % m);
    }
  }

  /** The symbol counter after `n` steps; it wraps behind the largest symbol. */
  function Counter(low: Sym, n: nat): Sym {
    (low + n) % 0x1_0000_0000
  }

  /** Unsigned difference. */
  function Offset(c: Sym, low: Sym): Sym {
    (c - low) % 0x1_0000_0000
  }

  lemma CounterStep(low: Sym, high: Sym, n: nat, m: nat)
    requires low <= high && n <= m <= 0x1000_0000
    ensures Counter(Counter(low, n), 1) == Counter(low, n + 1)
    ensures Offset(Counter(low, n), low) == n
    ensures Counter(low, n) > high ==> high < low + n
    ensures n == 0 ==> Counter(low, n) == low
  {
  }

  lemma CounterInside(t: Transition, n: nat, c: Sym)
    requires t.lowin <= t.highin && c == Counter(t.lowin, n) <= t.highin && (t.highin == CHAR_MAX || t.lowin + n <= t.highin + 1)
    ensures Tries(t, c) && (t.highin == CHAR_MAX || t.lowin + n <= t.highin)
  {
  }

  lemma RoundStart(rows: seq<State>, bits: seq<bv8>, t: Transition, n: nat, entry: nat, m: nat)
    requires m > 0 && n > 0 && t.dst >= 0
    ensures RoundMarked(rows, bits, t, n, entry, m, 0)
  {
  }

  lemma RoundKept(rows: seq<State>, a: seq<bv8>, b: seq<bv8>, t: Transition, n: nat, entry: nat, m: nat, count: nat, c: Sym)
    requires m > 0 && n > 0 && t.dst >= 0 && Grows(a, b) && RoundMarked(rows, a, t, n, entry, m, count)
    requires c == Counter(t.lowin, count) && ResidueMarked(rows, b, t.dst, n, entry, m, c % m)
    ensures RoundMarked(rows, b, t, n, entry, m, count + 1)
  {
    hide ResidueMarked, Grows;
    forall e: Sym | Fires(t, e) && e < t.lowin + (count + 1)
      ensures ResidueMarked(rows, b, t.dst, n, entry, m, e % m)
    {
      if e < t.lowin + count {
        ResidueKept(rows, a, b, t.dst, n, entry, m, e % m);
      }
    }
  }

  /** A full round, or all symbols of the range, meets every residue of the range. */
  lemma RoundIsEnough(rows: seq<State>, bits: seq<bv8>, t: Transition, n: nat, entry: nat, m: nat, count: nat)
    requires m > 0 && n > 0 && t.dst >= 0 && RoundMarked(rows, bits, t, n, entry, m, count)
    requires count == m || t.highin < t.lowin + count
    ensures RangeMarked(rows, bits, t, n, entry, m)
  {
    forall c: Sym | Fires(t, c)
      ensures ResidueMarked(rows, bits, t.dst, n, entry, m, c % m)
    {
      SameResidue(t.lowin, c, m);
      var first: Sym := t.lowin + (c - t.lowin) % m;
      assert Fires(t, first);
    }
  }

  lemma AcceptMarked(rows: seq<State>, bits: seq<bv8>, state: nat, n: nat, entry: nat, m: nat)
    requires m > 0 && n > 0 && state < |rows| && rows[state].kind == AcceptKind
    requires ResiduesMarked(rows, bits, state, n, entry, m, m)
    ensures AllMarked(rows, bits, state, n, entry, m)
  {
    forall x: Word | |x| == n && Live(rows, state, x)
      ensures BitAt(bits, EntryOf(entry, x, m))
    {
      assert ResidueMarked(rows, bits, state, n, entry, m, x[0] % m);
    }
  }

  lemma RowIsEnough(rows: seq<State>, bits: seq<bv8>, state: nat, n: nat, entry: nat, m: nat)
    requires m > 0 && n > 0 && DfaWords.Complete(rows) && state < |rows| && rows[state].kind != AcceptKind
    requires RowMarked(rows, bits, rows[state].trans, n, entry, m, |rows[state].trans|)
    ensures AllMarked(rows, bits, state, n, entry, m)
  {
    forall x: Word | |x| == n && Live(rows, state, x)
      ensures BitAt(bits, EntryOf(entry, x, m))
    {
      var row := rows[state].trans;
      assert RowTotal(rows, state);
      var k := PartitionFrom(row, x[0], 0);
      PartitionDisjoint(row);
      TargetUnique(row, x[0], k);
      assert RangeMarked(rows, bits, row[k], n, entry, m);
      assert ResidueMarked(rows, bits, row[k].dst, n, entry, m, x[0] % m);
    }
  }

  /** A symbol and the one of its residue in the first round of the range. */
  lemma SameResidue(low: nat, c: nat, m: nat)
    requires m > 0 && low <= c
    ensures low + (c - low) % m <= c
    ensures (low + (c - low) % m) % m == c % m
  {
    var q := (c - low) / m;
    var i := (c - low) % m;
    assert c == low + q * m + i;
    var r := (low + i) / m;
    assert low + i == r * m + (low + i) % m;
    MulDist(q, r, m);
    ModUnique(c, q + r, (low + i) % m, m);
    MulMono(0, q, m);
  }

  /** The table of a complete DFA has no false negatives: it lets through every input that starts with a
      match, however short the match is. */
  ghost predicate LetsMatchesThrough(rows: seq<State>, bits: seq<bv8>, hbytes: nat, m: nat)
    requires m > 0
  {
    forall w: Word :: Longest(DfaLanguage(rows), w) > 0 ==> BitAt(bits, HashOf(w, hbytes, m))
  }

  lemma MarkedLetsThrough(rows: seq<State>, bits: seq<bv8>, hbytes: nat, m: nat)
    requires DfaWords.Complete(rows) && m > 0 && hbytes > 0 && AllMarked(rows, bits, 1, hbytes, 0, m)
    ensures LetsMatchesThrough(rows, bits, hbytes, m)
  {
    forall w: Word | Longest(DfaLanguage(rows), w) > 0
      ensures BitAt(bits, HashOf(w, hbytes, m))
    {
      var v := w[..Longest(DfaLanguage(rows), w)];
      var x := PadTo(w, hbytes);
      AfterIsAfterFrom(rows, v);
      LiveOfMatch(rows, 1, x, v);
      assert HashOf(w, 0, m) == 0;
      EntryIsHash(0, w, 0, x, m);
    }
  }

  lemma {:induction false} Pow2Grows(a: nat, b: nat)
    requires a <= b
    ensures Pow2(a) <= Pow2(b)
    decreases b
  {
    if a < b {
      Pow2Grows(a, b - 1);
    }
  }

  lemma Pow2Of27()
    ensures Pow2(27) == 0x800_0000
  {
    assert Pow2(9) == 512;
    Pow2Add(9, 9);
    Pow2Add(9, 18);
  }

  lemma Pow2Eighth(b: nat)
    requires b >= 3
    ensures Pow2(b) / 8 * 8 == Pow2(b)
  {
    assert Pow2(b - 1) == 2 * Pow2(b - 2) && Pow2(b - 2) == 2 * Pow2(b - 3);
  }

  lemma TableSize(hbytes: nat, hbits: nat)
    requires 3 <= hbytes * hbits <= 27
    ensures hbytes > 0 && Pow2(hbits) <= 0x1000_0000
    ensures Pow2(hbytes * hbits) / 8 * 8 == Pow2(hbytes * hbits) == Pow(Pow2(hbits), hbytes)
  {
    hide Pow2, Pow;
    PowOfPow2(hbits, hbytes);
    Pow2Eighth(hbytes * hbits);
    MulMono(1, hbytes, hbits);
    Pow2Grows(hbits, 27);
    Pow2Of27();
  }

  class RexDfa {
    var bits: array<bv8>
    var hbytes: nat
    var hbits: nat
    var hsize: nat
    const states: array<DfaState>
    const trans: array<Transition>
    const accsubstates: array<Substate>
    const substates: array<Substate>
    const withsubstates: bool
    /** The linked states and the substate records this DFA is made from. */
    ghost const rows: seq<State>
    ghost const subs: seq<Substate>

    ghost predicate Shaped() {
      && AllKnown(subs, rows)
      && states.Length == |rows| && trans.Length == |AllTrans(rows)| && accsubstates.Length == |AllAcc(subs, rows)|
      && substates.Length == (if withsubstates then |AllSub(subs, rows)| else 0)
      && accsubstates != substates
    }

    /** The first `n` states are in place. */
    ghost predicate Filled(n: nat)
      requires Shaped() && n <= |rows|
      reads states, trans, accsubstates, substates
    {
      && HeadsFilled(subs, rows, withsubstates, states[..], n)
      && AllTrans(rows[..n]) <= trans[..]
      && AllAcc(subs, rows[..n]) <= accsubstates[..]
      && (withsubstates ==> AllSub(subs, rows[..n]) <= substates[..])
    }

    ghost function ContextAt(n: nat): Context
      requires Shaped() && n <= |rows|
    {
      Context(n, |AllTrans(rows[..n])|, |AllAcc(subs, rows[..n])|, if withsubstates then |AllSub(subs, rows[..n])| else 0)
    }

    constructor (nstates: nat, ntrans: nat, naccsubstates: nat, nsubstates: nat, withsubstates: bool,
                 ghost rows: seq<State>, ghost subs: seq<Substate>)
      requires AllKnown(subs, rows)
      requires nstates == |rows| && ntrans == |AllTrans(rows)| && naccsubstates == |AllAcc(subs, rows)|
      requires nsubstates == if withsubstates then |AllSub(subs, rows)| else 0
      ensures fresh(states) && fresh(trans) && fresh(accsubstates) && fresh(substates)
      ensures this.rows == rows && this.subs == subs && this.withsubstates == withsubstates
      ensures Shaped() && Filled(0) && fresh(bits) && BitsApart()
    {
      this.states := new DfaState[nstates](_ => DfaState(NoKind, 0, 0, 0, 0, 0, 0));
      this.trans := new Transition[ntrans](_ => Transition(0, 0, 0));
      var a := new Substate[naccsubstates](_ => Substate(0, NoKind, 0));
      var s := new Substate[nsubstates](_ => Substate(0, NoKind, 0));
      this.accsubstates, this.substates := a, s;
      this.bits := new bv8[0];
      this.hbytes, this.hbits, this.hsize := 0, 0, 0;
      this.rows, this.subs, this.withsubstates := rows, subs, withsubstates;
    }

    lemma Room(n: nat)
      requires Shaped() && n < |rows|
      ensures |AllTrans(rows[..n])| + |rows[n].trans| <= trans.Length
      ensures |AllAcc(subs, rows[..n])| + |AccOf(subs, rows[n].subset)| <= accsubstates.Length
      ensures withsubstates ==> |AllSub(subs, rows[..n])| + |rows[n].subset| <= substates.Length
    {
      AllTransSnoc(rows, n);
      AllSubsSnoc(subs, rows, n);
      TransPrefix(rows, n + 1, |rows|);
      SubsPrefix(subs, rows, n + 1, |rows|);
      assert rows[..|rows|] == rows;
    }

    /** Appends one state to the arrays at the running offsets. */
    method FillDfaState(subs: seq<Substate>, ctx: Context, state: State) returns (next: Context)
      requires Shaped() && ctx.nstates < |rows| && ctx == ContextAt(ctx.nstates) && Filled(ctx.nstates)
      requires subs == this.subs && state == rows[ctx.nstates]
      modifies states, trans, accsubstates, substates
      ensures next == ContextAt(ctx.nstates + 1) && Filled(ctx.nstates + 1)
    {
      hide AllTrans, AllAcc, AllSub, AccOf, HeadsFilled;
      ghost var n := ctx.nstates;
      ghost var heads := states[..];
      Room(n);
      AllTransSnoc(rows, n);
      AllSubsSnoc(subs, rows, n);
      FillTrans(ctx, state);
      var nacc := FillAcc(subs, ctx, state);
      if withsubstates {
        FillSub(subs, ctx, state);
      }
      states[ctx.nstates] := DfaState(state.kind, ctx.ntrans, |state.trans|, ctx.naccsubstates, nacc,
                                      if withsubstates then ctx.nsubstates else 0, if withsubstates then |state.subset| else 0);
      HeadsSnoc(subs, rows, withsubstates, heads, states[..], n);
      next := Context(ctx.nstates + 1, ctx.ntrans + |state.trans|, ctx.naccsubstates + nacc,
                      ctx.nsubstates + if withsubstates then |state.subset| else 0);
    }

    method FillTrans(ctx: Context, state: State)
      requires ctx.ntrans + |state.trans| <= trans.Length
      modifies trans
      ensures old(trans[..ctx.ntrans]) + state.trans <= trans[..]
    {
      for i := 0 to |state.trans|
        invariant trans[..ctx.ntrans + i] == old(trans[..ctx.ntrans]) + state.trans[..i]
      {
        trans[ctx.ntrans + i] := state.trans[i];
      }
    }

    method FillAcc(subs: seq<Substate>, ctx: Context, state: State) returns (nacc: nat)
      requires Below(state.subset, |subs|) && ctx.naccsubstates + |AccOf(subs, state.subset)| <= accsubstates.Length
      modifies accsubstates
      ensures nacc == |AccOf(subs, state.subset)|
      ensures old(accsubstates[..ctx.naccsubstates]) + AccOf(subs, state.subset) <= accsubstates[..]
    {
      nacc := 0;
      for i := 0 to |state.subset|
        invariant nacc == |AccOf(subs, state.subset[..i])|
        invariant ctx.naccsubstates + nacc <= accsubstates.Length
        invariant accsubstates[..ctx.naccsubstates + nacc] == old(accsubstates[..ctx.naccsubstates]) + AccOf(subs, state.subset[..i])
      {
        var uid := state.subset[i];
        AccOfSnoc(subs, state.subset, i);
        AccOfPrefix(subs, state.subset, i + 1);
        if subs[uid].kind == AcceptKind {
          accsubstates[ctx.naccsubstates + nacc] := Entry(subs, uid);
          nacc := nacc + 1;
        }
      }
      assert state.subset[..|state.subset|] == state.subset;
    }

    method FillSub(subs: seq<Substate>, ctx: Context, state: State)
      requires Below(state.subset, |subs|) && ctx.nsubstates + |state.subset| <= substates.Length
      modifies substates
      ensures old(substates[..ctx.nsubstates]) + SubOf(subs, state.subset) <= substates[..]
    {
      for i := 0 to |state.subset|
        invariant substates[..ctx.nsubstates + i] == old(substates[..ctx.nsubstates]) + SubOf(subs, state.subset)[..i]
      {
        substates[ctx.nsubstates + i] := Entry(subs, state.subset[i]);
      }
    }

    // ---- lookup --------------------------------------------------------------------------------

    /** Filled from a complete DFA. */
    ghost predicate Ready()
      reads `bits, states, trans, accsubstates, substates
    {
      Shaped() && Filled(|rows|) && DfaWords.Complete(rows) && BitsApart()
    }

    ghost predicate BitsApart()
      reads `bits
    {
      bits as object !in {states as object, trans as object, accsubstates as object, substates as object}
    }

    lemma RowAt(n: nat, k: nat)
      requires Ready() && n < |rows| && k < |rows[n].trans|
      ensures states[n].ntrans == |rows[n].trans| && states[n].trans + k < trans.Length
      ensures trans[states[n].trans + k] == rows[n].trans[k]
    {
      Room(n);
      AllTransSnoc(rows, n);
      TransPrefix(rows, n + 1, |rows|);
      assert rows[..|rows|] == rows;
      assert states[n] == HeadOf(subs, rows, n, withsubstates);
    }

    lemma KindAt(n: nat)
      requires Ready() && n < |rows|
      ensures states[n].kind == rows[n].kind && (n == 0 ==> rows[n].kind == DeadKind)
    {
      assert states[n] == HeadOf(subs, rows, n, withsubstates);
    }

    /** The accepting substates of state `n` lie in its slice, in the order of its subset. */
    lemma AccSlice(n: nat)
      requires Ready() && n < |rows|
      ensures states[n].accsubstates + states[n].naccsubstates <= accsubstates.Length
      ensures accsubstates[states[n].accsubstates..states[n].accsubstates + states[n].naccsubstates] == AccOf(subs, rows[n].subset)
    {
      Room(n);
      AccInside(subs, rows, n);
      assert rows[..|rows|] == rows;
      assert states[n] == HeadOf(subs, rows, n, withsubstates);
      var a := |AllAcc(subs, rows[..n])|;
      assert accsubstates[..] == AllAcc(subs, rows);
      assert accsubstates[..][a..a + |AccOf(subs, rows[n].subset)|] == AccOf(subs, rows[n].subset);
    }

    lemma SubSliceIs(n: nat)
      requires Ready() && n < |rows| && withsubstates
      ensures states[n].nsubstates == |rows[n].subset| && states[n].substates + states[n].nsubstates <= substates.Length
      ensures substates[states[n].substates..states[n].substates + states[n].nsubstates] == SubOf(subs, rows[n].subset)
    {
      Room(n);
      SubInside(subs, rows, n);
      assert rows[..|rows|] == rows;
      assert states[n] == HeadOf(subs, rows, n, withsubstates);
      var a := |AllSub(subs, rows[..n])|;
      assert substates[..] == AllSub(subs, rows);
      assert substates[..][a..a + |rows[n].subset|] == SubOf(subs, rows[n].subset);
    }

    /** The members of the subset of state `n`, with their kinds and their user data. */
    lemma SubSlice(n: nat)
      requires Ready() && n < |rows| && withsubstates
      ensures states[n].nsubstates == |rows[n].subset| && states[n].substates + states[n].nsubstates <= substates.Length
      ensures forall k :: 0 <= k < |rows[n].subset| ==>
        var u := rows[n].subset[k];
        u < |subs| && substates[states[n].substates + k] == Substate(u, subs[u].kind, subs[u].userdata)
    {
      SubSliceIs(n);
      hide AllTrans, AllAcc, AllSub, HeadsFilled, DfaWords.Complete;
      var a, slice := states[n].substates, SubOf(subs, rows[n].subset);
      forall k | 0 <= k < |rows[n].subset|
        ensures rows[n].subset[k] < |subs| && substates[a + k] == slice[k]
      {
        assert substates[a..a + states[n].nsubstates][k] == substates[a + k];
      }
    }

    /** Without substates there are none. */
    lemma NoSubSlice(n: nat)
      requires Ready() && n < |rows| && !withsubstates
      ensures states[n].substates == states[n].nsubstates == substates.Length == 0
    {
      assert states[n] == HeadOf(subs, rows, n, withsubstates);
    }

    /** The accepting members of the subset of state `n`, those at the places `which` of the subset, with their
        user data. */
    lemma AccSliceEntries(n: nat) returns (which: seq<nat>)
      requires Ready() && n < |rows|
      ensures states[n].naccsubstates == |which| && states[n].accsubstates + |which| <= accsubstates.Length && Ascending(which)
      ensures forall i: nat :: i in which <==> i < |rows[n].subset| && subs[rows[n].subset[i]].kind == AcceptKind
      ensures forall k :: 0 <= k < |which| ==> which[k] < |rows[n].subset|
      ensures forall k :: 0 <= k < |which| ==>
        var u := rows[n].subset[which[k]];
        accsubstates[states[n].accsubstates + k] == Substate(u, AcceptKind, subs[u].userdata)
    {
      AccSlice(n);
      which := AccPlaces(subs, rows[n].subset);
      assert states[n] == HeadOf(subs, rows, n, withsubstates);
      var a := states[n].accsubstates;
      forall k | 0 <= k < |which|
        ensures accsubstates[a + k] == AccOf(subs, rows[n].subset)[k]
      {
        assert accsubstates[a..a + |which|][k] == accsubstates[a + k];
      }
    }

    /** Where the search ends is the one element that fires. */
    lemma SearchEnd(nstate: nat, input: Sym, min: nat)
      requires Ready() && nstate < |rows| && min <= |rows[nstate].trans|
      requires forall a :: 0 <= a < min ==> rows[nstate].trans[a].lowin <= input
      requires forall b :: min <= b < |rows[nstate].trans| ==> input < rows[nstate].trans[b].lowin
      ensures 0 < min && states[nstate].trans + (min - 1) < trans.Length
      ensures trans[states[nstate].trans + (min - 1)].dst == Reachability.Next(rows, nstate, input)
      ensures 0 <= Reachability.Next(rows, nstate, input) < |rows|
    {
      assert DfaWords.RowTotal(rows, nstate);
      var row := rows[nstate].trans;
      var k := PartitionFrom(row, input, 0);
      PartitionDisjoint(row);
      assert k + 1 < |row| ==> row[k].highin < row[k + 1].lowin;
      assert k == min - 1;
      TargetUnique(row, input, k);
      NextTotal(rows, nstate, input);
      RowAt(nstate, k);
    }

    /** The search over a state's slice never falls in front of it, since its first range starts at 0. */
    method Next(nstate: nat, input: Sym) returns (next: nat)
      requires Ready() && nstate < |rows|
      ensures next == Reachability.Next(rows, nstate, input) && next < |rows|
    {
      RowOrder(nstate);
      hide *;
      ghost var row := rows[nstate].trans;
      var min, max := 0, states[nstate].ntrans;
      while max > min
        invariant 0 <= min <= max <= |row|
        invariant forall a :: 0 <= a < min ==> row[a].lowin <= input
        invariant forall b :: max <= b < |row| ==> input < row[b].lowin
      {
        var mid := (min + max) / 2;
        RowAt(nstate, mid);
        if input >= trans[states[nstate].trans + mid].lowin {
          min := mid + 1;
        } else {
          max := mid;
        }
      }
      SearchEnd(nstate, input, min);
      next := trans[states[nstate].trans + (min - 1)].dst;
    }

    lemma RowOrder(n: nat)
      requires Ready() && n < |rows|
      ensures n < states.Length && states[n].ntrans == |rows[n].trans|
      ensures forall a, b :: 0 <= a < b < |rows[n].trans| ==> rows[n].trans[a].lowin <= rows[n].trans[b].lowin
    {
      assert DfaWords.RowTotal(rows, n);
      PartitionDisjoint(rows[n].trans);
      RowAt(n, 0);
    }

    // ---- the prefilter table -------------------------------------------------------------------

    method SetBit(e: nat)
      requires e / 8 < bits.Length
      modifies bits
      ensures forall x: nat :: BitAt(bits[..], x) <==> x == e || BitAt(old(bits[..]), x)
    {
      ghost var was := bits[..];
      bits[e / 8] := bits[e / 8] | Mask(e % 8);
      forall x: nat
        ensures BitAt(bits[..], x) <==> x == e || BitAt(was, x)
      {
        SetMask(was[e / 8], e % 8, x % 8);
      }
    }

    /** Marks what one symbol of residue `cur` leads to: the block of state `next` one level down, or the
        entry itself at the last level. */
    method MarkResidue(next: nat, level: nat, hbits: nat, entry: nat, cur: nat, ghost block: nat)
      requires Ready() && next < |rows|
      requires var m := Pow2(hbits); cur < m <= 0x1000_0000 && entry == block * m && (block + 1) * Pow(m, level + 1) <= bits.Length * 8
      modifies bits
      ensures Grows(old(bits[..]), bits[..])
      ensures ResidueMarked(rows, bits[..], next, level + 1, entry, Pow2(hbits), cur)
      ensures forall e: nat :: BitAt(bits[..], e) && !BitAt(old(bits[..]), e) ==>
        ResidueEntry(rows, next, level + 1, entry, Pow2(hbits), cur, e)
      decreases level, 0
    {
      hide Pow, Pow2, Live, EntryOf, ResidueMarked, AllMarked, ResidueEntry, LooseEntry, BitAt;
      ghost var was := bits[..];
      ghost var m := Pow2(hbits);
      BlockFits(block, m, cur, level, bits.Length * 8);
      if level > 0 {
        var below := entry + cur;
        StateHash(next, level - 1, hbits, below * Pow2(hbits), below);
        MarkedBelow(rows, bits[..], next, level, entry, m, cur);
        EntriesBehind(rows, was, bits[..], next, level, entry, m, cur);
      } else {
        SetBit(entry + cur);
        MarkedHere(rows, bits[..], next, entry, m, cur);
        EntryHere(rows, next, entry, m, cur);
      }
    }

    /** Sets a bit for every row of `level + 1` symbols that does not rule out a match from `state`, and no bit
        but for loose ones; no bit is ever cleared. */
    method StateHash(state: nat, level: nat, hbits: nat, entry: nat, ghost block: nat)
      requires Ready() && state < |rows|
      requires var m := Pow2(hbits); m <= 0x1000_0000 && entry == block * m && (block + 1) * Pow(m, level + 1) <= bits.Length * 8
      modifies bits
      ensures Grows(old(bits[..]), bits[..])
      ensures AllMarked(rows, bits[..], state, level + 1, entry, Pow2(hbits))
      ensures forall e: nat :: BitAt(bits[..], e) && !BitAt(old(bits[..]), e) ==>
        LooseEntry(rows, state, level + 1, entry, Pow2(hbits), e)
      decreases level, 2
    {
      hide Pow, Live, EntryOf, ResidueMarked, Pow2, LooseEntry, ResidueEntry, RangeEntry, BitAt, AllTrans, AllAcc, AllSub;
      ghost var was := bits[..];
      var m := Pow2(hbits);
      assert states[state] == HeadOf(subs, rows, state, withsubstates);
      if states[state].kind == AcceptKind {
        var cur := 0;
        while cur < m
          invariant 0 <= cur <= m && Ready() && Grows(old(bits[..]), bits[..])
          invariant ResiduesMarked(rows, bits[..], state, level + 1, entry, m, cur)
          invariant forall e: nat :: BitAt(bits[..], e) && !BitAt(was, e) ==> LooseEntry(rows, state, level + 1, entry, m, e)
        {
          ghost var before := bits[..];
          MarkResidue(state, level, hbits, entry, cur, block);
          KeptBelow(rows, before, bits[..], state, level + 1, entry, m, cur);
          forall e: nat | BitAt(bits[..], e) && !BitAt(was, e)
            ensures LooseEntry(rows, state, level + 1, entry, m, e)
          {
            if !BitAt(before, e) { AcceptEntry(rows, state, level + 1, entry, m, cur, e); }
          }
          cur := cur + 1;
        }
        AcceptMarked(rows, bits[..], state, level + 1, entry, m);
      } else {
        ghost var row := rows[state].trans;
        for k := 0 to states[state].ntrans
          invariant Ready() && Grows(old(bits[..]), bits[..])
          invariant RowMarked(rows, bits[..], row, level + 1, entry, m, k)
          invariant forall e: nat :: BitAt(bits[..], e) && !BitAt(was, e) ==> LooseEntry(rows, state, level + 1, entry, m, e)
        {
          RowAt(state, k);
          var t := trans[states[state].trans + k];
          if t.dst != 0 {
            ghost var before := bits[..];
            MarkRange(t, level, hbits, entry, block) by {
              assert RowTotal(rows, state);
            }
            RowMarkedKept(rows, before, bits[..], row, level + 1, entry, m, k);
            forall e: nat | BitAt(bits[..], e) && !BitAt(was, e)
              ensures LooseEntry(rows, state, level + 1, entry, m, e)
            {
              if !BitAt(before, e) { RowEntry(rows, state, row[k], level + 1, entry, m, e); }
            }
          }
        }
        RowIsEnough(rows, bits[..], state, level + 1, entry, m);
      }
    }

    /** All residues of the symbols of one range, at most one round of them. The counter wraps behind the
        largest symbol. */
    method MarkRange(t: Transition, level: nat, hbits: nat, entry: nat, ghost block: nat)
      requires Ready() && 0 <= t.dst < |rows| && t.lowin <= t.highin
      requires var m := Pow2(hbits); m <= 0x1000_0000 && entry == block * m && (block + 1) * Pow(m, level + 1) <= bits.Length * 8
      modifies bits
      ensures Grows(old(bits[..]), bits[..])
      ensures RangeMarked(rows, bits[..], t, level + 1, entry, Pow2(hbits))
      ensures forall e: nat :: BitAt(bits[..], e) && !BitAt(old(bits[..]), e) ==>
        RangeEntry(rows, t, level + 1, entry, Pow2(hbits), e)
      decreases level, 1
    {
      hide Pow, Live, EntryOf, ResidueMarked, RoundMarked, Pow2, Counter, Offset, ResidueEntry, BitAt;
      ghost var was := bits[..];
      var m := Pow2(hbits);
      var in_: Sym := t.lowin;
      ghost var n := 0;
      RoundStart(rows, bits[..], t, level + 1, entry, m);
      CounterStep(t.lowin, t.highin, 0, m);
      while in_ <= t.highin && Offset(in_, t.lowin) < m
        invariant n <= m && in_ == Counter(t.lowin, n) && (t.highin == CHAR_MAX || t.lowin + n <= t.highin + 1)
        invariant forall e: nat :: BitAt(bits[..], e) && !BitAt(was, e) ==> RangeEntry(rows, t, level + 1, entry, m, e)
        invariant Ready() && Grows(old(bits[..]), bits[..])
        invariant RoundMarked(rows, bits[..], t, level + 1, entry, m, n)
        decreases m - n
      {
        CounterStep(t.lowin, t.highin, n, m);
        ghost var before := bits[..];
        CounterInside(t, n, in_);
        MarkResidue(t.dst, level, hbits, entry, in_ % m, block);
        RoundKept(rows, before, bits[..], t, level + 1, entry, m, n, in_);
        n := n + 1;
        in_ := Counter(in_, 1);
      }
      CounterStep(t.lowin, t.highin, n, m);
      RoundIsEnough(rows, bits[..], t, level + 1, entry, m, n);
    }

    /** A table of one bit per value of the hash of `hbytes` symbols, `hbits` bits each. Its memory is not
        cleared first. Sizes below one byte and above 2^27 bits are refused; the check subtracts in
        unsigned arithmetic. */
    method Hash(hbytes: nat, hbits: nat) returns (r: int)
      requires Ready() && hbytes * hbits < 0x1_0000_0000
      modifies this
      ensures r == if 3 <= hbytes * hbits <= 27 then 0 else -1
      ensures r == 0 ==> fresh(bits) && this.hbytes == hbytes && this.hbits == hbits && bits.Length * 8 == Pow2(hbytes * hbits)
      ensures r == 0 ==> LetsMatchesThrough(rows, bits[..], hbytes, Pow2(hbits))
      ensures r == -1 ==> unchanged(this)
      ensures Ready()
    {
      if (hbytes * hbits - 3) % 0x1_0000_0000 > 24 {
        return -1;
      }
      TableSize(hbytes, hbits);
      this.hbytes := hbytes;
      this.hbits := hbits;
      this.hsize := Pow2(hbytes * hbits) / 8;
      bits := new bv8[hsize];
      StateHash(1, hbytes - 1, hbits, 0, 0);
      MarkedLetsThrough(rows, bits[..], hbytes, Pow2(hbits));
      r := 0;
    }
  }

  lemma {:induction false} AccOfPrefix(subs: seq<Substate>, subset: seq<nat>, k: nat)
    requires Below(subset, |subs|) && k <= |subset|
    ensures |AccOf(subs, subset[..k])| <= |AccOf(subs, subset)|
    decreases |subset|
  {
    if k < |subset| {
      AccOfPrefix(subs, subset[..|subset| - 1], k);
      assert subset[..|subset| - 1][..k] == subset[..k];
    } else {
      assert subset[..k] == subset;
    }
  }

  /** The flat form of a DFA; the four counters end exactly at the sizes of the arrays. */
  method ToDfa(db: RexDb, withsubstates: bool) returns (dfa: RexDfa)
    requires AllKnown(db.substates, db.states)
    ensures fresh(dfa) && fresh(dfa.states) && fresh(dfa.trans) && fresh(dfa.accsubstates) && fresh(dfa.substates)
    ensures dfa.rows == db.states && dfa.subs == db.substates && dfa.withsubstates == withsubstates
    ensures dfa.Shaped() && dfa.Filled(|db.states|) && dfa.BitsApart()
  {
    var ntrans := NumTransitions(db.states);
    var nacc := NumAccSubstates(db.substates, db.states);
    var nsub := NumSubstates(db.substates, db.states);
    dfa := new RexDfa(|db.states|, ntrans, nacc, if withsubstates then nsub else 0, withsubstates, db.states, db.substates);
    var ctx := Context(0, 0, 0, 0);
    for i := 0 to |db.states|
      invariant dfa.BitsApart() && db.states == old(db.states) && db.substates == old(db.substates)
      invariant ctx == dfa.ContextAt(i) && dfa.Filled(i)
    {
      ctx := dfa.FillDfaState(db.substates, ctx, db.states[i]);
    }
    assert dfa.rows[..|dfa.rows|] == dfa.rows;
    assert ctx == Context(dfa.states.Length, dfa.trans.Length, dfa.accsubstates.Length, dfa.substates.Length);
  }
}
