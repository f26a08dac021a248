/** Runs of a complete DFA over words: the dead state, and the words a prefilter must let through. */
module DfaWords {
  import opened Arithmetic
  import opened Automata
  import opened Transitions
  import opened Subsets
  import opened Reachability
  import opened Symbols

  ghost predicate RowTotal(rows: seq<State>, k: nat)
    requires k < |rows|
  {
    && Partition(rows[k].trans)
    && forall m :: 0 <= m < |rows[k].trans| ==>
         0 <= rows[k].trans[m].dst < |rows| && (k == 0 ==> rows[k].trans[m].dst == 0)
  }

  /** Every state sends every symbol somewhere, nothing leaves state 0, which alone is dead, and the start
      state 1 does not accept. */
  ghost predicate Complete(rows: seq<State>) {
    && |rows| >= 2 && rows[0].kind == DeadKind && rows[1].kind == StartKind
    && (forall k :: 1 <= k < |rows| ==> rows[k].kind != DeadKind)
    && forall k :: 0 <= k < |rows| ==> RowTotal(rows, k)
  }

  lemma CompleteDfa(nfa: seq<State>, start: nat, dfa: seq<State>)
    requires DfaOf(nfa, start, dfa)
    ensures Complete(dfa)
  {
    forall k | 0 <= k < |dfa|
      ensures RowTotal(dfa, k)
    {
      assert RowOk(nfa, dfa, k);
      forall m | 0 <= m < |dfa[k].trans|
        ensures 0 <= dfa[k].trans[m].dst < |dfa| && (k == 0 ==> dfa[k].trans[m].dst == 0)
      {
        var c := dfa[k].trans[m].lowin;
        assert Fires(dfa[k].trans[m], c);
        if k == 0 {
          assert SetOf(dfa[0].subset) == {};
          assert MoveSet(nfa, {}, c) == {};
          assert StepSet(nfa, {}, c) == {};
        }
      }
    }
  }

  lemma NextTotal(rows: seq<State>, d: nat, c: Sym)
    requires Complete(rows) && d < |rows|
    ensures 0 <= Next(rows, d, c) < |rows|
    ensures d == 0 ==> Next(rows, d, c) == 0
  {
    assert RowTotal(rows, d);
    var k := PartitionFrom(rows[d].trans, c, 0);
    PartitionDisjoint(rows[d].trans);
    TargetUnique(rows[d].trans, c, k);
  }

  ghost function DfaLanguage(rows: seq<State>): iset<Word> {
    iset w: Word | w != [] && DfaAccepts(rows, w)
  }

  ghost function NfaLanguage(nfa: seq<State>, start: nat): iset<Word> {
    iset w: Word | w != [] && Accepts(nfa, start, w)
  }

  lemma {:induction false} AfterTotal(rows: seq<State>, w: Word)
    requires Complete(rows)
    ensures 0 <= After(rows, w) < |rows|
    decreases |w|
  {
    if w != [] {
      AfterTotal(rows, w[..|w| - 1]);
      NextTotal(rows, After(rows, w[..|w| - 1]), w[|w| - 1]);
    }
  }

  lemma {:induction false} DeadStays(rows: seq<State>, w: Word, n: nat)
    requires Complete(rows) && n <= |w| && After(rows, w[..n]) == 0
    ensures After(rows, w) == 0
    decreases |w| - n
  {
    if n < |w| {
      DeadStays(rows, w[..|w| - 1], n) by {
        assert w[..|w| - 1][..n] == w[..n];
      }
      NextTotal(rows, 0, w[|w| - 1]);
    } else {
      assert w[..n] == w;
    }
  }

  /** Once dead, no longer prefix matches. */
  lemma DeadLongest(rows: seq<State>, w: Word, n: nat, best: nat)
    requires Complete(rows) && n <= |w| && After(rows, w[..n]) == 0
    requires best < n || best == 0
    requires best > 0 ==> w[..best] in DfaLanguage(rows)
    requires forall k :: best < k < n ==> w[..k] !in DfaLanguage(rows)
    ensures best == Longest(DfaLanguage(rows), w)
  {
    forall k | best < k <= |w|
      ensures w[..k] !in DfaLanguage(rows)
    {
      if n <= k {
        assert w[..k][..n] == w[..n];
        DeadStays(rows, w[..k], n);
      }
    }
    LongestUnique(DfaLanguage(rows), w, best);
  }

  // ---- the prefilter ---------------------------------------------------------------------------

  function AfterFrom(rows: seq<State>, d: int, w: Word): int
    decreases |w|
  {
    if w == [] then d else AfterFrom(rows, Next(rows, d, w[0]), w[1..])
  }

  lemma {:induction false} AfterFromSnoc(rows: seq<State>, d: int, w: Word, c: Sym)
    ensures AfterFrom(rows, d, w + [c]) == Next(rows, AfterFrom(rows, d, w), c)
    decreases |w|
  {
    if w != [] {
      assert (w + [c])[1..] == w[1..] + [c];
      AfterFromSnoc(rows, Next(rows, d, w[0]), w[1..], c);
    } else {
      assert (w + [c])[1..] == [];
    }
  }

  lemma {:induction false} AfterIsAfterFrom(rows: seq<State>, w: Word)
    ensures After(rows, w) == AfterFrom(rows, 1, w)
    decreases |w|
  {
    if w != [] {
      AfterIsAfterFrom(rows, w[..|w| - 1]);
      AfterFromSnoc(rows, 1, w[..|w| - 1], w[|w| - 1]);
      assert w == w[..|w| - 1] + [w[|w| - 1]];
    }
  }

  /** From state `d` the symbols `x` do not rule out a match: an accepting state is met, or none of them
      leads to the dead state. */
  ghost predicate Live(rows: seq<State>, d: int, x: Word)
    decreases |x|
  {
    0 <= d < |rows| &&
    (rows[d].kind == AcceptKind || (x != [] && Next(rows, d, x[0]) != 0 && (|x| == 1 || Live(rows, Next(rows, d, x[0]), x[1..]))))
  }

  lemma {:induction false} DeadForever(rows: seq<State>, w: Word)
    requires Complete(rows)
    ensures AfterFrom(rows, 0, w) == 0
    decreases |w|
  {
    if w != [] {
      NextTotal(rows, 0, w[0]);
      DeadForever(rows, w[1..]);
    }
  }

  /** `x` starts like `v` as far as both go. */
  predicate AgreeOnCommon(x: Word, v: Word) {
    forall k :: 0 <= k < |x| && k < |v| ==> x[k] == v[k]
  }

  lemma {:induction false} LiveOfMatch(rows: seq<State>, d: nat, x: Word, v: Word)
    requires Complete(rows) && d < |rows| && x != [] && AgreeOnCommon(x, v)
    requires 0 <= AfterFrom(rows, d, v) < |rows| && rows[AfterFrom(rows, d, v)].kind == AcceptKind
    ensures Live(rows, d, x)
    decreases |x|
  {
    if rows[d].kind != AcceptKind {
      NextTotal(rows, d, v[0]);
      DeadForever(rows, v[1..]);
      assert x[0] == v[0];
      if |x| > 1 {
        assert AgreeOnCommon(x[1..], v[1..]) by {
          forall k | 0 <= k < |x| - 1 && k < |v| - 1
            ensures x[1..][k] == v[1..][k]
          {
            assert x[k + 1] == v[k + 1];
          }
        }
        LiveOfMatch(rows, Next(rows, d, v[0]), x[1..], v[1..]);
      }
    }
  }

  /** Symbol `k` of the input, zero behind its end. */
  function Padded(w: Word, k: nat): Sym {
    if k < |w| then w[k] else 0
  }

  function PadTo(w: Word, n: nat): (r: Word)
    ensures |r| == n
  {
    seq(n, k requires 0 <= k < n => Padded(w, k))
  }

  /** The rolling hash of the first `n` symbols: `m` values per symbol, the latest in the low digits. */
  function HashOf(w: Word, n: nat, m: nat): nat
    requires m > 0
  {
    if n == 0 then 0 else HashOf(w, n - 1, m) * m + Padded(w, n - 1) % m
  }

  /** The table entry that the recursion reaches from `entry` through the symbols `x`. */
  function EntryOf(entry: nat, x: Word, m: nat): nat
    requires m > 0 && x != []
    decreases |x|
  {
    if |x| == 1 then entry + x[0] % m else EntryOf((entry + x[0] % m) * m, x[1..], m)
  }

  lemma {:induction false} EntryIsHash(entry: nat, w: Word, k: nat, x: Word, m: nat)
    requires m > 0 && x != [] && entry == HashOf(w, k, m) * m
    requires forall i :: 0 <= i < |x| ==> x[i] == Padded(w, k + i)
    ensures EntryOf(entry, x, m) == HashOf(w, k + |x|, m)
    decreases |x|
  {
    assert x[0] == Padded(w, k);
    assert entry + x[0] % m == HashOf(w, k + 1, m);
    if |x| > 1 {
      forall i | 0 <= i < |x[1..]|
        ensures x[1..][i] == Padded(w, k + 1 + i)
      {
        assert x[i + 1] == Padded(w, k + (i + 1));
      }
      EntryIsHash((entry + x[0] % m) * m, w, k + 1, x[1..], m);
    }
  }

  function Pow(m: nat, n: nat): (r: nat)
    ensures m > 0 ==> r > 0
  {
    if n == 0 then 1 else m * Pow(m, n - 1)
  }

  /** The entries below `entry` at `level` more symbols fill the block of `m^(level + 1)` entries. */
  lemma {:induction false} EntryBelow(entry: nat, x: Word, m: nat, block: nat)
    requires m > 0 && x != [] && entry == block * m
    ensures block * Pow(m, |x|) <= EntryOf(entry, x, m) < (block + 1) * Pow(m, |x|)
    decreases |x|
  {
    var d := x[0] % m;
    assert Pow(m, 1) == m;
    if |x| == 1 {
      assert (block + 1) * m == block * m + m;
    } else {
      EntryBelow((entry + d) * m, x[1..], m, entry + d);
      var p := Pow(m, |x| - 1);
      assert Pow(m, |x|) == m * p;
      BlockBounds(block, m, d, p);
    }
  }

  lemma BlockBounds(block: nat, m: nat, d: nat, p: nat)
    requires d < m
    ensures block * (m * p) <= (block * m + d) * p
    ensures (block * m + d + 1) * p <= (block + 1) * (m * p)
  {
    MulAssoc(block, m, p);
    MulDist(block * m, d, p);
    MulDist(block * m, d + 1, p);
    MulDist(block, 1, m * p);
    MulMono(d + 1, m, p);
  }

  lemma DigitBelow(h: nat, p: nat, m: nat, d: nat)
    requires h < p && d < m
    ensures h * m + d < m * p
  {
    MulMono(h + 1, p, m);
    MulDist(h, 1, m);
  }

  lemma {:induction false} HashBelow(w: Word, n: nat, m: nat)
    requires m > 0
    ensures HashOf(w, n, m) < Pow(m, n)
  {
    if n > 0 {
      HashBelow(w, n - 1, m);
      DigitBelow(HashOf(w, n - 1, m), Pow(m, n - 1), m, Padded(w, n - 1) % m);
    }
  }

  /** The first symbol is the top digit of the hash. */
  lemma {:induction false} HashSplit(w: Word, n: nat, m: nat)
    requires m > 0 && n > 0 && w != []
    ensures HashOf(w, n, m) == w[0] % m * Pow(m, n - 1) + HashOf(w[1..], n - 1, m)
  {
    if n == 1 {
      assert HashOf(w, 0, m) == 0;
      assert HashOf(w[1..], 0, m) == 0;
      assert Pow(m, 0) == 1;
    } else {
      HashSplit(w, n - 1, m);
      assert Padded(w, n - 1) == Padded(w[1..], n - 2);
      var t, p, h := w[0] % m, Pow(m, n - 2), HashOf(w[1..], n - 2, m);
      MulDist(t * p, h, m);
      MulAssoc(t, p, m);
      assert p * m == Pow(m, n - 1);
    }
  }

  /** Shifting in the next symbol and cutting to `n` digits drops the first one. */
  lemma HashShift(w: Word, n: nat, m: nat)
    requires m > 0 && n > 0 && w != []
    ensures (HashOf(w, n, m) * m + Padded(w, n) % m) % Pow(m, n) == HashOf(w[1..], n, m)
  {
    HashSplit(w, n + 1, m);
    HashBelow(w[1..], n, m);
    ModUnique(HashOf(w, n + 1, m), w[0] % m, HashOf(w[1..], n, m), Pow(m, n));
  }
}
