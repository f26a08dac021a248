/** Looking for matches in a buffer: the naive specification, the matcher over the flat DFA, and what
    keeps the rolling hash in step with the input. */
module Scanning {
  import opened Arithmetic
  import opened Automata
  import opened Subsets
  import opened Reachability
  import opened Symbols
  import opened DfaWords
  import opened FlatDfa

  datatype ScanResult = NotFound | Found(where: nat, length: nat)

  /** Try the matcher at every symbol boundary from byte `i` on. */
  ghost function Scan(lang: iset<Word>, enc: Encoding, b: seq<byte>, i: nat): (r: ScanResult)
    decreases |b| - i
  {
    if i >= |b| then NotFound
    else if MatchBytes(lang, enc, b, i) > 0 then Found(i, MatchBytes(lang, enc, b, i))
    else Scan(lang, enc, b, i + Read(enc, b, i).1)
  }

  lemma ScanStep(lang: iset<Word>, enc: Encoding, b: seq<byte>, i: nat)
    requires i < |b|
    ensures Scan(lang, enc, b, i) ==
            if MatchBytes(lang, enc, b, i) > 0 then Found(i, MatchBytes(lang, enc, b, i)) else Scan(lang, enc, b, i + Read(enc, b, i).1)
  {
    hide Read;
  }

  /** The result is the leftmost boundary with a match, and there is none if no boundary matches. */
  lemma {:induction false} ScanLeftmost(lang: iset<Word>, enc: Encoding, b: seq<byte>, i: nat, n: nat)
    requires i <= |b| && n < |Tail(enc, b, i)|
    requires MatchBytes(lang, enc, b, i + Width(enc, b, i, n)) > 0
    ensures Scan(lang, enc, b, i).Found?
    ensures Scan(lang, enc, b, i).where <= i + Width(enc, b, i, n)
    ensures Scan(lang, enc, b, i).length == MatchBytes(lang, enc, b, Scan(lang, enc, b, i).where)
    decreases n
  {
    hide Read;
    if MatchBytes(lang, enc, b, i) == 0 {
      ScanLeftmost(lang, enc, b, i + Read(enc, b, i).1, n - 1);
    }
  }

  lemma {:induction false} ScanIsBoundary(lang: iset<Word>, enc: Encoding, b: seq<byte>, i: nat) returns (n: nat)
    requires i <= |b| && Scan(lang, enc, b, i).Found?
    ensures n < |Tail(enc, b, i)| && Scan(lang, enc, b, i).where == i + Width(enc, b, i, n)
    ensures Scan(lang, enc, b, i).length == MatchBytes(lang, enc, b, Scan(lang, enc, b, i).where) > 0
    decreases |b| - i
  {
    hide Read;
    if MatchBytes(lang, enc, b, i) > 0 {
      n := 0;
    } else {
      n := ScanIsBoundary(lang, enc, b, i + Read(enc, b, i).1);
      n := n + 1;
    }
  }

  // ---- the rolling hash ------------------------------------------------------------------------

  lemma {:induction false} WidthStep(enc: Encoding, b: seq<byte>, i: nat, n: nat)
    requires i <= |b|
    ensures i + Width(enc, b, i, n) <= |b|
    ensures Width(enc, b, i, n + 1) == Width(enc, b, i, n) + Read(enc, b, i + Width(enc, b, i, n)).1
    ensures Padded(Tail(enc, b, i), n) ==
            if i + Width(enc, b, i, n) < |b| then Read(enc, b, i + Width(enc, b, i, n)).0 else 0
    decreases n
  {
    hide Read;
    if i < |b| {
      var inc := Read(enc, b, i).1;
      if n == 0 {
        assert Width(enc, b, i, 0) == 0;
        assert Width(enc, b, i + inc, 0) == 0;
        assert Width(enc, b, i, 1) == inc;
      } else {
        WidthStep(enc, b, i + inc, n - 1);
        assert Padded(Tail(enc, b, i), n) == Padded(Tail(enc, b, i + inc), n - 1);
      }
    } else {
      assert Read(enc, b, i).1 == 0;
    }
  }

  /** `shifter` is the hash of the `n` symbols from `input` on, and `nextshift` is the byte behind them. */
  ghost predicate InStep(enc: Encoding, b: seq<byte>, input: nat, nextshift: nat, shifter: nat, n: nat, m: nat)
    requires m > 0
  {
    && input <= |b|
    && nextshift == input + Width(enc, b, input, n)
    && shifter == HashOf(Tail(enc, b, input), n, m)
  }

  /** The symbol read next: zero behind the end, where reading does not move on. */
  ghost function NextSymbol(enc: Encoding, b: seq<byte>, i: nat): Sym {
    if i < |b| then Read(enc, b, i).0 else 0
  }

  lemma InStepNext(enc: Encoding, b: seq<byte>, input: nat, nextshift: nat, shifter: nat, n: nat, m: nat)
    requires m > 0 && n > 0 && input < |b| && InStep(enc, b, input, nextshift, shifter, n, m)
    ensures InStep(enc, b, input + Read(enc, b, input).1, nextshift + Read(enc, b, nextshift).1,
              (shifter * m + NextSymbol(enc, b, nextshift) % m) % Pow(m, n), n, m)
    ensures nextshift <= |b|
  {
    hide Read, HashOf, Pow;
    WidthStep(enc, b, input, n);
    var w := Tail(enc, b, input);
    assert w[1..] == Tail(enc, b, input + Read(enc, b, input).1);
    HashShift(w, n, m);
  }

  /** While the reader has not met the end, neither has the input. */
  lemma InStepOrder(enc: Encoding, b: seq<byte>, input: nat, nextshift: nat, shifter: nat, n: nat, m: nat)
    requires m > 0 && InStep(enc, b, input, nextshift, shifter, n, m)
    ensures input <= nextshift <= |b|
    ensures n > 0 && input < |b| ==> input < nextshift
  {
    hide Read, HashOf;
    WidthStep(enc, b, input, n);
  }

  lemma InStepGrow(enc: Encoding, b: seq<byte>, input: nat, nextshift: nat, shifter: nat, n: nat, m: nat)
    requires m > 0 && InStep(enc, b, input, nextshift, shifter, n, m)
    ensures InStep(enc, b, input, nextshift + Read(enc, b, nextshift).1, shifter * m + NextSymbol(enc, b, nextshift) % m, n + 1, m)
  {
    hide Read;
    WidthStep(enc, b, input, n);
  }

  lemma InStepStart(enc: Encoding, b: seq<byte>, input: nat, m: nat)
    requires m > 0
    ensures input <= |b| ==> InStep(enc, b, input, input, 0, 0, m)
  {
  }

  lemma InStepMask(enc: Encoding, b: seq<byte>, input: nat, nextshift: nat, shifter: nat, n: nat, m: nat)
    requires m > 0 && InStep(enc, b, input, nextshift, shifter, n, m)
    ensures shifter % Pow(m, n) == shifter
  {
    hide Read;
    HashBelow(Tail(enc, b, input), n, m);
    ModUnique(shifter, 0, shifter, Pow(m, n));
  }

  /** Shifts `count` symbols into the hash of `n`; behind the end of the buffer it shifts in zeros. */
  method Shift(enc: Encoding, b: seq<byte>, shifter0: nat, count: nat, n: nat, hbits: nat, nextshift0: nat) returns (shifter: nat, nextshift: nat)
    ensures count == 1 ==> nextshift == nextshift0 + Read(enc, b, nextshift0).1 &&
                           shifter == (shifter0 * Pow2(hbits) + NextSymbol(enc, b, nextshift0) % Pow2(hbits)) % Pow(Pow2(hbits), n)
    ensures count == n && shifter0 == 0 && nextshift0 <= |b| ==> InStep(enc, b, nextshift0, nextshift, shifter, n, Pow2(hbits))
  {
    hide Read, Pow2, Pow, InStep;
    shifter, nextshift := shifter0, nextshift0;
    var m := Pow2(hbits);
    InStepStart(enc, b, nextshift0, m);
    for i := 0 to count
      invariant i == 0 ==> shifter == shifter0 && nextshift == nextshift0
      invariant i == 1 ==> nextshift == nextshift0 + Read(enc, b, nextshift0).1 &&
                           shifter == shifter0 * m + NextSymbol(enc, b, nextshift0) % m
      invariant shifter0 == 0 && nextshift0 <= |b| ==> InStep(enc, b, nextshift0, nextshift, shifter, i, m)
    {
      if shifter0 == 0 && nextshift0 <= |b| {
        InStepGrow(enc, b, nextshift0, nextshift, shifter, i, m);
      }
      var wc: Sym := 0;
      if nextshift < |b| {
        var (c, inc) := Read(enc, b, nextshift);
        wc := c;
        nextshift := nextshift + inc;
      }
      shifter := shifter * m;
      shifter := shifter + wc % m;
    }
    if count == n && shifter0 == 0 && nextshift0 <= |b| {
      InStepMask(enc, b, nextshift0, nextshift, shifter, n, m);
    }
    shifter := shifter % Pow(m, n);
  }

  // ---- the matcher -----------------------------------------------------------------------------

  /** The DFA has read `n` symbols of `w`; `best` of them are the longest match so far. */
  ghost predicate Progress(rows: seq<State>, w: Word, n: nat, best: nat, nstate: int) {
    && best <= n <= |w|
    && nstate == After(rows, w[..n])
    && (best > 0 ==> w[..best] in DfaLanguage(rows))
    && forall k :: best < k <= n ==> w[..k] !in DfaLanguage(rows)
  }

  lemma ProgressStep(rows: seq<State>, w: Word, n: nat, best: nat, nstate: nat)
    requires DfaWords.Complete(rows) && Progress(rows, w, n, best, nstate) && n < |w| && nstate < |rows|
    ensures var next := Reachability.Next(rows, nstate, w[n]);
      && 0 <= next < |rows|
      && Progress(rows, w, n + 1, if rows[next].kind == AcceptKind then n + 1 else best, next)
  {
    NextTotal(rows, nstate, w[n]);
    AfterSnoc(rows, w[..n], w[n]);
    assert w[..n + 1] == w[..n] + [w[n]];
  }

  lemma ProgressDone(rows: seq<State>, w: Word, n: nat, best: nat, nstate: nat)
    requires DfaWords.Complete(rows) && Progress(rows, w, n, best, nstate) && (n == |w| || nstate == 0)
    ensures best == Longest(DfaLanguage(rows), w)
  {
    if n == |w| {
      LongestUnique(DfaLanguage(rows), w, best);
    } else {
      DeadLongest(rows, w, n, best);
    }
  }

  /** The matcher stands at byte `input`, `n` symbols behind `start`, and `ret` bytes are matched so far. */
  ghost predicate InMatch(rows: seq<State>, enc: Encoding, b: seq<byte>, start: nat, n: nat, best: nat, nstate: nat, input: nat, ret: nat) {
    var w := Tail(enc, b, start);
    n <= |w| && nstate < |rows| && Progress(rows, w, n, best, nstate) && input == start + Width(enc, b, start, n) <= |b|
    && (n < |w| <==> input < |b|) && ret == Width(enc, b, start, best)
  }

  lemma InMatchStart(rows: seq<State>, enc: Encoding, b: seq<byte>, start: nat)
    requires start <= |b| && |rows| > 1
    ensures InMatch(rows, enc, b, start, 0, 0, 1, start, 0)
  {
    WidthTail(enc, b, start, 0);
    ProgressStart(rows, Tail(enc, b, start));
  }

  /** One symbol further: the match goes on, or it is over and `ret` is the result. */
  lemma InMatchNext(rows: seq<State>, enc: Encoding, b: seq<byte>, start: nat, n: nat, best: nat, nstate: nat, input: nat, ret: nat)
    requires DfaWords.Complete(rows) && start <= |b| && InMatch(rows, enc, b, start, n, best, nstate, input, ret) && input < |b|
    ensures var (wc, inc) := Read(enc, b, input);
      var next := Reachability.Next(rows, nstate, wc);
      0 <= next < |rows|
      && if next == 0 then rows[0].kind == AcceptKind || ret == MatchBytes(DfaLanguage(rows), enc, b, start)
         else if rows[next].kind == AcceptKind then InMatch(rows, enc, b, start, n + 1, n + 1, next, input + inc, input + inc - start)
         else InMatch(rows, enc, b, start, n + 1, best, next, input + inc, ret)
  {
    hide Read, Progress, DfaLanguage, Tail, Width;
    var w := Tail(enc, b, start);
    WidthTail(enc, b, start, n);
    ProgressStep(rows, w, n, best, nstate);
    WidthTail(enc, b, start, n + 1);
    var next := Reachability.Next(rows, nstate, w[n]);
    if next == 0 && rows[0].kind != AcceptKind { ProgressDone(rows, w, n + 1, best, next); }
  }

  lemma InMatchDone(rows: seq<State>, enc: Encoding, b: seq<byte>, start: nat, n: nat, best: nat, nstate: nat, input: nat, ret: nat)
    requires DfaWords.Complete(rows) && InMatch(rows, enc, b, start, n, best, nstate, input, ret) && input >= |b|
    ensures ret == MatchBytes(DfaLanguage(rows), enc, b, start)
  {
    hide Progress, DfaLanguage, Tail, Width;
    ProgressDone(rows, Tail(enc, b, start), n, best, nstate);
  }

  /** Runs the DFA from byte `start` and remembers the last accepting position. */
  method DfaMatch(dfa: RexDfa, enc: Encoding, b: seq<byte>, start: nat) returns (ret: nat)
    requires dfa.Ready() && start <= |b|
    ensures ret == MatchBytes(DfaLanguage(dfa.rows), enc, b, start)
  {
    hide Read, InMatch, MatchBytes, DfaLanguage;
    ret := 0;
    var nstate := 1;
    var input := start;
    ghost var n, best := 0, 0;
    InMatchStart(dfa.rows, enc, b, start);
    while input < |b|
      invariant nstate < |dfa.rows| && InMatch(dfa.rows, enc, b, start, n, best, nstate, input, ret)
      decreases |b| - input
    {
      var (wc, inc) := Read(enc, b, input);
      InMatchNext(dfa.rows, enc, b, start, n, best, nstate, input, ret);
      nstate := dfa.Next(nstate, wc);
      n := n + 1;
      dfa.KindAt(nstate);
      if nstate == 0 { return; }
      input := input + inc;
      if dfa.states[nstate].kind == AcceptKind {
        ret := input - start;
        best := n;
      }
    }
    InMatchDone(dfa.rows, enc, b, start, n, best, nstate, input, ret);
  }

  lemma ProgressStart(rows: seq<State>, w: Word)
    ensures Progress(rows, w, 0, 0, 1)
  {
  }
}
