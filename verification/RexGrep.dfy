/** All matches in a buffer, by the prefiltered DFA and by the NFA simulator (rexgrep/rexgrep.c). */
module RexGrep {
  import opened Automata
  import opened Subsets
  import opened Reachability
  import opened Symbols
  import opened DfaWords
  import opened FlatDfa
  import opened Scanning
  import opened RexRegex
  import opened Simulators

  const HASH_BYTES: nat := 3
  const HASH_BITS: nat := 7

  datatype Match = Match(where: nat, length: nat)

  /** Leftmost-longest matches that do not overlap, from byte `i` on. */
  ghost function Matches(lang: iset<Word>, b: seq<byte>, i: nat): (r: seq<Match>)
    decreases |b| - i
  {
    if i >= |b| then []
    else
      var n := MatchBytes(lang, Utf8, b, i);
      if n > 0 then [Match(i, n)] + Matches(lang, b, i + n) else Matches(lang, b, i + Read(Utf8, b, i).1)
  }

  lemma MatchesStep(lang: iset<Word>, b: seq<byte>, i: nat)
    requires i < |b|
    ensures i + MatchBytes(lang, Utf8, b, i) <= |b|
    ensures Matches(lang, b, i) ==
      (if MatchBytes(lang, Utf8, b, i) > 0
       then [Match(i, MatchBytes(lang, Utf8, b, i))] + Matches(lang, b, i + MatchBytes(lang, Utf8, b, i))
       else Matches(lang, b, i + Read(Utf8, b, i).1))
  {
    hide Mbtowc;
    WidthTail(Utf8, b, i, Longest(lang, Tail(Utf8, b, i)));
  }

  lemma MatchesEnd(lang: iset<Word>, b: seq<byte>)
    ensures Matches(lang, b, |b|) == []
  {
  }

  /** Reading symbols from byte `i` on comes to byte `j`. */
  ghost predicate Boundary(b: seq<byte>, i: nat, j: nat) {
    exists n: nat :: n < |Tail(Utf8, b, i)| && j == i + Width(Utf8, b, i, n)
  }

  ghost predicate MatchAt(lang: iset<Word>, b: seq<byte>, i: nat, j: nat) {
    Boundary(b, i, j) && MatchBytes(lang, Utf8, b, j) > 0
  }

  ghost predicate AnyMatch(lang: iset<Word>, b: seq<byte>, i: nat) {
    exists j: nat :: MatchAt(lang, b, i, j)
  }

  ghost predicate Covers(out: seq<Match>, j: nat) {
    exists k :: 0 <= k < |out| && out[k].where <= j < out[k].where + out[k].length
  }

  /** Matches of full length that do not overlap, in order, and every boundary with a match lies inside one. */
  ghost predicate AllMatches(lang: iset<Word>, b: seq<byte>, i: nat, out: seq<Match>) {
    && (forall m :: m in out ==> MatchAt(lang, b, i, m.where) && m.length == MatchBytes(lang, Utf8, b, m.where))
    && (forall k, m :: 0 <= k < m < |out| ==> out[k].where + out[k].length <= out[m].where)
    && forall j: nat :: MatchAt(lang, b, i, j) ==> Covers(out, j)
  }

  lemma BoundaryStep(b: seq<byte>, i: nat, j: nat)
    requires i < |b|
    ensures Boundary(b, i, j) <==> j == i || Boundary(b, i + Read(Utf8, b, i).1, j)
  {
    hide Read;
    var next := i + Read(Utf8, b, i).1;
    assert Width(Utf8, b, i, 0) == 0;
    if Boundary(b, i, j) {
      var n: nat :| n < |Tail(Utf8, b, i)| && j == i + Width(Utf8, b, i, n);
      assert n > 0 ==> j == next + Width(Utf8, b, next, n - 1);
    }
    if Boundary(b, next, j) {
      var n: nat :| n < |Tail(Utf8, b, next)| && j == next + Width(Utf8, b, next, n);
      assert j == i + Width(Utf8, b, i, n + 1);
    }
  }

  lemma NoBoundary(b: seq<byte>, i: nat, j: nat)
    ensures Boundary(b, i, j) ==> i <= j
    ensures i >= |b| ==> !Boundary(b, i, j)
  {
  }

  /** Behind a boundary the boundaries are those from there. */
  lemma {:induction false} BoundaryBehind(b: seq<byte>, i: nat, n: nat, j: nat)
    requires i <= |b| && n <= |Tail(Utf8, b, i)| && i + Width(Utf8, b, i, n) <= j
    ensures Boundary(b, i, j) <==> Boundary(b, i + Width(Utf8, b, i, n), j)
    decreases n
  {
    hide Read, Boundary;
    if n == 0 {
      assert Width(Utf8, b, i, 0) == 0;
    } else {
      BoundaryStep(b, i, j);
      BoundaryBehind(b, i + Read(Utf8, b, i).1, n - 1, j);
    }
  }

  /** The list the scans build is the list of all matches. */
  lemma {:induction false} MatchesAll(lang: iset<Word>, b: seq<byte>, i: nat)
    ensures AllMatches(lang, b, i, Matches(lang, b, i))
    decreases |b| - i
  {
    hide Read, AllMatches, MatchBytes;
    if i >= |b| {
      NoMatches(lang, b, i);
    } else {
      MatchesStep(lang, b, i);
      var n := MatchBytes(lang, Utf8, b, i);
      if n > 0 {
        MatchesAll(lang, b, i + n);
        FirstMatch(lang, b, i, Matches(lang, b, i + n));
      } else {
        MatchesAll(lang, b, i + Read(Utf8, b, i).1);
        LaterMatches(lang, b, i, Matches(lang, b, i + Read(Utf8, b, i).1));
      }
    }
  }

  lemma NoMatches(lang: iset<Word>, b: seq<byte>, i: nat)
    requires i >= |b|
    ensures AllMatches(lang, b, i, [])
  {
    hide Boundary;
    forall j: nat ensures !MatchAt(lang, b, i, j) { NoBoundary(b, i, j); }
  }

  lemma LaterMatches(lang: iset<Word>, b: seq<byte>, i: nat, out: seq<Match>)
    requires i < |b| && MatchBytes(lang, Utf8, b, i) == 0 && AllMatches(lang, b, i + Read(Utf8, b, i).1, out)
    ensures AllMatches(lang, b, i, out)
  {
    hide Boundary, MatchBytes, Read;
    forall j: nat ensures MatchAt(lang, b, i, j) <==> MatchAt(lang, b, i + Read(Utf8, b, i).1, j) { BoundaryStep(b, i, j); }
  }

  lemma MatchAtBehind(lang: iset<Word>, b: seq<byte>, i: nat, j: nat)
    requires i < |b|
    ensures var n := MatchBytes(lang, Utf8, b, i);
      i + n <= j ==> (MatchAt(lang, b, i, j) <==> MatchAt(lang, b, i + n, j))
    ensures MatchAt(lang, b, i + MatchBytes(lang, Utf8, b, i), j) ==> i + MatchBytes(lang, Utf8, b, i) <= j
    ensures MatchAt(lang, b, i, j) ==> i <= j
  {
    hide Read, Boundary, Tail, Width, Longest;
    var k, n := Longest(lang, Tail(Utf8, b, i)), MatchBytes(lang, Utf8, b, i);
    NoBoundary(b, i, j);
    NoBoundary(b, i + n, j);
    if i + n <= j { BoundaryBehind(b, i, k, j); }
  }

  lemma FirstMatch(lang: iset<Word>, b: seq<byte>, i: nat, rest: seq<Match>)
    requires i < |b| && MatchBytes(lang, Utf8, b, i) > 0 && AllMatches(lang, b, i + MatchBytes(lang, Utf8, b, i), rest)
    ensures AllMatches(lang, b, i, [Match(i, MatchBytes(lang, Utf8, b, i))] + rest)
  {
    hide MatchBytes, Boundary, MatchAt, Covers;
    var n := MatchBytes(lang, Utf8, b, i);
    var out := [Match(i, n)] + rest;
    FirstAt(lang, b, i);
    forall m | m in rest
      ensures i + n <= m.where && MatchAt(lang, b, i, m.where)
    {
      MatchAtBehind(lang, b, i, m.where);
    }
    forall j: nat | MatchAt(lang, b, i, j)
      ensures Covers(out, j)
    {
      MatchAtBehind(lang, b, i, j);
      CoversCons(rest, Match(i, n), j);
    }
  }

  lemma CoversCons(rest: seq<Match>, m: Match, j: nat)
    ensures Covers([m] + rest, j) <==> m.where <= j < m.where + m.length || Covers(rest, j)
  {
    var out := [m] + rest;
    if Covers(rest, j) {
      var k :| 0 <= k < |rest| && rest[k].where <= j < rest[k].where + rest[k].length;
      assert out[k + 1] == rest[k];
    }
    assert out[0] == m;
  }

  lemma FirstAt(lang: iset<Word>, b: seq<byte>, i: nat)
    requires i < |b| && MatchBytes(lang, Utf8, b, i) > 0
    ensures MatchAt(lang, b, i, i)
  {
    hide Read, MatchBytes, Boundary;
    BoundaryStep(b, i, i);
  }

  /** There is only one such list. */
  lemma {:induction false} AllMatchesUnique(lang: iset<Word>, b: seq<byte>, i: nat, a: seq<Match>, c: seq<Match>)
    requires AllMatches(lang, b, i, a) && AllMatches(lang, b, i, c)
    ensures a == c
  {
    hide MatchAt, MatchBytes;
    forall k | 0 <= k < |a| && k < |c|
      ensures a[k] == c[k]
    {
      SameMatch(lang, b, i, a, c, k);
    }
    if |a| <= |c| {
      NothingBehind(lang, b, i, a, c);
    } else {
      NothingBehind(lang, b, i, c, a);
    }
  }

  lemma NotCovered(c: seq<Match>, n: nat)
    requires n < |c| && forall k, m :: 0 <= k < m < |c| ==> c[k].where + c[k].length <= c[m].where
    ensures !Covers(c[..n], c[n].where)
  {
  }

  lemma NothingBehind(lang: iset<Word>, b: seq<byte>, i: nat, a: seq<Match>, c: seq<Match>)
    requires AllMatches(lang, b, i, a) && AllMatches(lang, b, i, c)
    requires |a| <= |c| && a == c[..|a|]
    ensures |a| == |c|
  {
    hide MatchAt, MatchBytes, Covers;
    if |a| < |c| { NotCovered(c, |a|); }
  }

  /** Entry `k` of one covers the start of entry `k` of the other, as the entries before it are the same. */
  lemma {:induction false} SameMatch(lang: iset<Word>, b: seq<byte>, i: nat, a: seq<Match>, c: seq<Match>, k: nat)
    requires AllMatches(lang, b, i, a) && AllMatches(lang, b, i, c) && k < |a| && k < |c|
    ensures a[k] == c[k]
    decreases k
  {
    hide MatchAt, MatchBytes;
    forall m | 0 <= m < k
      ensures a[m] == c[m]
    {
      SameMatch(lang, b, i, a, c, m);
    }
    NotBefore(lang, b, i, a, c, k);
    NotBefore(lang, b, i, c, a, k);
  }

  lemma NotBefore(lang: iset<Word>, b: seq<byte>, i: nat, a: seq<Match>, c: seq<Match>, k: nat)
    requires AllMatches(lang, b, i, a) && AllMatches(lang, b, i, c) && k < |a| && k < |c|
    requires forall m :: 0 <= m < k ==> a[m] == c[m]
    ensures a[k].where <= c[k].where
  {
    hide MatchAt, MatchBytes;
    assert forall m :: 0 <= m < k ==> a[m].where + a[m].length <= c[k].where;
    assert Covers(a, c[k].where);
    var m :| 0 <= m < |a| && a[m].where <= c[k].where < a[m].where + a[m].length;
    assert k < m ==> a[k].where + a[k].length <= a[m].where;
  }

  lemma AnyListed(lang: iset<Word>, b: seq<byte>, i: nat)
    ensures AnyMatch(lang, b, i) <==> Matches(lang, b, i) != []
  {
    hide MatchAt, MatchBytes, Matches;
    MatchesAll(lang, b, i);
    var out := Matches(lang, b, i);
    if out != [] { assert MatchAt(lang, b, i, out[0].where); }
  }

  /** The number of bytes of the last accepted prefix, by stepping the NFA; -1 if no pattern could be loaded. */
  method NfaMatch(si: RexNfaSimulator, nfa: seq<State>, startuid: int, b: seq<byte>, input: nat) returns (ret: int)
    requires ValidNfa(nfa) && startuid < |nfa| && input <= |b|
    modifies si
    ensures ret == if startuid < 0 then -1 else MatchBytes(NfaLanguage(nfa, startuid), Utf8, b, input)
  {
    if startuid < 0 {
      return -1;
    }
    var n := si.Run(nfa, startuid, b, input);
    LastRecord(NfaLanguage(nfa, startuid), b, input, si.accepts);
    ret := 0;
    if |si.accepts| > 0 {
      ret := si.accepts[|si.accepts| - 1].inputsize;
    }
  }

  method NfaScan(si: RexNfaSimulator, nfa: seq<State>, startuid: int, b: seq<byte>, start: nat, alloutput: bool)
      returns (ret: int, out: seq<Match>)
    requires ValidNfa(nfa) && startuid < |nfa| && start <= |b|
    modifies si
    ensures startuid >= 0 && !alloutput ==> ret == 0 && AllMatches(NfaLanguage(nfa, startuid), b, start, out)
    ensures startuid >= 0 && alloutput ==>
      ret == 0 && out == if AnyMatch(NfaLanguage(nfa, startuid), b, start) then [Match(start, |b| - start)] else []
    ensures startuid < 0 ==> ret == (if start < |b| then -1 else 0) && out == []
  {
    hide Matches, MatchBytes, NfaLanguage, Mbtowc, AllMatches, AnyMatch;
    if startuid < 0 {
      if start < |b| {
        ret := NfaMatch(si, nfa, startuid, b, start);
      } else {
        ret := 0;
      }
      return ret, [];
    }
    ghost var lang := NfaLanguage(nfa, startuid);
    MatchesAll(lang, b, start);
    AnyListed(lang, b, start);
    out := [];
    var input := start;
    while input < |b|
      invariant input <= |b| && out + Matches(lang, b, input) == Matches(lang, b, start)
      invariant alloutput ==> out == []
      decreases |b| - input
    {
      ret := NfaMatch(si, nfa, startuid, b, input);
      MatchesStep(lang, b, input);
      if ret > 0 {
        if alloutput {
          assert Matches(lang, b, start) != [];
          return 0, [Match(start, |b| - start)];
        }
        out := out + [Match(input, ret)];
        input := input + ret;
      } else {
        var inc := Mbtowc(b, input).1;
        input := input + if inc > 0 then inc else 1;
      }
    }
    MatchesEnd(lang, b);
    assert out == Matches(lang, b, start);
    ret := 0;
  }

  method DfaScan(dfa: RexDfa, b: seq<byte>, start: nat, alloutput: bool) returns (out: seq<Match>)
    requires Filters(dfa, HASH_BYTES, HASH_BITS) && start <= |b|
    ensures !alloutput ==> AllMatches(DfaLanguage(dfa.rows), b, start, out)
    ensures alloutput ==> out == if AnyMatch(DfaLanguage(dfa.rows), b, start) then [Match(start, |b| - start)] else []
  {
    hide Pow2, Pow, HashOf, BitAt, Mbtowc, ShiftByte, Matches, MatchBytes, DfaLanguage, LetsMatchesThrough, InStep, AllMatches, AnyMatch;
    ghost var lang := DfaLanguage(dfa.rows);
    MatchesAll(lang, b, start);
    AnyListed(lang, b, start);
    out := [];
    var input := start;
    var shifter: nat, nextshift: nat := Shift(Utf8, b, 0, HASH_BYTES, HASH_BYTES, HASH_BITS, start);
    while input < |b|
      invariant input <= |b| && out + Matches(lang, b, input) == Matches(lang, b, start)
      invariant InStep(Utf8, b, input, nextshift, shifter, HASH_BYTES, Pow2(HASH_BITS))
      invariant alloutput ==> out == []
      decreases |b| - input
    {
      ghost var entry := input;
      while !BitAt(dfa.bits[..], shifter) && nextshift < |b| && b[nextshift] < 0x80 && b[input] < 0x80
        invariant entry <= input < |b| && out + Matches(lang, b, input) == Matches(lang, b, start)
        invariant InStep(Utf8, b, input, nextshift, shifter, HASH_BYTES, Pow2(HASH_BITS))
        decreases |b| - nextshift
      {
        FilteredOut(dfa, Utf8, b, input, nextshift, shifter, HASH_BYTES, HASH_BITS);
        MatchesStep(lang, b, input);
        InStepAscii(b, input, nextshift, shifter, HASH_BYTES, HASH_BITS);
        Ascii(b, input);
        InStepOrder(Utf8, b, input, nextshift, shifter, HASH_BYTES, Pow2(HASH_BITS));
        shifter := ShiftByte(shifter, b[nextshift], HASH_BYTES, HASH_BITS);
        nextshift := nextshift + 1;
        input := input + 1;
      }
      var ret := 0;
      if BitAt(dfa.bits[..], shifter) {
        ret := DfaMatch(dfa, Utf8, b, input);
      } else {
        FilteredOut(dfa, Utf8, b, input, nextshift, shifter, HASH_BYTES, HASH_BITS);
      }
      MatchesStep(lang, b, input);
      if ret > 0 {
        if alloutput {
          assert Matches(lang, b, start) != [];
          return [Match(start, |b| - start)];
        }
        assert out + Matches(lang, b, input) == out + [Match(input, ret)] + Matches(lang, b, input + ret);
        out := out + [Match(input, ret)];
        input := input + ret;
        shifter, nextshift := Shift(Utf8, b, 0, HASH_BYTES, HASH_BYTES, HASH_BITS, input);
      } else {
        InStepNext(Utf8, b, input, nextshift, shifter, HASH_BYTES, Pow2(HASH_BITS));
        if nextshift < |b| && b[nextshift] < 0x80 {
          InStepAscii(b, input, nextshift, shifter, HASH_BYTES, HASH_BITS);
          shifter := ShiftByte(shifter, b[nextshift], HASH_BYTES, HASH_BITS);
          nextshift := nextshift + 1;
        } else {
          shifter, nextshift := Shift(Utf8, b, shifter, 1, HASH_BYTES, HASH_BITS, nextshift);
        }
        input := NextChar(b, input);
      }
    }
    MatchesEnd(lang, b);
    assert out == Matches(lang, b, start);
  }

  // ---- line by line ----------------------------------------------------------------------------

  /** The bytes from `s` up to `e` are a line with its line feed, or the last line without one. */
  predicate Line(b: seq<byte>, s: nat, e: nat) {
    && s < e <= |b|
    && (s == 0 || b[s - 1] == 10) && (e == |b| || b[e - 1] == 10)
    && forall k :: s <= k < e - 1 ==> b[k] != 10
  }

  /** The line has a match; what is behind it does not matter. */
  ghost predicate LineHit(lang: iset<Word>, b: seq<byte>, m: Match) {
    Line(b, m.where, m.where + m.length) && AnyMatch(lang, b[..m.where + m.length], m.where)
  }

  /** Exactly the lines up to byte `n` that have a match, in order. */
  ghost predicate AllLines(lang: iset<Word>, b: seq<byte>, n: nat, out: seq<Match>) {
    && (forall m :: m in out <==> LineHit(lang, b, m) && m.where + m.length <= n)
    && forall k, m :: 0 <= k < m < |out| ==> out[k].where < out[m].where
  }

  /** The next line starts at `s`, `k` bytes of it have been looked at. */
  predicate LineSoFar(b: seq<byte>, s: nat, k: nat) {
    s <= k <= |b| && (s == 0 || b[s - 1] == 10) && forall i :: s <= i < k ==> b[i] != 10
  }

  lemma LineEnds(b: seq<byte>, s: nat, k: nat)
    requires LineSoFar(b, s, k) && k < |b|
    ensures Line(b, s, k + 1) <==> b[k] == 10 || k + 1 == |b|
    ensures !Line(b, s, k + 1) ==> LineSoFar(b, s, k + 1)
  {
  }

  lemma LineStart(b: seq<byte>, s: nat, k: nat, t: nat, e: nat)
    requires LineSoFar(b, s, k) && k < |b| && s < e <= k + 1 && Line(b, t, e)
    ensures t == s && e == k + 1
  {
  }

  lemma LinesSnoc(lang: iset<Word>, b: seq<byte>, s: nat, k: nat, out: seq<Match>, more: seq<Match>)
    requires AllLines(lang, b, s, out) && LineSoFar(b, s, k) && k < |b|
    requires Line(b, s, k + 1) && more == if AnyMatch(lang, b[..k + 1], s) then [Match(s, k + 1 - s)] else []
    ensures AllLines(lang, b, k + 1, out + more)
  {
    hide AnyMatch;
    forall m
      ensures m in out + more <==> LineHit(lang, b, m) && m.where + m.length <= k + 1
    {
      if LineHit(lang, b, m) && s < m.where + m.length <= k + 1 {
        LineStart(b, s, k, m.where, m.where + m.length);
      }
    }
  }

  lemma LineStarts(b: seq<byte>, s: nat)
    ensures s <= |b| && (s == 0 || b[s - 1] == 10) ==> LineSoFar(b, s, s)
  {
  }

  lemma LinesNone(lang: iset<Word>, b: seq<byte>)
    ensures AllLines(lang, b, 0, [])
  {
  }

  lemma AllLinesUnique(lang: iset<Word>, b: seq<byte>, n: nat, a: seq<Match>, c: seq<Match>)
    requires AllLines(lang, b, n, a) && AllLines(lang, b, n, c)
    ensures a == c
  {
    hide LineHit;
    SameLines(a, c);
  }

  /** Two ordered lists with the same members are the same. */
  lemma {:induction false} SameLines(a: seq<Match>, c: seq<Match>)
    requires forall m :: m in a <==> m in c
    requires forall k, m :: 0 <= k < m < |a| ==> a[k].where < a[m].where
    requires forall k, m :: 0 <= k < m < |c| ==> c[k].where < c[m].where
    ensures a == c
    decreases |a|
  {
    assert a == [] <==> c == [] by {
      assert a != [] ==> a[0] in c;
      assert c != [] ==> c[0] in a;
    }
    if a != [] {
      var x := a[|a| - 1];
      assert x in c;
      var y := c[|c| - 1];
      assert y in a;
      var front, cfront := a[..|a| - 1], c[..|c| - 1];
      assert x == y;
      assert a == front + [x] && c == cfront + [x];
      forall m ensures m in front <==> m in cfront {
        assert m in a <==> m in c;
      }
      SameLines(front, cfront);
    }
  }

  method DfaScanLines(dfa: RexDfa, b: seq<byte>) returns (out: seq<Match>)
    requires Filters(dfa, HASH_BYTES, HASH_BITS)
    ensures AllLines(DfaLanguage(dfa.rows), b, |b|, out)
  {
    hide Filters, AnyMatch, AllMatches, DfaLanguage, Line, AllLines, LineSoFar;
    out := [];
    var start := 0;
    LinesNone(DfaLanguage(dfa.rows), b);
    LineStarts(b, start);
    for eol := 0 to |b|
      invariant start <= eol && AllLines(DfaLanguage(dfa.rows), b, start, out)
      invariant eol < |b| ==> LineSoFar(b, start, eol)
      invariant eol == |b| ==> start == |b|
    {
      LineEnds(b, start, eol);
      if b[eol] == 10 || eol + 1 == |b| {
        var line := DfaScan(dfa, b[..eol + 1], start, true);
        LinesSnoc(DfaLanguage(dfa.rows), b, start, eol, out, line);
        out := out + line;
        start := eol + 1;
        LineStarts(b, start);
      }
    }
  }

  method NfaScanLines(si: RexNfaSimulator, nfa: seq<State>, startuid: int, b: seq<byte>) returns (out: seq<Match>)
    requires ValidNfa(nfa) && startuid < |nfa|
    modifies si
    ensures startuid >= 0 ==> AllLines(NfaLanguage(nfa, startuid), b, |b|, out)
    ensures startuid < 0 ==> out == []
  {
    hide AnyMatch, AllMatches, NfaLanguage, Line, AllLines, LineSoFar;
    out := [];
    var start := 0;
    if startuid >= 0 { LinesNone(NfaLanguage(nfa, startuid), b); }
    LineStarts(b, start);
    for eol := 0 to |b|
      invariant start <= eol && (eol < |b| ==> LineSoFar(b, start, eol))
      invariant if startuid >= 0 then AllLines(NfaLanguage(nfa, startuid), b, start, out) else out == []
      invariant eol == |b| ==> start == |b|
    {
      LineEnds(b, start, eol);
      if b[eol] == 10 || eol + 1 == |b| {
        var ret, line := NfaScan(si, nfa, startuid, b[..eol + 1], start, true);
        if startuid >= 0 { LinesSnoc(NfaLanguage(nfa, startuid), b, start, eol, out, line); }
        out := out + line;
        start := eol + 1;
        LineStarts(b, start);
      }
    }
  }
}
