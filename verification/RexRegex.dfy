/** Searching with the prefilter (rex/rexregex.c). */
module RexRegex {
  import opened Automata
  import opened Subsets
  import opened Symbols
  import opened DfaWords
  import opened FlatDfa
  import opened Scanning

  const HASHBYTES: nat := 3
  const HASHBITS: nat := 5

  /** Fast path of the loops: one byte into the hash. */
  function ShiftByte(shifter: nat, byte_: byte, hbytes: nat, hbits: nat): nat {
    (shifter * Pow2(hbits) + byte_ % Pow2(hbits)) % Pow(Pow2(hbits), hbytes)
  }

  ghost predicate Filters(dfa: RexDfa, hbytes: nat, hbits: nat)
    reads dfa, dfa.states, dfa.trans, dfa.accsubstates, dfa.substates, dfa.bits
  {
    dfa.Ready() && LetsMatchesThrough(dfa.rows, dfa.bits[..], hbytes, Pow2(hbits))
  }

  /** A bit that is not set rules the position out. */
  lemma FilteredOut(dfa: RexDfa, enc: Encoding, b: seq<byte>, input: nat, nextshift: nat, shifter: nat, hbytes: nat, hbits: nat)
    requires Filters(dfa, hbytes, hbits) && InStep(enc, b, input, nextshift, shifter, hbytes, Pow2(hbits))
    requires !BitAt(dfa.bits[..], shifter)
    ensures MatchBytes(DfaLanguage(dfa.rows), enc, b, input) == 0
    ensures input < |b| ==> Scan(DfaLanguage(dfa.rows), enc, b, input) == Scan(DfaLanguage(dfa.rows), enc, b, input + Read(enc, b, input).1)
  {
    hide Read, HashOf;
  }

  lemma ScanEnd(lang: iset<Word>, enc: Encoding, b: seq<byte>)
    ensures Scan(lang, enc, b, |b|) == NotFound
  {
  }

  lemma LowBits(signedChar: bool, b: byte)
    ensures ByteSymbol(signedChar, b) % Pow2(HASHBITS) == b % Pow2(HASHBITS)
  {
    assert Pow2(HASHBITS) == 32;
  }

  /** One byte per symbol: the same position and length as trying every byte. */
  method ScanByte(dfa: RexDfa, signedChar: bool, b: seq<byte>, start: nat) returns (r: ScanResult)
    requires Filters(dfa, HASHBYTES, HASHBITS) && start <= |b|
    ensures r == Scan(DfaLanguage(dfa.rows), Bytes(signedChar), b, start)
  {
    hide Pow2, Pow, HashOf, BitAt, Scan, MatchBytes, DfaLanguage, LetsMatchesThrough, InStep;
    var enc := Bytes(signedChar);
    ghost var lang := DfaLanguage(dfa.rows);
    var input := start;
    var shifter: nat, nextshift: nat := Shift(enc, b, 0, HASHBYTES, HASHBYTES, HASHBITS, start);
    while input < |b|
      invariant input <= |b| && Scan(lang, enc, b, start) == Scan(lang, enc, b, input)
      invariant InStep(enc, b, input, nextshift, shifter, HASHBYTES, Pow2(HASHBITS))
      decreases |b| - input
    {
      ghost var entry := input;
      while !BitAt(dfa.bits[..], shifter) && nextshift < |b|
        invariant entry <= input < |b| && Scan(lang, enc, b, start) == Scan(lang, enc, b, input)
        invariant InStep(enc, b, input, nextshift, shifter, HASHBYTES, Pow2(HASHBITS))
        decreases |b| - nextshift
      {
        FilteredOut(dfa, enc, b, input, nextshift, shifter, HASHBYTES, HASHBITS);
        InStepNext(enc, b, input, nextshift, shifter, HASHBYTES, Pow2(HASHBITS));
        InStepOrder(enc, b, input, nextshift, shifter, HASHBYTES, Pow2(HASHBITS));
        LowBits(signedChar, b[nextshift]);
        shifter := ShiftByte(shifter, b[nextshift], HASHBYTES, HASHBITS);
        nextshift := nextshift + 1;
        input := input + 1;
      }
      var ret := 0;
      if BitAt(dfa.bits[..], shifter) {
        ret := DfaMatch(dfa, enc, b, input);
      } else {
        FilteredOut(dfa, enc, b, input, nextshift, shifter, HASHBYTES, HASHBITS);
      }
      ScanStep(lang, enc, b, input);
      if ret > 0 {
        return Found(input, ret);
      }
      InStepNext(enc, b, input, nextshift, shifter, HASHBYTES, Pow2(HASHBITS));
      input := input + 1;
      if nextshift < |b| {
        LowBits(signedChar, b[nextshift]);
        shifter := ShiftByte(shifter, b[nextshift], HASHBYTES, HASHBITS);
        nextshift := nextshift + 1;
      } else {
        shifter, nextshift := Shift(enc, b, shifter, 1, HASHBYTES, HASHBITS, nextshift);
      }
    }
    assert Scan(lang, enc, b, |b|) == NotFound by {
      ScanEnd(lang, enc, b);
    }
    r := NotFound;
  }

  lemma Ascii(b: seq<byte>, i: nat)
    requires i < |b| && b[i] < 0x80
    ensures Read(Utf8, b, i) == (b[i], 1)
  {
  }

  /** The fast path of the UTF-8 loops: one plain byte leaves the window and one enters it. */
  lemma InStepAscii(b: seq<byte>, input: nat, nextshift: nat, shifter: nat, hbytes: nat, hbits: nat)
    requires hbytes > 0 && input < |b| && InStep(Utf8, b, input, nextshift, shifter, hbytes, Pow2(hbits))
    requires nextshift < |b| && b[nextshift] < 0x80
    ensures InStep(Utf8, b, input + Read(Utf8, b, input).1, nextshift + 1, ShiftByte(shifter, b[nextshift], hbytes, hbits), hbytes, Pow2(hbits))
  {
    hide InStep, Mbtowc, Pow2, Pow;
    InStepNext(Utf8, b, input, nextshift, shifter, hbytes, Pow2(hbits));
    Ascii(b, nextshift);
  }

  /** To the next symbol boundary. */
  method NextChar(b: seq<byte>, input: nat) returns (next: nat)
    requires input < |b|
    ensures next == input + Read(Utf8, b, input).1
  {
    if b[input] >= 0x80 {
      var (wc, inc) := Mbtowc(b, input);
      next := input + if inc > 0 then inc else 1;
    } else {
      next := input + 1;
    }
  }

  /** UTF-8: the same position and length as trying every symbol boundary. */
  method ScanUtf8(dfa: RexDfa, b: seq<byte>, start: nat) returns (r: ScanResult)
    requires Filters(dfa, HASHBYTES, HASHBITS) && start <= |b|
    ensures r == Scan(DfaLanguage(dfa.rows), Utf8, b, start)
  {
    hide Pow2, Pow, HashOf, BitAt, Mbtowc, ShiftByte, Scan, MatchBytes, DfaLanguage, LetsMatchesThrough, InStep;
    ghost var lang := DfaLanguage(dfa.rows);
    var input := start;
    var shifter: nat, nextshift: nat := Shift(Utf8, b, 0, HASHBYTES, HASHBYTES, HASHBITS, start);
    while input < |b|
      invariant input <= |b| && Scan(lang, Utf8, b, start) == Scan(lang, Utf8, b, input)
      invariant InStep(Utf8, b, input, nextshift, shifter, HASHBYTES, Pow2(HASHBITS))
      decreases |b| - input
    {
      ghost var entry := input;
      while !BitAt(dfa.bits[..], shifter) && nextshift < |b| && b[nextshift] < 0x80 && b[input] < 0x80
        invariant entry <= input < |b| && Scan(lang, Utf8, b, start) == Scan(lang, Utf8, b, input)
        invariant InStep(Utf8, b, input, nextshift, shifter, HASHBYTES, Pow2(HASHBITS))
        decreases |b| - nextshift
      {
        FilteredOut(dfa, Utf8, b, input, nextshift, shifter, HASHBYTES, HASHBITS);
        InStepAscii(b, input, nextshift, shifter, HASHBYTES, HASHBITS);
        Ascii(b, input);
        InStepOrder(Utf8, b, input, nextshift, shifter, HASHBYTES, Pow2(HASHBITS));
        shifter := ShiftByte(shifter, b[nextshift], HASHBYTES, HASHBITS);
        nextshift := nextshift + 1;
        input := input + 1;
      }
      var ret := 0;
      if BitAt(dfa.bits[..], shifter) {
        ret := DfaMatch(dfa, Utf8, b, input);
      } else {
        FilteredOut(dfa, Utf8, b, input, nextshift, shifter, HASHBYTES, HASHBITS);
      }
      ScanStep(lang, Utf8, b, input);
      if ret > 0 {
        return Found(input, ret);
      }
      InStepNext(Utf8, b, input, nextshift, shifter, HASHBYTES, Pow2(HASHBITS));
      if nextshift < |b| && b[nextshift] < 0x80 {
        InStepAscii(b, input, nextshift, shifter, HASHBYTES, HASHBITS);
        shifter := ShiftByte(shifter, b[nextshift], HASHBYTES, HASHBITS);
        nextshift := nextshift + 1;
      } else {
        shifter, nextshift := Shift(Utf8, b, shifter, 1, HASHBYTES, HASHBITS, nextshift);
      }
      input := NextChar(b, input);
    }
    assert Scan(lang, Utf8, b, |b|) == NotFound by {
      ScanEnd(lang, Utf8, b);
    }
    r := NotFound;
  }
}
