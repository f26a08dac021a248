/** From bytes to symbols (rlib/rutf.c) and the words a scanner sees. */
module Symbols {
  import opened Automata

  type byte = b: int | 0 <= b < 256

  predicate Continues(b: byte) {
    b / 64 == 2
  }

  /** Value bits of a sequence of two, three and four bytes. */
  function Value2(b0: int, b1: int): int {
    b0 % 32 * 64 + (b1 - 0x80)
  }

  function Value3(b0: int, b1: int, b2: int): int {
    b0 % 16 * 4096 + (b1 - 0x80) * 64 + (b2 - 0x80)
  }

  function Value4(b0: int, b1: int, b2: int, b3: int): int {
    b0 % 8 * 262144 + (b1 - 0x80) * 4096 + (b2 - 0x80) * 64 + (b3 - 0x80)
  }

  /** Decodes one symbol: its value and the number of bytes it takes. A malformed or cut-off sequence is
      read as a single byte. */
  function Mbtowc(b: seq<byte>, i: nat): (r: (Sym, nat))
    ensures r.1 <= 4 && (i < |b| ==> 1 <= r.1 && i + r.1 <= |b|)
  {
    if i >= |b| then (0, 0)
    else
      var c := b[i];
      var n := |b| - i;
      if c < 0x80 then (c, 1)
      else if c == 0xC0 || c == 0xC1 || c >= 0xF5 then (c, 1)
      else if c / 32 == 6 then
        if n < 2 || !Continues(b[i + 1]) then (c, 1) else (Value2(c, b[i + 1]), 2)
      else if c / 16 == 0x0E then
        if n < 3 || !Continues(b[i + 1]) || !Continues(b[i + 2]) then (c, 1) else (Value3(c, b[i + 1], b[i + 2]), 3)
      else if c / 8 == 0x1E then
        if n < 4 || !Continues(b[i + 1]) || !Continues(b[i + 2]) || !Continues(b[i + 3]) then (c, 1)
        else (Value4(c, b[i + 1], b[i + 2], b[i + 3]), 4)
      else (c, 1)
  }

  /** The byte sequence of a code point, section 3 of RFC 3629. */
  function Utf8Bytes(wc: Sym): (r: seq<byte>)
    requires wc <= 0x10FFFF
  {
    if wc <= 0x7F then [wc]
    else if wc <= 0x7FF then [0xC0 + wc / 64, 0x80 + wc % 64]
    else if wc <= 0xFFFF then [0xE0 + wc / 4096, 0x80 + wc / 64 % 64, 0x80 + wc % 64]
    else [0xF0 + wc / 262144, 0x80 + wc / 4096 % 64, 0x80 + wc / 64 % 64, 0x80 + wc % 64]
  }

  /** Writes the trailing bytes from the last one down, shifting a marker into the leading byte; the
      marker bits lie above the remaining value bits, so that setting them is adding them. */
  method Wctomb(wc: Sym, output: array<byte>, size: nat) returns (count: nat)
    requires size <= output.Length
    modifies output
    ensures count == if wc <= 0x10FFFF && |Utf8Bytes(wc)| <= size then |Utf8Bytes(wc)| else 0
    ensures count > 0 ==> output[..count] == Utf8Bytes(wc)
    ensures output[count..] == old(output[count..])
  {
    var len := if wc <= 0x7F then 1 else if wc <= 0x7FF then 2 else if wc <= 0xFFFF then 3 else if wc <= 0x10FFFF then 4 else 0;
    if len == 0 || size < len {
      return 0;
    }
    var rest: int := wc;
    Shifts(rest);
    if len == 4 {
      output[3] := 0x80 + rest % 64;
      rest := rest / 64 + 0x10000;
    }
    if len >= 3 {
      output[2] := 0x80 + rest % 64;
      rest := rest / 64 + 0x800;
    }
    if len >= 2 {
      output[1] := 0x80 + rest % 64;
      rest := rest / 64 + 0xC0;
    }
    output[0] := rest;
    count := len;
  }

  /** The remaining value after each shift, with the markers that were set on the way. */
  lemma Shifts(wc: int)
    requires 0 <= wc
    ensures wc / 64 / 64 == wc / 4096 && wc / 4096 / 64 == wc / 262144
    ensures (wc / 64 + 0x800) / 64 == wc / 4096 + 0x20
    ensures (wc / 64 + 0x10000) % 64 == wc / 64 % 64 && (wc / 64 + 0x10000) / 64 == wc / 4096 + 0x400
    ensures (wc / 4096 + 0xC00) % 64 == wc / 4096 % 64 && (wc / 4096 + 0xC00) / 64 == wc / 262144 + 0x30
  {
  }

  lemma Digits(wc: int)
    requires 0 <= wc
    ensures wc == wc / 64 * 64 + wc % 64
    ensures wc == wc / 4096 * 4096 + wc / 64 % 64 * 64 + wc % 64
    ensures wc == wc / 262144 * 262144 + wc / 4096 % 64 * 4096 + wc / 64 % 64 * 64 + wc % 64
  {
    Shifts(wc);
  }

  lemma Decode2(b: seq<byte>, a: int, x: int)
    requires |b| >= 2 && 2 <= a < 32 && 0 <= x < 64 && b[0] == 0xC0 + a && b[1] == 0x80 + x
    ensures Mbtowc(b, 0) == (a * 64 + x, 2)
  {
  }

  lemma Decode3(b: seq<byte>, a: int, x: int, y: int)
    requires |b| >= 3 && 0 <= a < 16 && 0 <= x < 64 && 0 <= y < 64
    requires b[0] == 0xE0 + a && b[1] == 0x80 + x && b[2] == 0x80 + y
    ensures Mbtowc(b, 0) == (a * 4096 + x * 64 + y, 3)
  {
  }

  lemma Decode4(b: seq<byte>, a: int, x: int, y: int, z: int)
    requires |b| >= 4 && 0 <= a < 5 && 0 <= x < 64 && 0 <= y < 64 && 0 <= z < 64
    requires b[0] == 0xF0 + a && b[1] == 0x80 + x && b[2] == 0x80 + y && b[3] == 0x80 + z
    ensures Mbtowc(b, 0) == (a * 262144 + x * 4096 + y * 64 + z, 4)
  {
  }

  /** Every code point survives encoding and decoding, whatever bytes follow. */
  lemma DecodeEncode(wc: Sym, rest: seq<byte>)
    requires wc <= 0x10FFFF
    ensures Mbtowc(Utf8Bytes(wc) + rest, 0) == (wc, |Utf8Bytes(wc)|)
  {
    var b := Utf8Bytes(wc) + rest;
    Digits(wc);
    if wc <= 0x7F {
      assert b[0] == wc;
    } else {
      hide Mbtowc;
      if wc <= 0x7FF {
        Decode2(b, wc / 64, wc % 64);
      } else if wc <= 0xFFFF {
        Decode3(b, wc / 4096, wc / 64 % 64, wc % 64);
      } else {
        Decode4(b, wc / 262144, wc / 4096 % 64, wc / 64 % 64, wc % 64);
      }
    }
  }

  /** Continuation bytes follow byte `i`, `n` of them, inside the buffer. */
  predicate Followed(b: seq<byte>, i: nat, n: nat) {
    i + n < |b| && forall k :: i < k <= i + n ==> 0x80 <= b[k] <= 0xBF
  }

  /** What the decoder makes of any bytes: how many it takes is decided by the first one and by how many
      continuation bytes follow, and a byte that is read alone stands for itself. */
  lemma DecodedWidth(b: seq<byte>, i: nat)
    requires i < |b|
    ensures var (wc, n) := Mbtowc(b, i); 1 <= n <= 4 && (n == 1 ==> wc == b[i])
    ensures Mbtowc(b, i).1 == 2 <==> 0xC2 <= b[i] <= 0xDF && Followed(b, i, 1)
    ensures Mbtowc(b, i).1 == 3 <==> 0xE0 <= b[i] <= 0xEF && Followed(b, i, 2)
    ensures Mbtowc(b, i).1 == 4 <==> 0xF0 <= b[i] <= 0xF4 && Followed(b, i, 3)
  {
  }

  /** The bits of a longer sequence: five, four or three of the first byte, six of each byte behind it. */
  lemma DecodedValue(b: seq<byte>, i: nat)
    requires i < |b|
    ensures var (wc, n) := Mbtowc(b, i);
      var lead: int, x: int, y: int := b[i], if n > 1 then b[i + 1] - 0x80 else 0, if n > 2 then b[i + 2] - 0x80 else 0;
      && (n == 2 ==> wc == (lead - 0xC0) * 0x40 + x)
      && (n == 3 ==> wc == (lead - 0xE0) * 0x1000 + x * 0x40 + y)
      && (n == 4 ==> wc == (lead - 0xF0) * 0x4_0000 + x * 0x1000 + y * 0x40 + b[i + 3] - 0x80)
  {
  }

  lemma LastDigit(hi: int, lo: int)
    requires 0 <= lo < 64
    ensures (hi * 64 + lo) / 64 == hi && (hi * 64 + lo) % 64 == lo
  {
  }

  lemma Digits2(b0: int, b1: int)
    requires 0xC2 <= b0 < 0xE0 && 0x80 <= b1 < 0xC0
    ensures var v := Value2(b0, b1); 0x80 <= v <= 0x7FF && 0xC0 + v / 64 == b0 && 0x80 + v % 64 == b1
  {
  }

  lemma Digits3(b0: int, b1: int, b2: int)
    requires 0xE0 <= b0 < 0xF0 && 0x80 <= b1 < 0xC0 && 0x80 <= b2 < 0xC0
    ensures var v := Value3(b0, b1, b2);
      v <= 0xFFFF && 0xE0 + v / 4096 == b0 && 0x80 + v / 64 % 64 == b1 && 0x80 + v % 64 == b2
  {
  }

  lemma Digits4(b0: int, b1: int, b2: int, b3: int)
    requires 0xF0 <= b0 < 0xF8 && 0x80 <= b1 < 0xC0 && 0x80 <= b2 < 0xC0 && 0x80 <= b3 < 0xC0
    ensures var v := Value4(b0, b1, b2, b3);
      0xF0 + v / 262144 == b0 && 0x80 + v / 4096 % 64 == b1 && 0x80 + v / 64 % 64 == b2 && 0x80 + v % 64 == b3
  {
    var a, x, y := b0 - 0xF0, b1 - 0x80, b2 - 0x80;
    var v := Value4(b0, b1, b2, b3);
    assert v == ((a * 64 + x) * 64 + y) * 64 + (b3 - 0x80);
    LastDigit((a * 64 + x) * 64 + y, b3 - 0x80);
    LastDigit(a * 64 + x, y);
    LastDigit(a, x);
    assert v / 4096 == v / 64 / 64 && v / 262144 == v / 4096 / 64;
  }

  /** Decoding and encoding again gives the same bytes except where the decoder was lenient: a byte
      above 0x7F read alone, an overlong form, or a value above 0x10FFFF. */
  lemma EncodeDecodeIff(b: seq<byte>, i: nat)
    requires i < |b|
    ensures
      var (wc, n) := Mbtowc(b, i);
      (wc <= 0x10FFFF && Utf8Bytes(wc) == b[i..i + n])
      <==> (if n == 1 then wc <= 0x7F else if n == 3 then 0x800 <= wc else n == 4 ==> 0x10000 <= wc <= 0x10FFFF)
  {
    var (wc, n) := Mbtowc(b, i);
    assert |b[i..i + n]| == n;
    if n == 2 {
      Digits2(b[i], b[i + 1]);
      assert b[i..i + 2] == [b[i], b[i + 1]];
    } else if n == 3 {
      Digits3(b[i], b[i + 1], b[i + 2]);
      assert b[i..i + 3] == [b[i], b[i + 1], b[i + 2]];
    } else if n == 4 {
      Digits4(b[i], b[i + 1], b[i + 2], b[i + 3]);
      assert b[i..i + 4] == [b[i], b[i + 1], b[i + 2], b[i + 3]];
    } else {
      assert b[i..i + 1] == [b[i]];
    }
  }

  // ---- reading a buffer ------------------------------------------------------------------------

  /** A single-byte reader takes `char` values as they are: where `char` is signed, the bytes from 0x80
      on become symbols at the top of the 32-bit range. */
  datatype Encoding = Utf8 | Bytes(signedChar: bool)

  function ByteSymbol(signedChar: bool, b: byte): Sym {
    if signedChar && b >= 0x80 then 0xFFFF_FF00 + b else b
  }

  function Read(enc: Encoding, b: seq<byte>, i: nat): (r: (Sym, nat))
    ensures i < |b| ==> 1 <= r.1 && i + r.1 <= |b|
    ensures i >= |b| ==> r.1 == 0
  {
    match enc
    case Utf8 => Mbtowc(b, i)
    case Bytes(signedChar) => if i >= |b| then (0, 0) else (ByteSymbol(signedChar, b[i]), 1)
  }

  /** A byte below 0x80 is the symbol itself. From there on it is where `char` is unsigned, and its value less
      256, as a 32-bit number, where `char` is signed. */
  lemma ByteRead(signedChar: bool, b: seq<byte>, i: nat)
    requires i < |b|
    ensures var (wc, n) := Read(Bytes(signedChar), b, i);
      n == 1 && wc == if b[i] <= 127 || !signedChar then b[i] as int else 4294967040 + b[i] as int
  {
  }

  /** The symbols from byte `i` to the end of the buffer. */
  ghost function Tail(enc: Encoding, b: seq<byte>, i: nat): (r: Word)
    decreases |b| - i
  {
    if i >= |b| then [] else [Read(enc, b, i).0] + Tail(enc, b, i + Read(enc, b, i).1)
  }

  /** The number of bytes the first `n` symbols from byte `i` take. */
  ghost function Width(enc: Encoding, b: seq<byte>, i: nat, n: nat): (r: nat)
    decreases n
  {
    if n == 0 || i >= |b| then 0 else Read(enc, b, i).1 + Width(enc, b, i + Read(enc, b, i).1, n - 1)
  }

  lemma {:induction false} WidthTail(enc: Encoding, b: seq<byte>, i: nat, n: nat)
    requires i <= |b| && n <= |Tail(enc, b, i)|
    ensures i + Width(enc, b, i, n) <= |b|
    ensures Tail(enc, b, i + Width(enc, b, i, n)) == Tail(enc, b, i)[n..]
    ensures n < |Tail(enc, b, i)| <==> i + Width(enc, b, i, n) < |b|
    ensures n < |Tail(enc, b, i)| ==>
      && Tail(enc, b, i)[n] == Read(enc, b, i + Width(enc, b, i, n)).0
      && Width(enc, b, i, n + 1) == Width(enc, b, i, n) + Read(enc, b, i + Width(enc, b, i, n)).1
    decreases n
  {
    hide Read;
    if n == 0 {
      assert Width(enc, b, i, 0) == 0;
      if i < |b| {
        assert Width(enc, b, i + Read(enc, b, i).1, 0) == 0;
      }
    } else {
      var inc := Read(enc, b, i).1;
      WidthTail(enc, b, i + inc, n - 1);
      assert Tail(enc, b, i)[n..] == Tail(enc, b, i + inc)[n - 1..];
    }
  }

  /** A text in UTF-8. */
  function Encoded(w: Word): (r: seq<byte>)
    requires forall k :: 0 <= k < |w| ==> w[k] <= 0x10FFFF
  {
    if w == [] then [] else Utf8Bytes(w[0]) + Encoded(w[1..])
  }

  /** Reading a buffer that holds the encoding of a text from byte `i` on gives the text. */
  lemma {:induction false} TailEncoded(w: Word, b: seq<byte>, i: nat)
    requires forall k :: 0 <= k < |w| ==> w[k] <= 0x10FFFF
    requires i <= |b| && b[i..] == Encoded(w)
    ensures Tail(Utf8, b, i) == w
    decreases |w|
  {
    hide Mbtowc;
    if w != [] {
      var n := |Utf8Bytes(w[0])|;
      DecodeEncode(w[0], Encoded(w[1..]));
      MbtowcFrom(b, i);
      assert b[i + n..] == Encoded(w[1..]);
      TailEncoded(w[1..], b, i + n);
    }
  }

  /** What lies in front of byte `i` does not matter. */
  lemma MbtowcFrom(b: seq<byte>, i: nat)
    requires i < |b|
    ensures Mbtowc(b, i) == Mbtowc(b[i..], 0)
  {
    var t := b[i..];
    assert t[0] == b[i] && (|t| > 1 ==> t[1] == b[i + 1]) && (|t| > 2 ==> t[2] == b[i + 2]) && (|t| > 3 ==> t[3] == b[i + 3]);
  }

  /** Without decoding every byte is one symbol. */
  lemma {:induction false} TailBytes(signedChar: bool, b: seq<byte>, i: nat, k: nat)
    requires i <= |b|
    ensures |Tail(Bytes(signedChar), b, i)| == |b| - i
    ensures k < |b| - i ==> Tail(Bytes(signedChar), b, i)[k] == if b[i + k] <= 127 || !signedChar then b[i + k] as int else 4294967040 + b[i + k] as int
    decreases |b| - i
  {
    if i < |b| {
      ByteRead(signedChar, b, i);
      TailBytes(signedChar, b, i + 1, if k > 0 then k - 1 else 0);
    }
  }

  // ---- longest match ---------------------------------------------------------------------------

  /** The length of the longest nonempty prefix of `w` in the language, 0 if there is none. */
  ghost function Longest(lang: iset<Word>, w: Word): (n: nat)
    ensures n <= |w|
    ensures n > 0 ==> w[..n] in lang
    ensures forall k :: n < k <= |w| ==> w[..k] !in lang
  {
    if w == [] then 0
    else if w in lang then assert w[..|w|] == w; |w|
    else
      var u := w[..|w| - 1];
      var n := Longest(lang, u);
      assert w[..|w|] == w;
      assert forall k :: 0 <= k <= |u| ==> w[..k] == u[..k];
      n
  }

  lemma LongestUnique(lang: iset<Word>, w: Word, n: nat)
    requires n <= |w| && (n > 0 ==> w[..n] in lang) && forall k :: n < k <= |w| ==> w[..k] !in lang
    ensures n == Longest(lang, w)
  {
  }

  /** What the matcher reports at byte `i`: the number of bytes of the longest match. */
  ghost function MatchBytes(lang: iset<Word>, enc: Encoding, b: seq<byte>, i: nat): nat {
    Width(enc, b, i, Longest(lang, Tail(enc, b, i)))
  }

  /** Where the matcher gets to: with `k` symbols that are in the language, and no more symbols that are, to the
      byte behind them; nowhere if no symbols are in the language. */
  lemma MatchBytesLongest(lang: iset<Word>, enc: Encoding, b: seq<byte>, i: nat) returns (k: nat)
    requires i <= |b|
    ensures var w, n := Tail(enc, b, i), MatchBytes(lang, enc, b, i);
      && k <= |w| && i + n <= |b| && Tail(enc, b, i + n) == w[k..]
      && (n == 0 <==> k == 0) && (k > 0 ==> w[..k] in lang) && forall m :: k < m <= |w| ==> w[..m] !in lang
  {
    hide Read;
    k := Longest(lang, Tail(enc, b, i));
    WidthTail(enc, b, i, k);
    if k > 0 {
      assert Width(enc, b, i, k) >= Read(enc, b, i).1;
    }
  }
}
