/** The input stack (rpa_stat_init and rpa_stat_shift of rpa/rpastat.c): symbols are decoded when the parser
    first moves to them, and are found again when it comes back. */
module RpaInput {
  import opened Automata
  import opened Symbols
  import opened RpaGrammar

  /** An entry of the stack: where the symbol starts, its value and its other case, its length. */
  datatype Slot = Slot(input: nat, wc: Sym, iwc: Sym, wcsize: nat, eof: bool)

  /** How the bytes are to be read; `other` gives the other case of a symbol. */
  datatype Coding = Coding(enc: Encoding, icase: bool, other: Sym -> Sym)

  /** The symbols of the input. */
  ghost function Text(enc: Encoding, b: seq<byte>): Word {
    Tail(enc, b, 0)
  }

  /** The byte at which symbol `k` of the input starts; beyond the last symbol, the end. */
  ghost function Place(enc: Encoding, b: seq<byte>, k: nat): nat {
    Width(enc, b, 0, k)
  }

  /** Symbol `k` exists. */
  ghost predicate Within(enc: Encoding, b: seq<byte>, k: nat) {
    k < |Text(enc, b)|
  }

  /** The input as the reference matcher sees it. */
  ghost function Glyphs(code: Coding, b: seq<byte>): (g: seq<Glyph>)
    ensures |g| == |Text(code.enc, b)|
  {
    var w := Text(code.enc, b);
    seq(|w|, k requires 0 <= k < |w| => Glyph(w[k], code.other(w[k])))
  }

  /** What the entry of symbol `k` must hold; the entry behind the last symbol is the end of the input. */
  ghost predicate Holds(code: Coding, b: seq<byte>, k: nat, s: Slot) {
    var w := Text(code.enc, b);
    k <= |w| && s.input == Place(code.enc, b, k) && s.eof == (k == |w|)
    && (k < |w| ==> s.wc == w[k] && (code.icase ==> s.iwc == code.other(w[k])) && s.wcsize == Place(code.enc, b, k + 1) - Place(code.enc, b, k))
  }

  lemma {:induction false} TailLength(enc: Encoding, b: seq<byte>, i: nat)
    requires i <= |b|
    ensures |Tail(enc, b, i)| <= |b| - i
    decreases |b| - i
  {
    hide Read;
    if i < |b| { TailLength(enc, b, i + Read(enc, b, i).1); }
  }

  /** Decoding at the place of symbol `k` yields symbol `k`. */
  lemma DecodeNext(enc: Encoding, b: seq<byte>, k: nat)
    requires k <= |Text(enc, b)|
    ensures Place(enc, b, k) <= |b| && (Place(enc, b, k) < |b| <==> Within(enc, b, k))
    ensures Within(enc, b, k) ==> Read(enc, b, Place(enc, b, k)).0 == Text(enc, b)[k]
    ensures Within(enc, b, k) ==> Place(enc, b, k + 1) == Place(enc, b, k) + Read(enc, b, Place(enc, b, k)).1
  {
    hide Read, Width, Tail;
    WidthTail(enc, b, 0, k);
  }

  class InputStack {
    const code: Coding
    const b: seq<byte>
    const buffer: array<Slot>
    var input: nat
    var serial: nat

    ghost predicate Decoded(k: nat)
      reads this, buffer
    {
      k + 1 < buffer.Length && Holds(code, b, k, buffer[k + 1])
    }

    /** The first `serial` symbols have been decoded. Entry -1 of the stack is element 0 of the buffer. */
    ghost predicate Valid()
      reads this, buffer
    {
      buffer.Length == |b| + 2 && serial <= |Text(code.enc, b)| <= |b| && input == Place(code.enc, b, serial) && !buffer[0].eof
      && forall k: nat :: k < serial ==> Decoded(k)
    }

    /** Positions the parser can be at: in front of the input, on a decoded symbol, or at the end. */
    ghost predicate Reached(top: int)
      reads this, buffer
    {
      top == -1 || (0 <= top < serial && Decoded(top)) || (top == serial && !Within(code.enc, b, serial) && Decoded(serial))
    }

    constructor (code: Coding, b: seq<byte>)
      ensures Valid() && fresh(buffer) && this.code == code && this.b == b && Reached(-1)
    {
      this.code := code;
      this.b := b;
      buffer := new Slot[|b| + 2](_ => Slot(0, 0, 0, 0, false));
      input := 0;
      serial := 0;
      TailLength(code.enc, b, 0);
    }

    /** In front of the input again; what was decoded is decoded anew. */
    method Rewind()
      requires Valid()
      modifies this
      ensures Valid() && Reached(-1)
    {
      input, serial := 0, 0;
    }

    /** Moves on by one symbol; at the end of the input there is nothing to move to. The buffer is large
        enough whatever the bytes are. */
    method Shift(top: int) returns (r: int)
      requires Valid() && Reached(top)
      modifies this, buffer
      ensures Valid()
      ensures if top >= 0 && !Within(code.enc, b, top) then r == -1 else r == top + 1 && Reached(r)
      ensures forall k :: old(Reached(k)) ==> Reached(k)
    {
      hide Read, Place, Text;
      AtEnd(top);
      if buffer[top + 1].eof {
        return -1;
      }
      r := top + 1;
      if r >= serial {
        DecodeNext(code.enc, b, serial);
        if input < |b| {
          var (wc, inc) := Read(code.enc, b, input);
          buffer[r + 1] := Slot(input, wc, if code.icase then code.other(wc) else buffer[r + 1].iwc, inc, false);
          input := input + inc;
          serial := serial + 1;
        } else {
          buffer[r + 1] := Slot(input, 0xFFFF_FFFF, buffer[r + 1].iwc, 0, true);
        }
        forall k: nat | k < old(serial) ensures Decoded(k) {
          assert old(Decoded(k));
          assert k != r;
          assert buffer[k + 1] == old(buffer[k + 1]);
        }
      }
    }

    lemma AtEnd(top: int)
      requires Valid() && Reached(top)
      ensures -1 <= top <= serial && top + 1 < buffer.Length && (buffer[top + 1].eof <==> top >= 0 && !Within(code.enc, b, top))
      ensures top == serial ==> !Within(code.enc, b, top) || top == -1
    {
    }
  }
}
