/** Regular expressions and the sets of words they stand for. */
module Languages {
  import opened Automata

  type Language = iset<Word>

  datatype Option<+T> = None | Some(value: T)

  /** The quantifier `{from,to}`; no upper end stands for `{from,}`. */
  datatype Regex =
    | Char(c: Sym)
    | AnyChar
    | Class(items: seq<(Sym, Sym)>, negative: bool)
    | Cat(left: Regex, right: Regex)
    | Alt(left: Regex, right: Regex)
    | Optional(exp: Regex)
    | Star(exp: Regex)
    | Plus(exp: Regex)
    | Count(exp: Regex, from: nat, to: Option<nat>)

  const NEWLINE: Sym := 10

  ghost predicate Splits(a: Language, b: Language, w: Word) {
    exists i :: 0 <= i <= |w| && w[..i] in a && w[i..] in b
  }

  ghost function Concat(a: Language, b: Language): Language {
    iset w: Word | Splits(a, b, w)
  }

  ghost function Empty(): Language {
    iset{[]}
  }

  ghost function Maybe(a: Language): Language {
    Empty() + a
  }

  ghost function Power(a: Language, k: nat): Language {
    if k == 0 then Empty() else Concat(a, Power(a, k - 1))
  }

  predicate InRange(k: nat, from: nat, to: Option<nat>) {
    from <= k && (to.Some? ==> k <= to.value)
  }

  ghost predicate InPowers(a: Language, from: nat, to: Option<nat>, w: Word) {
    exists k: nat :: InRange(k, from, to) && w in Power(a, k)
  }

  /** `from` to `to` copies one after the other. */
  ghost function Powers(a: Language, from: nat, to: Option<nat>): Language {
    iset w: Word | InPowers(a, from, to, w)
  }

  predicate InItem(item: (Sym, Sym), c: Sym) {
    if item.0 <= item.1 then item.0 <= c <= item.1 else item.1 <= c <= item.0
  }

  predicate InItems(items: seq<(Sym, Sym)>, c: Sym) {
    exists k :: 0 <= k < |items| && InItem(items[k], c)
  }

  ghost predicate InClass(items: seq<(Sym, Sym)>, negative: bool, w: Word) {
    |w| == 1 && InItems(items, w[0]) != negative
  }

  /** The language a regular expression stands for. */
  ghost function Lang(r: Regex): Language {
    match r
    case Char(c) => iset{[c]}
    case AnyChar => iset w: Word | |w| == 1 && w[0] != NEWLINE
    case Class(items, negative) => iset w: Word | InClass(items, negative, w)
    case Cat(left, right) => Concat(Lang(left), Lang(right))
    case Alt(left, right) => Lang(left) + Lang(right)
    case Optional(exp) => Maybe(Lang(exp))
    case Star(exp) => Powers(Lang(exp), 0, None)
    case Plus(exp) => Powers(Lang(exp), 1, None)
    case Count(exp, from, to) => Powers(Lang(exp), from, to)
  }

  // ---- laws ------------------------------------------------------------------------------------

  lemma InConcat(a: Language, b: Language, u: Word, v: Word)
    requires u in a && v in b
    ensures u + v in Concat(a, b)
  {
    var w := u + v;
    assert w[..|u|] == u && w[|u|..] == v;
  }

  lemma ConcatSplit(a: Language, b: Language, w: Word) returns (u: Word, v: Word)
    requires w in Concat(a, b)
    ensures w == u + v && u in a && v in b
  {
    var i :| 0 <= i <= |w| && w[..i] in a && w[i..] in b;
    u, v := w[..i], w[i..];
  }

  lemma {:induction false} PowerAdd(a: Language, j: nat, k: nat, u: Word, v: Word)
    requires u in Power(a, j) && v in Power(a, k)
    ensures u + v in Power(a, j + k)
    decreases j
  {
    if j == 0 {
      assert u + v == v;
    } else {
      var x, y := ConcatSplit(a, Power(a, j - 1), u);
      PowerAdd(a, j - 1, k, y, v);
      InConcat(a, Power(a, j + k - 1), x, y + v);
      assert u + v == x + (y + v);
    }
  }

  lemma PowerCons(a: Language, k: nat, u: Word, v: Word)
    requires u in a && v in Power(a, k)
    ensures u + v in Power(a, k + 1)
  {
    InConcat(a, Power(a, k), u, v);
  }

  lemma {:induction false} PowerSplit(a: Language, j: nat, k: nat, w: Word) returns (u: Word, v: Word)
    requires w in Power(a, j + k)
    ensures w == u + v && u in Power(a, j) && v in Power(a, k)
    decreases j
  {
    if j == 0 {
      u, v := [], w;
    } else {
      var x, y := ConcatSplit(a, Power(a, j + k - 1), w);
      var y1, y2 := PowerSplit(a, j - 1, k, y);
      InConcat(a, Power(a, j - 1), x, y1);
      u, v := x + y1, y2;
    }
  }

  lemma PowerOne(a: Language)
    ensures Power(a, 1) == a
  {
    forall w: Word
      ensures w in Power(a, 1) <==> w in a
    {
      if w in a {
        InConcat(a, Empty(), w, []);
        assert w + [] == w;
      }
      if w in Power(a, 1) {
        var u, v := ConcatSplit(a, Power(a, 0), w);
        assert u + v == u;
      }
    }
  }

  /** One more copy, an optional copy, and any number of copies behind `from` to `to` copies. */
  lemma PowersThenOne(a: Language, from: nat, to: nat)
    requires from <= to
    ensures Concat(Powers(a, from, Some(to)), a) == Powers(a, from + 1, Some(to + 1))
  {
    hide Power, Concat;
    PowerOne(a);
    forall w: Word
      ensures w in Concat(Powers(a, from, Some(to)), a) <==> w in Powers(a, from + 1, Some(to + 1))
    {
      if w in Concat(Powers(a, from, Some(to)), a) {
        var u, v := ConcatSplit(Powers(a, from, Some(to)), a, w);
        var k: nat :| InRange(k, from, Some(to)) && u in Power(a, k);
        PowerAdd(a, k, 1, u, v);
        assert InRange(k + 1, from + 1, Some(to + 1));
      }
      if w in Powers(a, from + 1, Some(to + 1)) {
        var k: nat :| InRange(k, from + 1, Some(to + 1)) && w in Power(a, k);
        var u, v := PowerSplit(a, k - 1, 1, w);
        assert InRange(k - 1, from, Some(to));
        InConcat(Powers(a, from, Some(to)), a, u, v);
      }
    }
  }

  lemma PowersThenMaybe(a: Language, from: nat, to: nat)
    requires from <= to
    ensures Concat(Powers(a, from, Some(to)), Maybe(a)) == Powers(a, from, Some(to + 1))
  {
    hide Power, Concat;
    PowerOne(a);
    var p := Powers(a, from, Some(to));
    forall w: Word
      ensures w in Concat(p, Maybe(a)) <==> w in Powers(a, from, Some(to + 1))
    {
      if w in Concat(p, Maybe(a)) {
        var u, v := ConcatSplit(p, Maybe(a), w);
        var k: nat :| InRange(k, from, Some(to)) && u in Power(a, k);
        if v == [] {
          assert w == u && InRange(k, from, Some(to + 1));
        } else {
          PowerAdd(a, k, 1, u, v);
          assert InRange(k + 1, from, Some(to + 1));
        }
      }
      if w in Powers(a, from, Some(to + 1)) {
        var k: nat :| InRange(k, from, Some(to + 1)) && w in Power(a, k);
        if k <= to {
          assert InRange(k, from, Some(to));
          InConcat(p, Maybe(a), w, []);
          assert w + [] == w;
        } else {
          var u, v := PowerSplit(a, k - 1, 1, w);
          assert InRange(k - 1, from, Some(to));
          InConcat(p, Maybe(a), u, v);
        }
      }
    }
  }

  lemma PowersThenStar(a: Language, from: nat, to: nat)
    requires from <= to
    ensures Concat(Powers(a, from, Some(to)), Powers(a, 0, None)) == Powers(a, from, None)
  {
    hide Power, Concat;
    var p, s := Powers(a, from, Some(to)), Powers(a, 0, None);
    forall w: Word
      ensures w in Concat(p, s) <==> w in Powers(a, from, None)
    {
      if w in Concat(p, s) {
        var u, v := ConcatSplit(p, s, w);
        var j: nat :| InRange(j, from, Some(to)) && u in Power(a, j);
        var k: nat :| InRange(k, 0, None) && v in Power(a, k);
        PowerAdd(a, j, k, u, v);
        assert InRange(j + k, from, None);
      }
      if w in Powers(a, from, None) {
        var k: nat :| InRange(k, from, None) && w in Power(a, k);
        var u, v := PowerSplit(a, from, k - from, w);
        assert InRange(from, from, Some(to)) && InRange(k - from, 0, None);
        InConcat(p, s, u, v);
      }
    }
  }

  lemma PowersExact(a: Language, k: nat)
    ensures Powers(a, k, Some(k)) == Power(a, k)
  {
    hide Power;
    forall w: Word
      ensures w in Powers(a, k, Some(k)) <==> w in Power(a, k)
    {
      assert InRange(k, k, Some(k));
    }
  }

  lemma PowersUpToOne(a: Language)
    ensures Powers(a, 0, Some(1)) == Maybe(a)
  {
    hide Power;
    PowerOne(a);
    PowerZero(a);
    forall w: Word
      ensures w in Powers(a, 0, Some(1)) <==> w in Maybe(a)
    {
      assert InRange(0, 0, Some(1)) && InRange(1, 0, Some(1));
    }
  }

  lemma PowerZero(a: Language)
    ensures Power(a, 0) == Empty()
  {
  }

  // ---- what the quantifiers mean, piece by piece -----------------------------------------------

  function Joined(pieces: seq<Word>): Word {
    if pieces == [] then [] else pieces[0] + Joined(pieces[1..])
  }

  /** `w` is `n` words of `a` one behind the other. */
  ghost predicate MadeOf(a: Language, n: nat, w: Word) {
    exists pieces: seq<Word> :: |pieces| == n && (forall p :: p in pieces ==> p in a) && Joined(pieces) == w
  }

  lemma {:induction false} PowerPieces(a: Language, n: nat, w: Word) returns (pieces: seq<Word>)
    requires w in Power(a, n)
    ensures |pieces| == n && (forall p :: p in pieces ==> p in a) && Joined(pieces) == w
    decreases n
  {
    pieces := [];
    if n > 0 {
      var u, v := ConcatSplit(a, Power(a, n - 1), w);
      var rest := PowerPieces(a, n - 1, v);
      pieces := [u] + rest;
      assert pieces[1..] == rest;
    }
  }

  lemma {:induction false} PiecesPower(a: Language, pieces: seq<Word>)
    requires forall p :: p in pieces ==> p in a
    ensures Joined(pieces) in Power(a, |pieces|)
  {
    if pieces == [] {
      PowerZero(a);
    } else {
      PiecesPower(a, pieces[1..]);
      assert pieces[0] in a;
      PowerCons(a, |pieces| - 1, pieces[0], Joined(pieces[1..]));
    }
  }

  lemma PowerMadeOf(a: Language, n: nat, w: Word)
    ensures w in Power(a, n) <==> MadeOf(a, n, w)
  {
    hide Power;
    if w in Power(a, n) {
      var pieces := PowerPieces(a, n, w);
    }
    if MadeOf(a, n, w) {
      var pieces: seq<Word> :| |pieces| == n && (forall p :: p in pieces ==> p in a) && Joined(pieces) == w;
      PiecesPower(a, pieces);
    }
  }

  lemma PowersMadeOf(a: Language, from: nat, to: Option<nat>, w: Word)
    ensures w in Powers(a, from, to) <==> exists n: nat :: from <= n && (to.Some? ==> n <= to.value) && MadeOf(a, n, w)
  {
    hide Power, MadeOf;
    if w in Powers(a, from, to) {
      var n: nat :| InRange(n, from, to) && w in Power(a, n);
      PowerMadeOf(a, n, w);
    }
    if exists n: nat :: from <= n && (to.Some? ==> n <= to.value) && MadeOf(a, n, w) {
      var n: nat :| from <= n && (to.Some? ==> n <= to.value) && MadeOf(a, n, w);
      PowerMadeOf(a, n, w);
      assert InRange(n, from, to);
    }
  }

  /** A question mark takes none or one, a star any number, a plus at least one, a counter as many as it says. */
  lemma QuantifierWords(e: Regex, from: nat, to: nat, w: Word)
    ensures w in Lang(Optional(e)) <==> w == [] || w in Lang(e)
    ensures w in Lang(Star(e)) <==> exists n: nat :: MadeOf(Lang(e), n, w)
    ensures w in Lang(Plus(e)) <==> exists n: nat :: 1 <= n && MadeOf(Lang(e), n, w)
    ensures w in Lang(Count(e, from, None)) <==> exists n: nat :: from <= n && MadeOf(Lang(e), n, w)
    ensures w in Lang(Count(e, from, Some(to))) <==> exists n: nat :: from <= n <= to && MadeOf(Lang(e), n, w)
  {
    hide Powers, MadeOf;
    assert w == [] <==> w in Empty();
    PowersMadeOf(Lang(e), 0, None, w);
    PowersMadeOf(Lang(e), 1, None, w);
    PowersMadeOf(Lang(e), from, None, w);
    PowersMadeOf(Lang(e), from, Some(to), w);
  }

  lemma ConcatWords(a: Language, b: Language, w: Word)
    ensures w in Concat(a, b) <==> exists u: Word, v: Word :: w == u + v && u in a && v in b
  {
    hide Concat;
    if w in Concat(a, b) {
      var u, v := ConcatSplit(a, b, w);
    }
    if exists u: Word, v: Word :: w == u + v && u in a && v in b {
      var u: Word, v: Word :| w == u + v && u in a && v in b;
      InConcat(a, b, u, v);
    }
  }

  /** Two expressions one behind the other, one of two, and a symbol. */
  lemma PartWords(l: Regex, r: Regex, c: Sym, w: Word)
    ensures w in Lang(Cat(l, r)) <==> exists u: Word, v: Word :: w == u + v && u in Lang(l) && v in Lang(r)
    ensures w in Lang(Alt(l, r)) <==> w in Lang(l) || w in Lang(r)
    ensures w in Lang(Char(c)) <==> w == [c]
  {
    hide Concat;
    ConcatWords(Lang(l), Lang(r), w);
  }

  /** A class, or what it leaves out; a range may be written from either end. */
  lemma ClassWords(items: seq<(Sym, Sym)>, negative: bool, w: Word)
    ensures w in Lang(Class(items, negative)) <==>
      |w| == 1 && ((exists i :: i in items && (i.0 <= w[0] <= i.1 || i.1 <= w[0] <= i.0)) <==> !negative)
  {
    if |w| == 1 {
      var c := w[0];
      if exists i :: i in items && (i.0 <= c <= i.1 || i.1 <= c <= i.0) {
        var i :| i in items && (i.0 <= c <= i.1 || i.1 <= c <= i.0);
        var k :| 0 <= k < |items| && items[k] == i;
        assert InItem(items[k], c);
      }
    }
  }
}
