/** The quantifier in braces (rex/rexcompiler.c): a counter inside its factor overwrites the fields its loop
    compares with. What is compiled, and exactly when it is what was asked for. */
module Counters {
  import opened Arithmetic
  import opened Automata
  import opened Languages
  import opened Classes

  datatype Bounds = Bounds(from: nat, to: Option<nat>)

  /** No counter has its ends the wrong way round. */
  predicate CountsOk(r: Regex) {
    match r
    case Char(_) => true
    case AnyChar => true
    case Class(_, _) => true
    case Cat(left, right) => CountsOk(left) && CountsOk(right)
    case Alt(left, right) => CountsOk(left) && CountsOk(right)
    case Optional(exp) => CountsOk(exp)
    case Star(exp) => CountsOk(exp)
    case Plus(exp) => CountsOk(exp)
    case Count(exp, from, to) => CountsOk(exp) && (to.Some? ==> from <= to.value)
  }

  /** `e` is a part of `r`, or all of it. */
  predicate Contains(r: Regex, e: Regex) {
    r == e ||
    match r
    case Char(_) => false
    case AnyChar => false
    case Class(_, _) => false
    case Cat(left, right) => Contains(left, e) || Contains(right, e)
    case Alt(left, right) => Contains(left, e) || Contains(right, e)
    case Optional(exp) => Contains(exp, e)
    case Star(exp) => Contains(exp, e)
    case Plus(exp) => Contains(exp, e)
    case Count(exp, _, _) => Contains(exp, e)
  }

  /** The compiler refuses the expression: some counter in it has an upper end below its lower one. */
  ghost predicate Refused(r: Regex) {
    exists e, from: nat, to: nat :: Contains(r, Count(e, from, Some(to))) && to < from
  }

  lemma {:induction false} ReversedPart(r: Regex) returns (e: Regex, from: nat, to: nat)
    requires !CountsOk(r)
    ensures Contains(r, Count(e, from, Some(to))) && to < from
  {
    match r
    case Cat(left, right) => if !CountsOk(left) { e, from, to := ReversedPart(left); } else { e, from, to := ReversedPart(right); }
    case Alt(left, right) => if !CountsOk(left) { e, from, to := ReversedPart(left); } else { e, from, to := ReversedPart(right); }
    case Optional(exp) => e, from, to := ReversedPart(exp);
    case Star(exp) => e, from, to := ReversedPart(exp);
    case Plus(exp) => e, from, to := ReversedPart(exp);
    case Count(exp, lo, hi) =>
      if !CountsOk(exp) { e, from, to := ReversedPart(exp); } else { e, from, to := exp, lo, hi.value; }
  }

  lemma {:induction false} PartsOk(r: Regex, e: Regex)
    requires CountsOk(r) && Contains(r, e)
    ensures CountsOk(e)
  {
    if r != e {
      match r
      case Cat(left, right) => if Contains(left, e) { PartsOk(left, e); } else { PartsOk(right, e); }
      case Alt(left, right) => if Contains(left, e) { PartsOk(left, e); } else { PartsOk(right, e); }
      case Optional(exp) => PartsOk(exp, e);
      case Star(exp) => PartsOk(exp, e);
      case Plus(exp) => PartsOk(exp, e);
      case Count(exp, _, _) => PartsOk(exp, e);
    }
  }

  lemma RefusedIff(r: Regex)
    ensures Refused(r) <==> !CountsOk(r)
  {
    if CountsOk(r) {
      forall e, from: nat, to: nat | Contains(r, Count(e, from, Some(to)))
        ensures from <= to
      {
        PartsOk(r, Count(e, from, Some(to)));
      }
    } else {
      var e, from, to := ReversedPart(r);
    }
  }

  /** Whether the counter reads its factor again to make more copies. */
  predicate Repeats(from: nat, to: Option<nat>) {
    if to.None? then from > 1 else to.value > 1
  }

  /** The counter fields after `r` was compiled: a counter inside `r` overwrites what was there. */
  function CountersAfter(r: Regex, c: Bounds): Bounds {
    match r
    case Char(_) => c
    case AnyChar => c
    case Class(_, _) => c
    case Cat(left, right) => CountersAfter(right, CountersAfter(left, c))
    case Alt(left, right) => CountersAfter(right, CountersAfter(left, c))
    case Optional(exp) => CountersAfter(exp, c)
    case Star(exp) => CountersAfter(exp, c)
    case Plus(exp) => CountersAfter(exp, c)
    case Count(exp, from, to) => if Repeats(from, to) then CountersAfter(exp, Bounds(from, to)) else Bounds(from, to)
  }

  /** How many of the first `copies` copies are mandatory when the first counter starts at `from` and the
      loop over the others compares with `limit`. */
  function Mandatory(from: nat, limit: nat, copies: nat): nat
    requires copies > 0
  {
    (if from == 0 then 0 else 1) + (if limit == 0 then 0 else Min(limit, copies) - 1)
  }

  /** The numbers of copies a counter really makes, given the counter fields `e` its loop sees. */
  function MadeCopies(from: nat, to: Option<nat>, e: Bounds): Bounds {
    if !Repeats(from, to) then Bounds(from, to)
    else if e.to.None? then Bounds(Mandatory(from, e.from, Max(e.from, 1)), None)
    else Bounds(Mandatory(from, e.from, Max(e.to.value, 2)), Some(Max(e.to.value, 2)))
  }

  function CopiesOf(exp: Regex, from: nat, to: Option<nat>): Bounds {
    MadeCopies(from, to, CountersAfter(exp, Bounds(from, to)))
  }

  /** The language of the compiled automaton. */
  ghost function CompiledLang(r: Regex): Language {
    match r
    case Char(_) => Lang(r)
    case AnyChar => Lang(r)
    case Class(items, negative) => OneSymbol(ClassRow(items, negative))
    case Cat(left, right) => Concat(CompiledLang(left), CompiledLang(right))
    case Alt(left, right) => CompiledLang(left) + CompiledLang(right)
    case Optional(exp) => Maybe(CompiledLang(exp))
    case Star(exp) => Powers(CompiledLang(exp), 0, None)
    case Plus(exp) => Powers(CompiledLang(exp), 1, None)
    case Count(exp, from, to) => Powers(CompiledLang(exp), CopiesOf(exp, from, to).from, CopiesOf(exp, from, to).to)
  }

  predicate NoCounter(r: Regex) {
    match r
    case Char(_) => true
    case AnyChar => true
    case Class(_, _) => true
    case Cat(left, right) => NoCounter(left) && NoCounter(right)
    case Alt(left, right) => NoCounter(left) && NoCounter(right)
    case Optional(exp) => NoCounter(exp)
    case Star(exp) => NoCounter(exp)
    case Plus(exp) => NoCounter(exp)
    case Count(_, _, _) => false
  }

  lemma {:induction false} NoCounterKeeps(r: Regex, c: Bounds)
    requires NoCounter(r)
    ensures CountersAfter(r, c) == c
  {
    match r
    case Cat(left, right) => NoCounterKeeps(left, c); NoCounterKeeps(right, c);
    case Alt(left, right) => NoCounterKeeps(left, c); NoCounterKeeps(right, c);
    case Optional(exp) => NoCounterKeeps(exp, c);
    case Star(exp) => NoCounterKeeps(exp, c);
    case Plus(exp) => NoCounterKeeps(exp, c);
    case _ =>
  }

  /** A counter over a factor without counters makes the copies it asks for: through the special cases
      and through the loop. */
  lemma SimpleCounterHolds(exp: Regex, from: nat, to: Option<nat>)
    requires NoCounter(exp) && (to.Some? ==> from <= to.value)
    ensures CopiesOf(exp, from, to) == Bounds(from, to)
  {
    NoCounterKeeps(exp, Bounds(from, to));
  }

  /** The counter fields do not change any more after the first repetition. */
  lemma CountersSettle(r: Regex, c: Bounds)
    ensures CountersAfter(r, CountersAfter(r, c)) == CountersAfter(r, c)
  {
    CountersFixed(r, c, CountersAfter(r, c));
  }

  lemma {:induction false} CountersFixed(r: Regex, c: Bounds, d: Bounds)
    ensures (CountersAfter(r, c) == c && CountersAfter(r, d) == d) || CountersAfter(r, c) == CountersAfter(r, d)
  {
    match r
    case Char(_) =>
    case AnyChar =>
    case Class(_, _) =>
    case Cat(left, right) => CountersFixed(left, c, d); CountersFixed(right, CountersAfter(left, c), CountersAfter(left, d));
    case Alt(left, right) => CountersFixed(left, c, d); CountersFixed(right, CountersAfter(left, c), CountersAfter(left, d));
    case Optional(exp) => CountersFixed(exp, c, d);
    case Star(exp) => CountersFixed(exp, c, d);
    case Plus(exp) => CountersFixed(exp, c, d);
    case Count(_, _, _) =>
  }

  lemma MandatoryStart(from: nat, limit: nat)
    ensures Mandatory(from, limit, 1) == if from == 0 then 0 else 1
  {
  }

  lemma MandatoryStep(from: nat, limit: nat, copies: nat)
    requires copies > 0
    ensures Mandatory(from, limit, copies) <= copies
    ensures Mandatory(from, limit, copies + 1) == Mandatory(from, limit, copies) + if copies < limit then 1 else 0
  {
  }

  lemma MandatoryEnd(from: nat, limit: nat, copies: nat)
    requires copies > 0 && limit <= copies
    ensures Mandatory(from, limit, copies) == Mandatory(from, limit, Max(limit, 1))
  {
  }

  // ---- how long the words of an expression are --------------------------------------------------

  /** It has no word: a class in it has no symbol, and there is no way around that. */
  ghost predicate Void(r: Regex) {
    match r
    case Char(_) => false
    case AnyChar => false
    case Class(items, negative) => forall c: Sym :: InItems(items, c) == negative
    case Cat(left, right) => Void(left) || Void(right)
    case Alt(left, right) => Void(left) && Void(right)
    case Optional(_) => false
    case Star(_) => false
    case Plus(exp) => Void(exp)
    case Count(exp, from, _) => from > 0 && Void(exp)
  }

  /** The length of its shortest words. */
  ghost function Fewest(r: Regex): nat {
    match r
    case Char(_) => 1
    case AnyChar => 1
    case Class(_, _) => 1
    case Cat(left, right) => Fewest(left) + Fewest(right)
    case Alt(left, right) =>
      if Void(left) then Fewest(right) else if Void(right) then Fewest(left) else Min(Fewest(left), Fewest(right))
    case Optional(_) => 0
    case Star(_) => 0
    case Plus(exp) => Fewest(exp)
    case Count(exp, from, _) => from * Fewest(exp)
  }

  function Repeated(most: Option<nat>): Option<nat> {
    if most == Some(0) then Some(0) else None
  }

  /** The length of its longest words, if there is a longest. */
  ghost function Most(r: Regex): Option<nat> {
    if Void(r) then Some(0) else match r
    case Char(_) => Some(1)
    case AnyChar => Some(1)
    case Class(_, _) => Some(1)
    case Cat(left, right) => if Most(left).Some? && Most(right).Some? then Some(Most(left).value + Most(right).value) else None
    case Alt(left, right) => if Most(left).Some? && Most(right).Some? then Some(Max(Most(left).value, Most(right).value)) else None
    case Optional(exp) => Most(exp)
    case Star(exp) => Repeated(Most(exp))
    case Plus(exp) => Repeated(Most(exp))
    case Count(exp, _, to) =>
      if to == Some(0) then Some(0)
      else if to.Some? && Most(exp).Some? then Some(to.value * Most(exp).value)
      else Repeated(Most(exp))
  }

  ghost predicate NoWord(a: Language) {
    forall w: Word :: w !in a
  }

  ghost predicate Between(a: Language, lo: nat, hi: Option<nat>) {
    forall w: Word :: w in a ==> lo <= |w| && (hi.Some? ==> |w| <= hi.value)
  }

  lemma {:induction false} PowerBetween(a: Language, lo: nat, hi: Option<nat>, k: nat, w: Word)
    requires Between(a, lo, hi) && w in Power(a, k)
    ensures k * lo <= |w| && (hi.Some? ==> |w| <= k * hi.value)
    decreases k
  {
    if k > 0 {
      var u, v := ConcatSplit(a, Power(a, k - 1), w);
      PowerBetween(a, lo, hi, k - 1, v);
      MulDist(k - 1, 1, lo);
      if hi.Some? { MulDist(k - 1, 1, hi.value); }
    }
  }

  lemma {:induction false} PowerRepeat(a: Language, u: Word, k: nat) returns (w: Word)
    requires u in a
    ensures w in Power(a, k) && |w| == k * |u|
  {
    if k == 0 {
      w := [];
    } else {
      var v := PowerRepeat(a, u, k - 1);
      PowerCons(a, k - 1, u, v);
      MulDist(k - 1, 1, |u|);
      w := u + v;
    }
  }

  lemma PowersBetween(a: Language, lo: nat, hi: Option<nat>, from: nat, to: Option<nat>, most: Option<nat>)
    requires Between(a, lo, hi)
    requires most.Some? ==>
      (most.value == 0 && (hi == Some(0) || to == Some(0))) || (to.Some? && hi.Some? && most.value == to.value * hi.value)
    ensures Between(Powers(a, from, to), from * lo, most)
  {
    hide Power;
    forall w: Word | w in Powers(a, from, to)
      ensures from * lo <= |w| && (most.Some? ==> |w| <= most.value)
    {
      var k: nat :| InRange(k, from, to) && w in Power(a, k);
      PowerBetween(a, lo, hi, k, w);
      MulMono(from, k, lo);
      PowerZero(a);
      assert k * 0 == 0;
      if to.Some? && hi.Some? { MulMono(k, to.value, hi.value); }
    }
  }

  lemma ConcatBetween(a: Language, b: Language, lo: nat, lo': nat, hi: Option<nat>, hi': Option<nat>, most: Option<nat>)
    requires Between(a, lo, hi) && Between(b, lo', hi')
    requires most.Some? ==> hi.Some? && hi'.Some? && most.value == hi.value + hi'.value
    ensures Between(Concat(a, b), lo + lo', most)
  {
    hide Concat;
    forall w: Word | w in Concat(a, b)
      ensures lo + lo' <= |w| && (most.Some? ==> |w| <= most.value)
    {
      var u, v := ConcatSplit(a, b, w);
    }
  }

  lemma {:induction false} VoidEmpty(r: Regex, w: Word)
    requires Void(r)
    ensures w !in Lang(r)
    decreases r, 0
  {
    hide Power;
    if w in Lang(r) {
      match r
      case Class(_, _) => assert false;
      case Cat(left, right) =>
        var u, v := ConcatSplit(Lang(left), Lang(right), w);
        if Void(left) { VoidEmpty(left, u); } else { VoidEmpty(right, v); }
      case Alt(left, right) => VoidEmpty(left, w); VoidEmpty(right, w);
      case Plus(exp) => NoneOfVoid(exp, 1, None, w);
      case Count(exp, from, to) => NoneOfVoid(exp, from, to, w);
    }
  }

  lemma {:induction false} NoneOfVoid(r: Regex, from: nat, to: Option<nat>, w: Word)
    requires Void(r) && from > 0
    ensures w !in Powers(Lang(r), from, to)
    decreases r, 1
  {
    if w in Powers(Lang(r), from, to) {
      var k: nat :| InRange(k, from, to) && w in Power(Lang(r), k);
      var u, v := ConcatSplit(Lang(r), Power(Lang(r), k - 1), w);
      VoidEmpty(r, u);
    }
  }

  lemma {:induction false} LengthsBetween(r: Regex)
    ensures Between(Lang(r), Fewest(r), Most(r))
    decreases r, 1
  {
    hide Power, Powers, Concat;
    if Void(r) {
      forall w: Word ensures w !in Lang(r) { VoidEmpty(r, w); }
    } else {
      NotVoidBetween(r);
    }
  }

  lemma {:induction false} NotVoidBetween(r: Regex)
    requires !Void(r)
    ensures Between(Lang(r), Fewest(r), Most(r))
    decreases r, 0
  {
    hide Power, Powers, Concat;
    match r
    case Char(_) =>
    case AnyChar =>
    case Class(_, _) =>
    case Cat(left, right) =>
      LengthsBetween(left);
      LengthsBetween(right);
      ConcatBetween(Lang(left), Lang(right), Fewest(left), Fewest(right), Most(left), Most(right), Most(r));
    case Alt(left, right) =>
      LengthsBetween(left);
      LengthsBetween(right);
      if Void(left) {
        forall w: Word ensures w !in Lang(left) { VoidEmpty(left, w); }
      } else if Void(right) {
        forall w: Word ensures w !in Lang(right) { VoidEmpty(right, w); }
      }
    case Optional(exp) => LengthsBetween(exp);
    case Star(exp) => LengthsBetween(exp); PowersBetween(Lang(exp), Fewest(exp), Most(exp), 0, None, Most(r));
    case Plus(exp) => LengthsBetween(exp); PowersBetween(Lang(exp), Fewest(exp), Most(exp), 1, None, Most(r));
    case Count(exp, from, to) => LengthsBetween(exp); PowersBetween(Lang(exp), Fewest(exp), Most(exp), from, to, Most(r));
  }

  lemma InPowersAt(a: Language, k: nat, from: nat, to: Option<nat>, w: Word)
    requires InRange(k, from, to) && w in Power(a, k)
    ensures w in Powers(a, from, to)
  {
  }

  lemma {:induction false} FewestWord(r: Regex) returns (w: Word)
    requires CountsOk(r) && !Void(r)
    ensures w in Lang(r) && |w| == Fewest(r)
  {
    hide Power, Powers, Concat;
    match r
    case Char(c) => w := [c];
    case AnyChar => w := [0];
    case Class(items, negative) =>
      var c: Sym :| InItems(items, c) != negative;
      w := [c];
    case Cat(left, right) =>
      var u := FewestWord(left);
      var v := FewestWord(right);
      InConcat(Lang(left), Lang(right), u, v);
      w := u + v;
    case Alt(left, right) =>
      if Void(right) || (!Void(left) && Fewest(left) < Fewest(right)) {
        w := FewestWord(left);
      } else {
        w := FewestWord(right);
      }
    case Optional(_) => w := [];
    case Star(exp) =>
      w := [];
      PowerZero(Lang(exp));
      InPowersAt(Lang(exp), 0, 0, None, []);
    case Plus(exp) =>
      w := FewestWord(exp);
      PowerOne(Lang(exp));
      InPowersAt(Lang(exp), 1, 1, None, w);
    case Count(exp, from, to) =>
      if from == 0 {
        w := [];
        PowerZero(Lang(exp));
      } else {
        var u := FewestWord(exp);
        w := PowerRepeat(Lang(exp), u, from);
      }
      InPowersAt(Lang(exp), from, from, to, w);
  }

  lemma {:induction false} MostWord(r: Regex) returns (w: Word)
    requires CountsOk(r) && !Void(r) && Most(r).Some?
    ensures w in Lang(r) && |w| == Most(r).value
  {
    hide Power, Powers, Concat;
    match r
    case Char(c) => w := [c];
    case AnyChar => w := [0];
    case Class(items, negative) =>
      var c: Sym :| InItems(items, c) != negative;
      w := [c];
    case Cat(left, right) =>
      var u := MostWord(left);
      var v := MostWord(right);
      InConcat(Lang(left), Lang(right), u, v);
      w := u + v;
    case Alt(left, right) =>
      if Void(left) || (!Void(right) && Most(left).value < Most(right).value) {
        w := MostWord(right);
      } else {
        w := MostWord(left);
      }
    case Optional(exp) =>
      if Void(exp) { w := []; } else { w := MostWord(exp); }
    case Star(exp) =>
      w := [];
      PowerZero(Lang(exp));
      InPowersAt(Lang(exp), 0, 0, None, []);
    case Plus(exp) =>
      w := MostWord(exp);
      PowerOne(Lang(exp));
      InPowersAt(Lang(exp), 1, 1, None, w);
    case Count(exp, from, to) =>
      if to == Some(0) || Void(exp) {
        w := [];
        PowerZero(Lang(exp));
        InPowersAt(Lang(exp), 0, from, to, []);
      } else {
        var u := MostWord(exp);
        var k := if to.Some? then to.value else from;
        w := PowerRepeat(Lang(exp), u, k);
        InPowersAt(Lang(exp), k, from, to, w);
      }
  }

  /** Exactly then it has no word. */
  lemma VoidIff(r: Regex)
    requires CountsOk(r)
    ensures Void(r) <==> NoWord(Lang(r))
  {
    if Void(r) {
      forall w: Word ensures w !in Lang(r) { VoidEmpty(r, w); }
    } else {
      var w := FewestWord(r);
    }
  }

  // ---- exactly when a counter is right ---------------------------------------------------------

  predicate InOrder(b: Bounds) {
    b.to.Some? ==> b.from <= b.to.value
  }

  /** Different numbers of copies that come to the same: of a factor that has the empty word only the upper
      end matters, of one that has no other word neither, and of one without words only whether none will do. */
  ghost predicate SameCopies(r: Regex, b: Bounds, c: Bounds) {
    b == c ||
    if Void(r) then (b.from == 0 <==> c.from == 0)
    else (Fewest(r) == 0 && b.to == c.to) || Most(r) == Some(0)
  }

  lemma {:induction false} PowerGrows(a: Language, j: nat, k: nat, w: Word)
    requires [] in a && j <= k && w in Power(a, j)
    ensures w in Power(a, k)
    decreases k
  {
    if j < k {
      PowerGrows(a, j, k - 1, w);
      PowerCons(a, k - 1, [], w);
      var none: Word := [];
      assert none + w == w;
    }
  }

  lemma PowersLowerEnd(a: Language, from: nat, from': nat, to: Option<nat>, w: Word)
    requires [] in a && w in Powers(a, from, to) && (to.Some? ==> from' <= to.value)
    ensures w in Powers(a, from', to)
  {
    hide Power;
    var k: nat :| InRange(k, from, to) && w in Power(a, k);
    PowerGrows(a, k, Max(k, from'), w);
    InPowersAt(a, Max(k, from'), from', to, w);
  }

  lemma OnlyEmptyPowers(a: Language, b: Bounds, w: Word)
    requires [] in a && Between(a, 0, Some(0)) && InOrder(b)
    ensures w in Powers(a, b.from, b.to) <==> w == []
  {
    hide Power;
    if w in Powers(a, b.from, b.to) {
      var k: nat :| InRange(k, b.from, b.to) && w in Power(a, k);
      PowerBetween(a, 0, Some(0), k, w);
    }
    var v := PowerRepeat(a, [], b.from);
    InPowersAt(a, b.from, b.from, b.to, v);
    assert v == [];
  }

  /** Of a factor without any word, the only copies there are is none of it. */
  lemma VoidPowersIff(a: Language, b: Bounds, c: Bounds)
    requires NoWord(a) && InOrder(b) && InOrder(c)
    ensures Powers(a, b.from, b.to) == Powers(a, c.from, c.to) <==> (b.from == 0 <==> c.from == 0)
  {
    VoidPowers(a, b);
    VoidPowers(a, c);
    var none: Word := [];
    assert none in Powers(a, b.from, b.to) <==> b.from == 0;
    assert none in Powers(a, c.from, c.to) <==> c.from == 0;
  }

  lemma VoidPowers(a: Language, b: Bounds)
    requires NoWord(a) && InOrder(b)
    ensures forall w: Word :: w in Powers(a, b.from, b.to) <==> w == [] && b.from == 0
  {
    forall w: Word
      ensures w in Powers(a, b.from, b.to) <==> w == [] && b.from == 0
    {
      if w == [] && b.from == 0 { InPowersAt(a, 0, 0, b.to, w); }
    }
  }

  lemma SameCopiesAgree(r: Regex, b: Bounds, c: Bounds)
    requires CountsOk(r) && InOrder(b) && InOrder(c) && SameCopies(r, b, c)
    ensures Powers(Lang(r), b.from, b.to) == Powers(Lang(r), c.from, c.to)
  {
    hide Powers;
    if Void(r) {
      VoidIff(r);
      VoidPowersIff(Lang(r), b, c);
    } else if b != c {
      LengthsBetween(r);
      MostZero(r);
      var none := FewestWord(r);
      assert none == [];
      forall w: Word
        ensures w in Powers(Lang(r), b.from, b.to) <==> w in Powers(Lang(r), c.from, c.to)
      {
        if Most(r) == Some(0) {
          OnlyEmptyPowers(Lang(r), b, w);
          OnlyEmptyPowers(Lang(r), c, w);
        } else {
          if w in Powers(Lang(r), b.from, b.to) { PowersLowerEnd(Lang(r), b.from, c.from, b.to, w); }
          if w in Powers(Lang(r), c.from, c.to) { PowersLowerEnd(Lang(r), c.from, b.from, b.to, w); }
        }
      }
    }
  }

  lemma {:induction false} MostZero(r: Regex)
    requires CountsOk(r) && !Void(r)
    ensures Most(r).Some? ==> Fewest(r) <= Most(r).value
  {
    match r
    case Char(_) =>
    case AnyChar =>
    case Class(_, _) =>
    case Cat(left, right) => MostZero(left); MostZero(right);
    case Alt(left, right) =>
      if !Void(left) { MostZero(left); }
      if !Void(right) { MostZero(right); }
    case Optional(exp) =>
    case Star(exp) =>
    case Plus(exp) => MostZero(exp);
    case Count(exp, from, to) =>
      if from > 0 {
        MostZero(exp);
        if to.Some? {
          MulMono(from, to.value, Fewest(exp));
          if Most(exp).Some? { MulMono(Fewest(exp), Most(exp).value, to.value); }
        }
      }
  }

  /** Shortest words tell the lower ends apart. */
  lemma LowerEndTold(r: Regex, b: Bounds, c: Bounds)
    requires CountsOk(r) && !Void(r) && Fewest(r) > 0 && InOrder(b)
    requires forall w: Word :: w in Powers(Lang(r), b.from, b.to) ==> w in Powers(Lang(r), c.from, c.to)
    ensures c.from <= b.from
  {
    hide Power;
    LengthsBetween(r);
    var u := FewestWord(r);
    var w := PowerRepeat(Lang(r), u, b.from);
    InPowersAt(Lang(r), b.from, b.from, b.to, w);
    var k: nat :| InRange(k, c.from, c.to) && w in Power(Lang(r), k);
    PowerBetween(Lang(r), Fewest(r), Most(r), k, w);
    if b.from < k { SmallerProduct(b.from, k, Fewest(r)); }
  }

  /** Longest words tell the upper ends apart. */
  lemma UpperEndTold(r: Regex, b: Bounds, c: Bounds, k: nat)
    requires CountsOk(r) && !Void(r) && Most(r).Some? && Most(r).value > 0 && InRange(k, b.from, b.to)
    requires forall w: Word :: w in Powers(Lang(r), b.from, b.to) ==> w in Powers(Lang(r), c.from, c.to)
    ensures c.to.Some? ==> k <= c.to.value
  {
    hide Power;
    LengthsBetween(r);
    var u := MostWord(r);
    var w := PowerRepeat(Lang(r), u, k);
    InPowersAt(Lang(r), k, b.from, b.to, w);
    var j: nat :| InRange(j, c.from, c.to) && w in Power(Lang(r), j);
    PowerBetween(Lang(r), Fewest(r), Most(r), j, w);
    if j < k { SmallerProduct(j, k, Most(r).value); }
  }

  lemma UpperEndsTold(r: Regex, b: Bounds, c: Bounds)
    requires CountsOk(r) && !Void(r) && Most(r).Some? && Most(r).value > 0 && InOrder(b) && InOrder(c)
    requires forall w: Word :: w in Powers(Lang(r), b.from, b.to) ==> w in Powers(Lang(r), c.from, c.to)
    ensures c.to.Some? ==> b.to.Some? && b.to.value <= c.to.value
  {
    if c.to.Some? {
      UpperEndTold(r, b, c, if b.to.Some? then b.to.value else Max(b.from, c.to.value + 1));
    }
  }

  lemma PowersSameIff(r: Regex, b: Bounds, c: Bounds)
    requires CountsOk(r) && Most(r).Some? && InOrder(b) && InOrder(c)
    ensures Powers(Lang(r), b.from, b.to) == Powers(Lang(r), c.from, c.to) <==> SameCopies(r, b, c)
  {
    hide Powers, Power, Lang;
    if SameCopies(r, b, c) {
      SameCopiesAgree(r, b, c);
    } else if Void(r) {
      VoidIff(r);
      VoidPowersIff(Lang(r), b, c);
    } else if Powers(Lang(r), b.from, b.to) == Powers(Lang(r), c.from, c.to) {
      UpperEndsTold(r, b, c);
      UpperEndsTold(r, c, b);
      if Fewest(r) > 0 {
        LowerEndTold(r, b, c);
        LowerEndTold(r, c, b);
      }
    }
  }

  lemma CopiesInOrder(exp: Regex, from: nat, to: Option<nat>)
    requires to.Some? ==> from <= to.value
    ensures InOrder(CopiesOf(exp, from, to))
  {
    var e := CountersAfter(exp, Bounds(from, to));
    if Repeats(from, to) && e.to.Some? {
      MandatoryStep(from, e.from, Max(e.to.value, 2));
    }
  }

  /** A counter over a factor whose words are not arbitrarily long compiles to its language exactly when the
      loop makes the copies the counter asks for, or others that come to the same. */
  lemma CounterRightIff(exp: Regex, from: nat, to: Option<nat>)
    requires CompiledLang(exp) == Lang(exp) && CountsOk(exp) && Most(exp).Some? && (to.Some? ==> from <= to.value)
    ensures CompiledLang(Count(exp, from, to)) == Lang(Count(exp, from, to)) <==> SameCopies(exp, CopiesOf(exp, from, to), Bounds(from, to))
  {
    hide Powers;
    CopiesInOrder(exp, from, to);
    PowersSameIff(exp, CopiesOf(exp, from, to), Bounds(from, to));
  }

  /** If its words may be arbitrarily long but none is empty, the lower end at least must be right. */
  lemma CounterRightLower(exp: Regex, from: nat, to: Option<nat>)
    requires CompiledLang(exp) == Lang(exp) && CountsOk(exp) && !Void(exp) && Fewest(exp) > 0 && (to.Some? ==> from <= to.value)
    requires CompiledLang(Count(exp, from, to)) == Lang(Count(exp, from, to))
    ensures CopiesOf(exp, from, to).from == from
  {
    hide Powers;
    CopiesInOrder(exp, from, to);
    LowerEndTold(exp, CopiesOf(exp, from, to), Bounds(from, to));
    LowerEndTold(exp, Bounds(from, to), CopiesOf(exp, from, to));
  }

  /** The row of every class is kept, and every counter makes the copies it asks for or others that come to
      the same. */
  ghost predicate Kept(r: Regex) {
    match r
    case Char(_) => true
    case AnyChar => true
    case Class(items, negative) => RowKept(items, negative)
    case Cat(left, right) => Kept(left) && Kept(right)
    case Alt(left, right) => Kept(left) && Kept(right)
    case Optional(exp) => Kept(exp)
    case Star(exp) => Kept(exp)
    case Plus(exp) => Kept(exp)
    case Count(exp, from, to) => Kept(exp) && SameCopies(exp, CopiesOf(exp, from, to), Bounds(from, to))
  }

  /** Then the compiled automaton has the language of the expression. */
  lemma {:induction false} CompiledIsLang(r: Regex)
    requires CountsOk(r) && Kept(r)
    ensures CompiledLang(r) == Lang(r)
  {
    hide Concat, Powers, Power;
    match r
    case Char(_) =>
    case AnyChar =>
    case Class(items, negative) => RowKeptRight(items, negative);
    case Cat(left, right) => CompiledIsLang(left); CompiledIsLang(right);
    case Alt(left, right) => CompiledIsLang(left); CompiledIsLang(right);
    case Optional(exp) => CompiledIsLang(exp);
    case Star(exp) => CompiledIsLang(exp);
    case Plus(exp) => CompiledIsLang(exp);
    case Count(exp, from, to) =>
      CompiledIsLang(exp);
      CopiesInOrder(exp, from, to);
      SameCopiesAgree(exp, CopiesOf(exp, from, to), Bounds(from, to));
  }

  /** Of every part a class must be kept and a counter must make the copies it asks for. */
  lemma KeptIff(r: Regex)
    ensures Kept(r) <==> forall e :: Contains(r, e) ==>
      && (e.Class? ==> RowKept(e.items, e.negative))
      && (e.Count? ==> SameCopies(e.exp, CopiesOf(e.exp, e.from, e.to), Bounds(e.from, e.to)))
  {
    hide RowKept, SameCopies, CopiesOf;
    if Kept(r) {
      forall e | Contains(r, e) ensures Kept(e) { PartsKept(r, e); }
    }
    if forall e :: Contains(r, e) ==> KeptHere(e) { AllPartsKept(r); }
  }

  ghost predicate KeptHere(e: Regex) {
    && (e.Class? ==> RowKept(e.items, e.negative))
    && (e.Count? ==> SameCopies(e.exp, CopiesOf(e.exp, e.from, e.to), Bounds(e.from, e.to)))
  }

  lemma {:induction false} PartsKept(r: Regex, e: Regex)
    requires Kept(r) && Contains(r, e)
    ensures Kept(e)
  {
    hide RowKept, SameCopies, CopiesOf;
    if r != e {
      match r
      case Cat(left, right) => if Contains(left, e) { PartsKept(left, e); } else { PartsKept(right, e); }
      case Alt(left, right) => if Contains(left, e) { PartsKept(left, e); } else { PartsKept(right, e); }
      case Optional(exp) => PartsKept(exp, e);
      case Star(exp) => PartsKept(exp, e);
      case Plus(exp) => PartsKept(exp, e);
      case Count(exp, _, _) => PartsKept(exp, e);
    }
  }

  lemma {:induction false} AllPartsKept(r: Regex)
    requires forall e :: Contains(r, e) ==> KeptHere(e)
    ensures Kept(r)
  {
    hide RowKept, SameCopies, CopiesOf;
    assert Contains(r, r) && KeptHere(r);
    match r
    case Char(_) =>
    case AnyChar =>
    case Class(_, _) =>
    case Cat(left, right) => AllPartsKept(left); AllPartsKept(right);
    case Alt(left, right) => AllPartsKept(left); AllPartsKept(right);
    case Optional(exp) => AllPartsKept(exp);
    case Star(exp) => AllPartsKept(exp);
    case Plus(exp) => AllPartsKept(exp);
    case Count(exp, _, _) => AllPartsKept(exp);
  }

  lemma {:induction false} NoCounterInside(r: Regex)
    requires forall e :: Contains(r, e) ==> !e.Count?
    ensures NoCounter(r)
  {
    assert Contains(r, r);
    match r
    case Char(_) =>
    case AnyChar =>
    case Class(_, _) =>
    case Cat(left, right) => NoCounterInside(left); NoCounterInside(right);
    case Alt(left, right) => NoCounterInside(left); NoCounterInside(right);
    case Optional(exp) => NoCounterInside(exp);
    case Star(exp) => NoCounterInside(exp);
    case Plus(exp) => NoCounterInside(exp);
  }

  /** Plain expressions compile to their language: every class has its ranges placed, no counter is inside the
      factor of another one, and none is reversed. */
  lemma PlainCompiles(r: Regex)
    requires !Refused(r)
    requires forall e :: Contains(r, e) ==> (e.Class? ==> Placed(e.items)) && (e.Count? ==> forall d :: Contains(e.exp, d) ==> !d.Count?)
    ensures Kept(r) && CompiledLang(r) == Lang(r)
  {
    hide RowKept, SameCopies, CopiesOf, CompiledLang, Lang, Kept, Placed;
    RefusedIff(r);
    forall e | Contains(r, e)
      ensures KeptHere(e)
    {
      PartsOk(r, e);
      PlainPart(e);
    }
    AllPartsKept(r);
    CompiledIsLang(r);
  }

  lemma PlainPart(e: Regex)
    requires CountsOk(e) && (e.Class? ==> Placed(e.items)) && (e.Count? ==> forall d :: Contains(e.exp, d) ==> !d.Count?)
    ensures KeptHere(e)
  {
    if e.Class? { PlacedRight(e.items, e.negative); }
    if e.Count? {
      NoCounterInside(e.exp);
      SimpleCounterHolds(e.exp, e.from, e.to);
    }
  }

  /** A counter directly around another one: the loop takes its ends from the inner counter, whatever it asks
      for itself, except that nothing stays optional where it was. */
  lemma NestedCounter(exp: Regex, lo: nat, hi: nat, from: nat, to: nat)
    requires NoCounter(exp) && lo <= hi && from <= to && 2 <= to
    ensures var inner := Count(exp, lo, Some(hi));
      CompiledLang(Count(inner, from, Some(to)))
      == Powers(CompiledLang(inner), Max(lo, 1) - if from == 0 then 1 else 0, Some(Max(hi, 2)))
  {
    hide Powers;
    var inner := Count(exp, lo, Some(hi));
    NoCounterKeeps(exp, Bounds(lo, Some(hi)));
    assert CountersAfter(inner, Bounds(from, Some(to))) == Bounds(lo, Some(hi));
  }

  /** (a{2}){3}: the inner counter ends the outer loop after two copies, four letters instead of six. */
  lemma NestedCounterFails(a: Sym)
    ensures var r := Count(Count(Char(a), 2, Some(2)), 3, Some(3)); CompiledLang(r) == Power(Lang(r.exp), 2) && CompiledLang(r) != Lang(r)
  {
    var inner := Count(Char(a), 2, Some(2));
    SimpleCounterHolds(Char(a), 2, Some(2));
    assert CountersAfter(inner, Bounds(3, Some(3))) == Bounds(2, Some(2));
    assert CopiesOf(inner, 3, Some(3)) == Bounds(2, Some(2));
    assert !Void(inner);
    CounterRightIff(inner, 3, Some(3));
    PowersExact(Lang(inner), 2);
  }

  lemma UnfoldRefused(r: Regex)
    ensures r.Char? || r.AnyChar? || r.Class? ==> !Refused(r)
    ensures r.Cat? || r.Alt? ==> (Refused(r) <==> Refused(r.left) || Refused(r.right))
    ensures r.Optional? || r.Star? || r.Plus? ==> (Refused(r) <==> Refused(r.exp))
    ensures r.Count? ==> (Refused(r) <==> Refused(r.exp) || (r.to.Some? && r.to.value < r.from))
    ensures Refused(r) <==> !CountsOk(r)
    ensures r.Count? ==> (Refused(r.exp) <==> !CountsOk(r.exp))
  {
    hide Refused;
    RefusedIff(r);
    if r.Cat? || r.Alt? { RefusedIff(r.left); RefusedIff(r.right); }
    if r.Optional? || r.Star? || r.Plus? || r.Count? { RefusedIff(r.exp); }
  }

  lemma Unfold(r: Regex)
    ensures r.Class? ==> CompiledLang(r) == OneSymbol(ClassRow(r.items, r.negative))
    ensures r.Char? || r.AnyChar? ==> CompiledLang(r) == Lang(r)
    ensures r.Char? || r.AnyChar? || r.Class? ==> CountsOk(r) && forall c: Bounds :: CountersAfter(r, c) == c
    ensures r.Cat? ==> CompiledLang(r) == Concat(CompiledLang(r.left), CompiledLang(r.right))
    ensures r.Alt? ==> CompiledLang(r) == CompiledLang(r.left) + CompiledLang(r.right)
    ensures r.Cat? || r.Alt? ==> forall c: Bounds :: CountersAfter(r, c) == CountersAfter(r.right, CountersAfter(r.left, c))
    ensures r.Optional? ==> CompiledLang(r) == Maybe(CompiledLang(r.exp))
    ensures r.Star? ==> CompiledLang(r) == Powers(CompiledLang(r.exp), 0, None)
    ensures r.Plus? ==> CompiledLang(r) == Powers(CompiledLang(r.exp), 1, None)
    ensures r.Optional? || r.Star? || r.Plus? ==> forall c: Bounds :: CountersAfter(r, c) == CountersAfter(r.exp, c)
    ensures r.Count? ==> CompiledLang(r) == Powers(CompiledLang(r.exp), CopiesOf(r.exp, r.from, r.to).from, CopiesOf(r.exp, r.from, r.to).to)
    ensures r.Count? ==> forall c: Bounds ::
              CountersAfter(r, c) == if Repeats(r.from, r.to) then CountersAfter(r.exp, Bounds(r.from, r.to)) else Bounds(r.from, r.to)
  {
    hide Concat, Powers, Maybe, Power;
  }
}
