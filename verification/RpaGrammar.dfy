/** Grammars of the pattern analyzer (rpa/) and what they match. The functions below are the reference
    matcher: the emitted code is proved to compute them. They follow the code where it departs from the
    usual reading of a parsing expression: an alternative that matches nothing is passed over, a rule that
    matches nothing fails, and a negation consumes one symbol. */
module RpaGrammar {
  import opened Automata

  /** RPA_MATCH_NONE, OPTIONAL, MULTIPLE and MULTIOPT. */
  datatype Quant = Nan | Opt | Mul | Mop

  /** An entry of a character class. */
  datatype Member = Single(c: Sym) | Special(c: Sym) | Range(p1: Sym, p2: Sym)

  /** What a record of the grammar's own syntax tree compiles to. `Minus` matches `req` where `nor` does
      not match anything. */
  datatype Core =
    | Chr(c: Sym)
    | Spc(c: Sym)
    | Cls(members: seq<Member>)
    | Exp(body: Items)
    | Alt(branches: Items)
    | Minus(nor: Item, req: Item)
    | Not(item: Item)
    | Ref(rule: nat)

  datatype Item = Item(core: Core, q: Quant)

  datatype Items = Nil | Cons(head: Item, tail: Items)

  /** `emit` is the flag RPA_RFLAG_EMITRECORD. */
  datatype Rule = Rule(body: Items, emit: bool)

  /** A decoded input symbol and its other case. */
  datatype Glyph = Glyph(wc: Sym, iwc: Sym)

  datatype Mark = Start | End

  datatype Record = Record(mark: Mark, rule: nat, top: nat, size: nat)

  /** The rules and one input. `keep` says that the caller wants the records. */
  datatype Env = Env(rules: seq<Rule>, input: seq<Glyph>, icase: bool, keep: bool)

  /** The result of matching at a position: the position reached and the records emitted. `NoFuel` is the
      matcher giving up on the number of nested rule calls, and says nothing about the code. */
  datatype Outcome = NoFuel | Fail | Match(top: nat, recs: seq<Record>)

  predicate ChrAt(env: Env, top: nat, c: Sym) {
    top < |env.input| && (env.input[top].wc == c || (env.icase && env.input[top].iwc == c))
  }

  function SpecialChar(special: Sym): Sym {
    if special == 't' as int then '\t' as int
    else if special == 'r' as int then '\r' as int
    else if special == 'n' as int then '\n' as int
    else special
  }

  predicate SpcAt(env: Env, top: nat, c: Sym) {
    top < |env.input| && (SpecialChar(c) == '.' as int || env.input[top].wc == SpecialChar(c))
  }

  predicate RngAt(env: Env, top: nat, lo: Sym, hi: Sym) {
    top < |env.input| && (lo <= env.input[top].wc <= hi || (env.icase && lo <= env.input[top].iwc <= hi))
  }

  predicate MemberAt(env: Env, top: nat, m: Member) {
    match m
    case Single(c) => ChrAt(env, top, c)
    case Special(c) => SpcAt(env, top, c)
    case Range(p1, p2) => if p1 < p2 then RngAt(env, top, p1, p2) else RngAt(env, top, p2, p1)
  }

  function One(top: nat, matched: bool): Outcome {
    if matched then Match(top + 1, []) else Fail
  }

  /** A match advances or stays, and one that stays emits nothing; nothing is emitted for a caller that
      does not want records. */
  predicate Sane(env: Env, top: nat, o: Outcome) {
    o.Match? ==> top <= o.top <= |env.input| && (o.top == top || !env.keep ==> o.recs == [])
  }

  /** A rule call, given the outcome of the rule's body. */
  function RuleOutcome(env: Env, r: nat, top: nat, o: Outcome): (w: Outcome)
    requires r < |env.rules| && Sane(env, top, o)
    ensures Sane(env, top, w)
    ensures w.NoFuel? <==> o.NoFuel?
  {
    match o
    case NoFuel => NoFuel
    case Fail => Fail
    case Match(t, recs) =>
      if t == top then Fail
      else if !env.rules[r].emit || !env.keep then o
      else Match(t, [Record(Start, r, top, t - top)] + recs + [Record(End, r, top, t - top)])
  }

  function Quantified(q: Quant, top: nat, once: Outcome, many: Outcome): Outcome {
    match q
    case Nan => once
    case Opt => if once.Fail? then Match(top, []) else once
    case Mul => if many.Match? && many.top == top then Fail else many
    case Mop => many
  }

  function CoreOutcome(env: Env, f: nat, c: Core, top: nat): (o: Outcome)
    requires top <= |env.input|
    ensures Sane(env, top, o)
    decreases f, c, 0, 0
  {
    match c
    case Chr(wc) => One(top, ChrAt(env, top, wc))
    case Spc(wc) => One(top, SpcAt(env, top, wc))
    case Cls(ms) => One(top, exists m :: m in ms && MemberAt(env, top, m))
    case Exp(body) => ItemsOutcome(env, f, body, top)
    case Alt(branches) => AltOutcome(env, f, branches, top)
    case Minus(nor, req) =>
      var o := ItemOutcome(env, f, nor, top);
      if o.NoFuel? then NoFuel
      else if o.Match? && o.top > top then Fail
      else ItemOutcome(env, f, req, top)
    case Not(item) =>
      var o := ItemOutcome(env, f, item, top);
      if o.NoFuel? then NoFuel else One(top, o.Fail? && top < |env.input|)
    case Ref(r) =>
      if r >= |env.rules| then Fail
      else if f == 0 then NoFuel
      else RuleOutcome(env, r, top, ItemsOutcome(env, f - 1, env.rules[r].body, top))
  }

  /** As many matches as make progress. */
  function Loop(env: Env, f: nat, c: Core, top: nat): (o: Outcome)
    requires top <= |env.input|
    ensures Sane(env, top, o) && !o.Fail?
    decreases f, c, 1, |env.input| - top
  {
    var once := CoreOutcome(env, f, c, top);
    if once.NoFuel? then NoFuel
    else if once.Fail? || once.top == top then Match(top, [])
    else
      var rest := Loop(env, f, c, once.top);
      if rest.NoFuel? then NoFuel else Match(rest.top, once.recs + rest.recs)
  }

  function ItemOutcome(env: Env, f: nat, e: Item, top: nat): (o: Outcome)
    requires top <= |env.input|
    ensures Sane(env, top, o)
    decreases f, e, 0, 0
  {
    if e.q.Nan? || e.q.Opt? then Quantified(e.q, top, CoreOutcome(env, f, e.core, top), NoFuel)
    else Quantified(e.q, top, NoFuel, Loop(env, f, e.core, top))
  }

  function ItemsOutcome(env: Env, f: nat, b: Items, top: nat): (o: Outcome)
    requires top <= |env.input|
    ensures Sane(env, top, o)
    decreases f, b, 0, 0
  {
    match b
    case Nil => Match(top, [])
    case Cons(head, tail) =>
      var o := ItemOutcome(env, f, head, top);
      if !o.Match? then o
      else
        var rest := ItemsOutcome(env, f, tail, o.top);
        if rest.Match? then Match(rest.top, o.recs + rest.recs) else rest
  }

  function AltOutcome(env: Env, f: nat, b: Items, top: nat): (o: Outcome)
    requires top <= |env.input|
    ensures Sane(env, top, o)
    ensures o.Match? ==> o.top > top
    decreases f, b, 0, 0
  {
    match b
    case Nil => Fail
    case Cons(head, tail) =>
      var o := ItemOutcome(env, f, head, top);
      if o.NoFuel? || (o.Match? && o.top > top) then o else AltOutcome(env, f, tail, top)
  }

  /** Calling rule `r` with room for `f` more nested calls. */
  function CallOutcome(env: Env, f: nat, r: nat, top: nat): (o: Outcome)
    requires r < |env.rules| && top <= |env.input|
    ensures Sane(env, top, o)
  {
    RuleOutcome(env, r, top, ItemsOutcome(env, f, env.rules[r].body, top))
  }

  /** `d` is a part of `c`, or all of it. */
  predicate Inside(c: Core, d: Core)
    decreases c
  {
    c == d ||
    match c
    case Exp(body) => InsideAny(body, d)
    case Alt(branches) => InsideAny(branches, d)
    case Minus(nor, req) => Inside(nor.core, d) || Inside(req.core, d)
    case Not(item) => Inside(item.core, d)
    case _ => false
  }

  predicate InsideAny(b: Items, d: Core)
    decreases b
  {
    b.Cons? && (Inside(b.head.core, d) || InsideAny(b.tail, d))
  }

  // ---- what the symbols of a grammar match -------------------------------------------------------

  /** `w`, or its other case `v` where the input is read without regard to case, lies between the two ends,
      whichever is written first. */
  predicate Spanned(w: Sym, v: Sym, icase: bool, a: Sym, b: Sym) {
    (a <= w <= b || b <= w <= a) || (icase && (a <= v <= b || b <= v <= a))
  }

  /** The escapes: \t, \r and \n stand for the characters 9, 13 and 10, the dot for any symbol, anything else
      for itself. */
  predicate Escaped(w: Sym, c: Sym) {
    && (c == 't' as int ==> w == 9) && (c == 'r' as int ==> w == 13) && (c == 'n' as int ==> w == 10)
    && (c !in {'t' as int, 'r' as int, 'n' as int, '.' as int} ==> w == c)
  }

  predicate Admits(m: Member, w: Sym, v: Sym, icase: bool) {
    match m
    case Single(c) => Spanned(w, v, icase, c, c)
    case Special(c) => Escaped(w, c)
    case Range(p1, p2) => Spanned(w, v, icase, p1, p2)
  }

  /** A character, a special character and a class match one symbol or fail, and fail at the end. */
  lemma SymbolMatched(env: Env, f: nat, c: Core, top: nat)
    requires top <= |env.input| && (c.Chr? || c.Spc? || c.Cls?)
    ensures top == |env.input| ==> CoreOutcome(env, f, c, top) == Fail
    ensures top < |env.input| ==>
      var w, v := env.input[top].wc, env.input[top].iwc;
      var hit :=
        match c
        case Chr(x) => w == x || (env.icase && v == x)
        case Spc(x) => Escaped(w, x)
        case Cls(ms) => exists m :: m in ms && Admits(m, w, v, env.icase)
        case _ => false;
      CoreOutcome(env, f, c, top) == if hit then Match(top + 1, []) else Fail
  {
    if c.Cls? && top < |env.input| {
      forall m | m in c.members
        ensures MemberAt(env, top, m) <==> Admits(m, env.input[top].wc, env.input[top].iwc, env.icase)
      {
      }
    }
  }

  /** `k` symbols in a row match, and no more. */
  predicate InARow(env: Env, f: nat, c: Core, top: nat, k: nat) {
    && top + k <= |env.input|
    && (forall i :: top <= i < top + k ==> CoreOutcome(env, f, c, i) == Match(i + 1, []))
    && CoreOutcome(env, f, c, top + k) == Fail
  }

  /** The quantifiers over one symbol, by the number of symbols in a row that match. */
  lemma {:induction false} SymbolQuantified(env: Env, f: nat, c: Core, top: nat) returns (k: nat)
    requires top <= |env.input| && (c.Chr? || c.Spc? || c.Cls?)
    ensures InARow(env, f, c, top, k)
    ensures ItemOutcome(env, f, Item(c, Nan), top) == if k > 0 then Match(top + 1, []) else Fail
    ensures ItemOutcome(env, f, Item(c, Opt), top) == Match(if k > 0 then top + 1 else top, [])
    ensures ItemOutcome(env, f, Item(c, Mul), top) == if k > 0 then Match(top + k, []) else Fail
    ensures ItemOutcome(env, f, Item(c, Mop), top) == Match(top + k, [])
    decreases |env.input| - top
  {
    SymbolMatched(env, f, c, top);
    if CoreOutcome(env, f, c, top).Match? {
      var n := SymbolQuantified(env, f, c, top + 1);
      k := n + 1;
    } else {
      k := 0;
    }
  }

  /** Calling a rule that is one symbol. */
  lemma SymbolRule(env: Env, f: nat, r: nat, c: Core, top: nat)
    requires r < |env.rules| && env.rules[r].body == Cons(Item(c, Nan), Nil) && (c.Chr? || c.Spc? || c.Cls?) && top <= |env.input|
    ensures CallOutcome(env, f, r, top) ==
      if CoreOutcome(env, f, c, top).Fail? then Fail
      else Match(top + 1, if env.rules[r].emit && env.keep then [Record(Start, r, top, 1), Record(End, r, top, 1)] else [])
  {
    SymbolMatched(env, f, c, top);
    assert ItemsOutcome(env, f, Nil, top) == Match(top, []);
    var o := ItemOutcome(env, f, Item(c, Nan), top);
    if o.Match? { assert ItemsOutcome(env, f, Nil, o.top) == Match(o.top, []); }
  }

  lemma {:induction false} CoreMono(env: Env, f: nat, c: Core, top: nat)
    requires top <= |env.input| && !CoreOutcome(env, f, c, top).NoFuel?
    ensures CoreOutcome(env, f + 1, c, top) == CoreOutcome(env, f, c, top)
    decreases f, c, 0, 0
  {
    match c
    case Chr(_) =>
    case Spc(_) =>
    case Cls(_) =>
    case Exp(body) => ItemsMono(env, f, body, top);
    case Alt(branches) => AltMono(env, f, branches, top);
    case Minus(nor, req) =>
      ItemMono(env, f, nor, top);
      if !(ItemOutcome(env, f, nor, top).Match? && ItemOutcome(env, f, nor, top).top > top) {
        ItemMono(env, f, req, top);
      }
    case Not(item) => ItemMono(env, f, item, top);
    case Ref(r) => if r < |env.rules| { ItemsMono(env, f - 1, env.rules[r].body, top); }
  }

  lemma {:induction false} LoopMono(env: Env, f: nat, c: Core, top: nat)
    requires top <= |env.input| && !Loop(env, f, c, top).NoFuel?
    ensures Loop(env, f + 1, c, top) == Loop(env, f, c, top)
    decreases f, c, 1, |env.input| - top
  {
    CoreMono(env, f, c, top);
    var once := CoreOutcome(env, f, c, top);
    if once.Match? && once.top > top { LoopMono(env, f, c, once.top); }
  }

  lemma {:induction false} ItemMono(env: Env, f: nat, e: Item, top: nat)
    requires top <= |env.input| && !ItemOutcome(env, f, e, top).NoFuel?
    ensures ItemOutcome(env, f + 1, e, top) == ItemOutcome(env, f, e, top)
    decreases f, e, 0, 0
  {
    if e.q.Nan? || e.q.Opt? { CoreMono(env, f, e.core, top); } else { LoopMono(env, f, e.core, top); }
  }

  lemma {:induction false} ItemsMono(env: Env, f: nat, b: Items, top: nat)
    requires top <= |env.input| && !ItemsOutcome(env, f, b, top).NoFuel?
    ensures ItemsOutcome(env, f + 1, b, top) == ItemsOutcome(env, f, b, top)
    decreases f, b, 0, 0
  {
    match b
    case Nil =>
    case Cons(head, tail) =>
      ItemMono(env, f, head, top);
      var o := ItemOutcome(env, f, head, top);
      if o.Match? { ItemsMono(env, f, tail, o.top); }
  }

  lemma {:induction false} AltMono(env: Env, f: nat, b: Items, top: nat)
    requires top <= |env.input| && !AltOutcome(env, f, b, top).NoFuel?
    ensures AltOutcome(env, f + 1, b, top) == AltOutcome(env, f, b, top)
    decreases f, b, 0, 0
  {
    match b
    case Nil =>
    case Cons(head, tail) =>
      ItemMono(env, f, head, top);
      var o := ItemOutcome(env, f, head, top);
      if !(o.Match? && o.top > top) { AltMono(env, f, tail, top); }
  }

  /** The outcome of a call does not depend on how much room it had, once it had enough. */
  lemma {:induction false} CallDetermined(env: Env, f: nat, g: nat, r: nat, top: nat)
    requires r < |env.rules| && top <= |env.input|
    requires !CallOutcome(env, f, r, top).NoFuel? && !CallOutcome(env, g, r, top).NoFuel?
    ensures CallOutcome(env, f, r, top) == CallOutcome(env, g, r, top)
    decreases if f < g then g - f else f - g
  {
    if f < g {
      ItemsMono(env, f, env.rules[r].body, top);
      CallDetermined(env, f + 1, g, r, top);
    } else if g < f {
      ItemsMono(env, g, env.rules[r].body, top);
      CallDetermined(env, f, g + 1, r, top);
    }
  }
}
