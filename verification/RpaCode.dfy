/** What the code of an expression looks like once its branches are linked: the layout the compiler of
    rpa/rpacompiler.c and the record handlers of rpa/rpadbex.c produce. */
module RpaCode {
  import opened Arithmetic
  import opened RpaGrammar
  import opened RvmCpu

  predicate Has(code: seq<Ins>, a: int, i: Ins) {
    0 <= a < |code| && code[a] == i
  }

  function RefSize(q: Quant): nat {
    match q
    case Nan => 1
    case Opt => 4
    case Mul => 8
    case Mop => 8
  }

  /** The length of the subroutine of an expression; characters and rule references have none of their own. */
  function SubSize(c: Core): nat
    decreases c
  {
    match c
    case Chr(_) => 0
    case Spc(_) => 0
    case Cls(ms) => 2 * |ms| + 10
    case Exp(body) => ItemsSize(body) + 13
    case Alt(branches) => ItemsSize(branches) + 10
    case Minus(nor, req) => ItemSize(nor) + ItemSize(req) + 15
    case Not(item) => ItemSize(item) + 14
    case Ref(_) => 0
  }

  function ItemSize(e: Item): nat
    decreases e
  {
    match e.core
    case Chr(_) => 1
    case Spc(_) => 1
    case Ref(_) => RefSize(e.q)
    case _ => 1 + SubSize(e.core) + RefSize(e.q)
  }

  /** Each item is followed by a conditional branch. */
  function ItemsSize(b: Items): nat
    decreases b
  {
    match b
    case Nil => 0
    case Cons(head, tail) => ItemSize(head) + 1 + ItemsSize(tail)
  }

  /** A call of the subroutine at `sub` as often as `q` says. */
  predicate RefAt(code: seq<Ins>, a: int, q: Quant, sub: int) {
    match q
    case Nan => Has(code, a, BL(sub - a))
    case Opt => Has(code, a, BL(sub - a)) && Has(code, a + 1, MOVS(R0, R0)) && Has(code, a + 2, BGRE(2)) && Has(code, a + 3, MOVI(R0, 0))
    case Mul => RepeatAt(code, a, sub) && Has(code, a + 7, MOVI(R0, -1))
    case Mop => RepeatAt(code, a, sub) && Has(code, a + 7, MOVI(R0, 0))
  }

  predicate RepeatAt(code: seq<Ins>, a: int, sub: int) {
    Has(code, a, PUSH(RTOP)) && Has(code, a + 1, BL(sub - (a + 1))) && Has(code, a + 2, MOVS(R0, R0)) && Has(code, a + 3, BGRE(-2))
    && Has(code, a + 4, POP(R0)) && Has(code, a + 5, SUBS(R0, RTOP, R0)) && Has(code, a + 6, BGRE(2))
  }

  /** Saving R_REC, R_TOP and LR. */
  predicate HeadAt(code: seq<Ins>, b: int) {
    Has(code, b, PUSH(RREC)) && Has(code, b + 1, PUSH(RTOP)) && Has(code, b + 2, PUSH(LR))
  }

  /** Restoring all three and returning -1. */
  predicate FailAt(code: seq<Ins>, x: int) {
    Has(code, x, POP(LR)) && Has(code, x + 1, POP(RTOP)) && Has(code, x + 2, POP(RREC)) && Has(code, x + 3, MOVI(R0, -1))
    && Has(code, x + 4, BX(LR))
  }

  /** Returning what was matched, in the frame of three. */
  predicate DoneAt(code: seq<Ins>, x: int) {
    Has(code, x, POP(LR)) && Has(code, x + 1, POP(R1)) && Has(code, x + 2, POP(R0)) && Has(code, x + 3, SUBS(R0, RTOP, R1))
    && Has(code, x + 4, BX(LR))
  }

  /** The frame of alternatives and classes saves R_TOP and LR only. */
  predicate AltHeadAt(code: seq<Ins>, b: int) {
    Has(code, b, PUSH(RTOP)) && Has(code, b + 1, PUSH(LR))
  }

  predicate AltFailAt(code: seq<Ins>, x: int) {
    Has(code, x, POP(LR)) && Has(code, x + 1, POP(RTOP)) && Has(code, x + 2, MOVI(R0, -1)) && Has(code, x + 3, BX(LR))
  }

  predicate AltDoneAt(code: seq<Ins>, x: int) {
    Has(code, x, POP(LR)) && Has(code, x + 1, POP(R1)) && Has(code, x + 2, SUBS(R0, RTOP, R1)) && Has(code, x + 3, BX(LR))
  }

  /** Where a negation ends up when its operand has failed: one symbol is consumed. */
  predicate SkipAt(code: seq<Ins>, x: int) {
    Has(code, x, POP(LR)) && Has(code, x + 1, POP(RTOP)) && Has(code, x + 2, POP(R0)) && Has(code, x + 3, MATCH(TSpc('.' as int), Nan))
    && Has(code, x + 4, BX(LR))
  }

  function MemberTest(m: Member): Test {
    match m
    case Single(c) => TChr(c)
    case Special(c) => TSpc(c)
    case Range(p1, p2) => if p1 < p2 then TRng(p1, p2) else TRng(p2, p1)
  }

  predicate MembersAt(code: seq<Ins>, a: int, ms: seq<Member>, end: int) {
    forall k :: 0 <= k < |ms| ==> MemberAtCode(code, a + 2 * k, ms[k], end)
  }

  predicate MemberAtCode(code: seq<Ins>, a: int, m: Member, end: int) {
    Has(code, a, MATCH(MemberTest(m), Nan)) && Has(code, a + 1, BGRE(end - (a + 1)))
  }

  /** The subroutine of an expression starts at `b`. */
  predicate SubAt(code: seq<Ins>, b: int, c: Core, starts: seq<int>)
    decreases c
  {
    match c
    case Chr(_) => false
    case Spc(_) => false
    case Cls(ms) =>
      AltHeadAt(code, b) && MembersAt(code, b + 2, ms, b + 6 + 2 * |ms|) && AltFailAt(code, b + 2 + 2 * |ms|)
      && AltDoneAt(code, b + 6 + 2 * |ms|)
    case Exp(body) =>
      var x := b + 3 + ItemsSize(body);
      HeadAt(code, b) && BodyAt(code, b + 3, body, x + 5, starts) && DoneAt(code, x) && FailAt(code, x + 5)
    case Alt(branches) =>
      var x := b + 2 + ItemsSize(branches);
      AltHeadAt(code, b) && BranchesAt(code, b + 2, branches, x + 4, starts) && AltFailAt(code, x) && AltDoneAt(code, x + 4)
    case Minus(nor, req) =>
      var y := b + 4 + ItemSize(nor);
      var x := y + 1 + ItemSize(req);
      HeadAt(code, b) && ItemAt(code, b + 3, nor, starts) && Has(code, y - 1, BGRE(x + 5 - (y - 1)))
      && ItemAt(code, y, req, starts) && Has(code, x - 1, BLES(x + 5 - (x - 1))) && DoneAt(code, x) && FailAt(code, x + 5)
    case Not(item) =>
      var x := b + 4 + ItemSize(item);
      HeadAt(code, b) && ItemAt(code, b + 3, item, starts) && Has(code, x - 1, BLES(x + 5 - (x - 1))) && FailAt(code, x)
      && SkipAt(code, x + 5)
    case Ref(r) => r < |starts| && b == starts[r]
  }

  /** The code of an item: its subroutine, jumped over, and the calls. */
  predicate ItemAt(code: seq<Ins>, a: int, e: Item, starts: seq<int>)
    decreases e
  {
    match e.core
    case Chr(c) => Has(code, a, MATCH(TChr(c), e.q))
    case Spc(c) => Has(code, a, MATCH(TSpc(c), e.q))
    case Ref(r) => r < |starts| && RefAt(code, a, e.q, starts[r])
    case _ =>
      Has(code, a, B(1 + SubSize(e.core))) && SubAt(code, a + 1, e.core, starts) && RefAt(code, a + 1 + SubSize(e.core), e.q, a + 1)
  }

  /** A sequence leaves for `end` at the first item that fails. */
  predicate BodyAt(code: seq<Ins>, a: int, b: Items, end: int, starts: seq<int>)
    decreases b
  {
    match b
    case Nil => true
    case Cons(head, tail) =>
      var x := a + ItemSize(head);
      ItemAt(code, a, head, starts) && Has(code, x, BLES(end - x)) && BodyAt(code, x + 1, tail, end, starts)
  }

  /** Alternatives leave for `end` at the first that matches something. */
  predicate BranchesAt(code: seq<Ins>, a: int, b: Items, end: int, starts: seq<int>)
    decreases b
  {
    match b
    case Nil => true
    case Cons(head, tail) =>
      var x := a + ItemSize(head);
      ItemAt(code, a, head, starts) && Has(code, x, BGRE(end - x)) && BranchesAt(code, x + 1, tail, end, starts)
  }

  function EmitSize(rule: Rule): nat {
    if rule.emit then 1 else 0
  }

  function RuleSize(rule: Rule): nat {
    22 + 2 * EmitSize(rule) + ItemsSize(rule.body)
  }

  predicate RuleHeadAt(code: seq<Ins>, b: int, r: nat, rule: Rule) {
    b >= 0 && Has(code, b, CHECKCACHE(b)) && Has(code, b + 1, BXNEQ(LR)) && HeadAt(code, b + 2) && (rule.emit ==> Has(code, b + 5, EMITSTART(r)))
  }

  predicate RuleDoneAt(code: seq<Ins>, b: int, x: int, r: nat, rule: Rule) {
    b >= 0 &&
    var y := x + 5 + EmitSize(rule);
    Has(code, x, POP(LR)) && Has(code, x + 1, POP(ROTP)) && Has(code, x + 2, POP(R1)) && Has(code, x + 3, SUBS(R0, RTOP, ROTP))
    && Has(code, x + 4, BEQ(3 + EmitSize(rule))) && (rule.emit ==> Has(code, x + 5, EMITEND(r)))
    && Has(code, y, SETCACHE(b, R1, RREC)) && Has(code, y + 1, BX(LR))
    && Has(code, y + 2, MOV(RREC, R1)) && Has(code, y + 3, MOVI(R0, -1)) && Has(code, y + 4, BX(LR))
  }

  predicate RuleFailAt(code: seq<Ins>, b: int, x: int) {
    b >= 0 && Has(code, x, POP(LR)) && Has(code, x + 1, POP(RTOP)) && Has(code, x + 2, POP(RREC)) && Has(code, x + 3, MOV(ROTP, RTOP))
    && Has(code, x + 4, MOVI(R0, -1)) && Has(code, x + 5, SETCACHE(b, RREC, RREC)) && Has(code, x + 6, BX(LR))
  }

  /** The code of a whole rule. */
  predicate RuleAt(code: seq<Ins>, b: int, r: nat, rule: Rule, starts: seq<int>) {
    var x := b + 5 + EmitSize(rule) + ItemsSize(rule.body);
    var end := x + 10 + EmitSize(rule);
    RuleHeadAt(code, b, r, rule) && BodyAt(code, b + 5 + EmitSize(rule), rule.body, end, starts) && RuleDoneAt(code, b, x, r, rule)
    && RuleFailAt(code, b, end)
  }

  /** The entry in front of each rule. */
  predicate EntryAt(code: seq<Ins>, a: int) {
    Has(code, a, SHIFT) && Has(code, a + 1, BL(3)) && Has(code, a + 2, EMITTAIL) && Has(code, a + 3, EXT)
  }

  /** A linked program: every rule starts where `starts` says, and the starts differ. */
  predicate Linked(code: seq<Ins>, rules: seq<Rule>, starts: seq<int>)
    ensures Linked(code, rules, starts) ==> |starts| == |rules| && forall i, j :: 0 <= i < j < |starts| ==> starts[i] != starts[j]
  {
    |starts| == |rules|
    && (forall r :: 0 <= r < |rules| ==> RuleAt(code, starts[r], r, rules[r], starts))
    && (forall r, r' :: 0 <= r < r' < |rules| ==> starts[r] != starts[r'])
  }

  /** Stack entries an item needs at most, with room for `f` nested rule calls. */
  function SubNeed(rules: seq<Rule>, f: nat, c: Core): nat
    decreases f, c
  {
    match c
    case Chr(_) => 0
    case Spc(_) => 0
    case Cls(_) => 2
    case Exp(body) => 3 + ItemsNeed(rules, f, body)
    case Alt(branches) => 2 + ItemsNeed(rules, f, branches)
    case Minus(nor, req) => 3 + Max(ItemNeed(rules, f, nor), ItemNeed(rules, f, req))
    case Not(item) => 3 + ItemNeed(rules, f, item)
    case Ref(r) => if f == 0 || r >= |rules| then 0 else 3 + ItemsNeed(rules, f - 1, rules[r].body)
  }

  function ItemNeed(rules: seq<Rule>, f: nat, e: Item): nat
    decreases f, e
  {
    SubNeed(rules, f, e.core) + if e.q.Mul? || e.q.Mop? then 1 else 0
  }

  function ItemsNeed(rules: seq<Rule>, f: nat, b: Items): nat
    decreases f, b
  {
    match b
    case Nil => 0
    case Cons(head, tail) => Max(ItemNeed(rules, f, head), ItemsNeed(rules, f, tail))
  }

  /** How deep an expression is nested, a rule call counting as one. */
  function CoreDepth(c: Core): nat
    decreases c
  {
    match c
    case Exp(body) => 1 + Depth(body)
    case Alt(branches) => 1 + Depth(branches)
    case Minus(nor, req) => 1 + Max(CoreDepth(nor.core), CoreDepth(req.core))
    case Not(item) => 1 + CoreDepth(item.core)
    case _ => 1
  }

  function Depth(b: Items): nat
    decreases b
  {
    match b
    case Nil => 0
    case Cons(head, tail) => Max(CoreDepth(head.core), Depth(tail))
  }

  /** Four entries a level are enough for an expression, and for each call as many as for the deepest rule. */
  lemma {:induction false} NeedOfItem(rules: seq<Rule>, f: nat, e: Item, deepest: nat)
    requires forall r :: 0 <= r < |rules| ==> Depth(rules[r].body) <= deepest
    ensures ItemNeed(rules, f, e) <= 4 * CoreDepth(e.core) + 4 * (f * deepest)
    decreases f, e
  {
    match e.core
    case Chr(_) =>
    case Spc(_) =>
    case Cls(_) =>
    case Exp(body) => NeedOfItems(rules, f, body, deepest);
    case Alt(branches) => NeedOfItems(rules, f, branches, deepest);
    case Minus(nor, req) => NeedOfItem(rules, f, nor, deepest); NeedOfItem(rules, f, req, deepest);
    case Not(item) => NeedOfItem(rules, f, item, deepest);
    case Ref(r) =>
      if f > 0 && r < |rules| {
        NeedOfItems(rules, f - 1, rules[r].body, deepest);
        MulDist(f - 1, 1, deepest);
      }
  }

  lemma {:induction false} NeedOfItems(rules: seq<Rule>, f: nat, b: Items, deepest: nat)
    requires forall r :: 0 <= r < |rules| ==> Depth(rules[r].body) <= deepest
    ensures ItemsNeed(rules, f, b) <= 4 * Depth(b) + 4 * (f * deepest)
    decreases f, b
  {
    if b.Cons? {
      NeedOfItem(rules, f, b.head, deepest);
      NeedOfItems(rules, f, b.tail, deepest);
    }
  }
}
