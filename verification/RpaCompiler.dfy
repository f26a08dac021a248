/** The bytecode compiler (rpa/rpacompiler.c, the record handlers of rpa/rpadbex.c) and the relocation of
    its output (rvm/rvmrelocmap.c). */
module RpaCompiler {
  import opened RpaGrammar
  import opened RvmCpu
  import opened RpaCode
  import opened RpaCodegen

  /** The instruction at `offset` waits for label `symbol`. */
  datatype Reloc = Reloc(offset: nat, symbol: nat)

  /** The trees the record handlers meet: the alternatives of an OROP are branches, a MINOP has a NOROP and
      a REQOP. */
  predicate WellFormed(e: Item)
    decreases e
  {
    match e.core
    case Exp(body) => AllWellFormed(body)
    case Alt(branches) => AllBranches(branches)
    case Minus(nor, req) => nor.core.Alt? && req.core.Exp? && WellFormed(nor) && WellFormed(req)
    case Not(item) => WellFormed(item)
    case _ => true
  }

  predicate AllWellFormed(b: Items)
    decreases b
  {
    b.Cons? ==> WellFormed(b.head) && AllWellFormed(b.tail)
  }

  predicate AllBranches(b: Items)
    decreases b
  {
    b.Cons? ==> b.head.core.Exp? && WellFormed(b.head) && AllBranches(b.tail)
  }

  predicate AllExps(b: Items) {
    b.Cons? ==> b.head.core.Exp? && AllExps(b.tail)
  }

  predicate Shaped(d: Core) {
    (d.Alt? ==> AllExps(d.branches)) && (d.Minus? ==> d.nor.core.Alt? && d.req.core.Exp?)
  }

  lemma {:induction false} WellFormedParts(e: Item, d: Core)
    requires WellFormed(e) && Inside(e.core, d)
    ensures Shaped(d)
    decreases e
  {
    if e.core == d {
      if d.Alt? { BranchesShaped(d.branches); }
    } else {
      match e.core
      case Exp(body) => AllParts(body, d);
      case Alt(branches) => BranchesShaped(branches); AllParts(branches, d);
      case Minus(nor, req) => if Inside(nor.core, d) { WellFormedParts(nor, d); } else { WellFormedParts(req, d); }
      case Not(item) => WellFormedParts(item, d);
    }
  }

  lemma {:induction false} AllParts(b: Items, d: Core)
    requires AllWellFormed(b) && InsideAny(b, d)
    ensures Shaped(d)
    decreases b
  {
    if Inside(b.head.core, d) { WellFormedParts(b.head, d); } else { AllParts(b.tail, d); }
  }

  lemma {:induction false} BranchesShaped(b: Items)
    ensures AllBranches(b) <==> AllExps(b) && AllWellFormed(b)
  {
    if b.Cons? { BranchesShaped(b.tail); }
  }

  lemma {:induction false} PartsWellFormed(e: Item)
    requires forall d :: Inside(e.core, d) ==> Shaped(d)
    ensures WellFormed(e)
    decreases e
  {
    assert Inside(e.core, e.core) && Shaped(e.core);
    match e.core
    case Exp(body) => PartsAll(body);
    case Alt(branches) => PartsAll(branches); BranchesShaped(branches);
    case Minus(nor, req) => PartsWellFormed(nor); PartsWellFormed(req);
    case Not(item) => PartsWellFormed(item);
    case _ =>
  }

  lemma {:induction false} PartsAll(b: Items)
    requires forall d :: InsideAny(b, d) ==> Shaped(d)
    ensures AllWellFormed(b)
    decreases b
  {
    if b.Cons? {
      PartsWellFormed(b.head);
      PartsAll(b.tail);
    }
  }

  /** The trees a grammar's parser makes, told from their parts. */
  lemma WellFormedIff(b: Items)
    ensures AllWellFormed(b) <==> forall d :: InsideAny(b, d) ==> Shaped(d)
  {
    hide Shaped, InsideAny;
    if AllWellFormed(b) {
      forall d | InsideAny(b, d) ensures Shaped(d) { AllParts(b, d); }
    }
    if forall d :: InsideAny(b, d) ==> Shaped(d) { PartsAll(b); }
  }

  lemma AddJoin(g: Gen, a: seq<Ins>, b: seq<Ins>)
    ensures Add(Add(g, a), b) == Add(g, a + b)
  {
    assert Add(Add(g, a), b).pend == Add(g, a + b).pend;
    assert Add(Add(g, a), b).code == Add(g, a + b).code;
  }

  lemma AddTwo(g: Gen, a: Ins, b: Ins)
    ensures Add(Add(g, [a]), [b]) == Add(g, [a, b])
  {
    AddJoin(g, [a], [b]);
    assert [a] + [b] == [a, b];
  }

  lemma AddThree(g: Gen, a: Ins, b: Ins, c: Ins)
    ensures Add(Add(Add(g, [a]), [b]), [c]) == Add(g, [a, b, c])
  {
    hide Add;
    AddTwo(g, a, b);
    AddJoin(g, [a, b], [c]);
    assert [a, b] + [c] == [a, b, c];
  }

  lemma AddFour(g: Gen, a: Ins, b: Ins, c: Ins, d: Ins)
    ensures Add(Add(Add(Add(g, [a]), [b]), [c]), [d]) == Add(g, [a, b, c, d])
  {
    hide Add;
    AddThree(g, a, b, c);
    AddJoin(g, [a, b, c], [d]);
    assert [a, b, c] + [d] == [a, b, c, d];
  }

  lemma AddFive(g: Gen, a: Ins, b: Ins, c: Ins, d: Ins, e: Ins)
    ensures Add(Add(Add(Add(Add(g, [a]), [b]), [c]), [d]), [e]) == Add(g, [a, b, c, d, e])
  {
    hide Add;
    AddFour(g, a, b, c, d);
    AddJoin(g, [a, b, c, d], [e]);
    assert [a, b, c, d] + [e] == [a, b, c, d, e];
  }

  lemma AddSix(g: Gen, a: Ins, b: Ins, c: Ins, d: Ins, e: Ins, f: Ins)
    ensures Add(Add(Add(Add(Add(Add(g, [a]), [b]), [c]), [d]), [e]), [f]) == Add(g, [a, b, c, d, e, f])
  {
    hide Add;
    AddFive(g, a, b, c, d, e);
    AddJoin(g, [a, b, c, d, e], [f]);
    assert [a, b, c, d, e] + [f] == [a, b, c, d, e, f];
  }

  lemma WithTwice(i: Ins, w: int)
    ensures WithW(WithW(i, w), w) == WithW(i, w)
  {
  }

  lemma RuleOpen(e: Gen, r: nat, rule: Rule)
    requires UpTo(e, r) && Clean(e)
    ensures |DefineRule(e, r).labels| < |RpaCodegen.RuleBegin(e, r, rule).labels|
  {
  }

  class RpaCompiler {
    var code: seq<Ins>
    var labels: seq<Label>
    var names: map<nat, nat>
    var relocs: seq<Reloc>
    var expressions: seq<RuleDef>
    ghost var pend: seq<int>

    ghost function State(): Gen
      reads this
    {
      Gen(code, pend, labels, names)
    }

    ghost predicate Listed(i: nat, l: nat)
      reads this
    {
      exists k :: 0 <= k < |relocs| && relocs[k] == Reloc(i, l)
    }

    /** The relocation records say what is pending. */
    ghost predicate Valid()
      reads this
    {
      Ok(State())
      && (forall k :: 0 <= k < |relocs| ==> relocs[k].offset < |pend| && pend[relocs[k].offset] == relocs[k].symbol)
      && (forall i :: 0 <= i < |pend| && pend[i] >= 0 ==> Listed(i, pend[i]))
    }

    constructor ()
      ensures Valid() && State() == EMPTY && expressions == []
    {
      code, labels, names, relocs, expressions, pend := [], [], map[], [], [], [];
    }

    method AddIns(i: Ins)
      requires Valid()
      modifies this
      ensures Valid() && State() == Add(old(State()), [i]) && expressions == old(expressions)
    {
      code := code + [i];
      pend := pend + [-1];
      assert Add(old(State()), [i]).pend == pend;
      assert forall j, l: nat :: old(Listed(j, l)) ==> Listed(j, l);
    }

    method AddFourIns(a: Ins, b: Ins, c: Ins, d: Ins)
      requires Valid()
      modifies this
      ensures Valid() && State() == Add(old(State()), [a, b, c, d]) && expressions == old(expressions)
    {
      hide Valid, Add;
      AddIns(a);
      AddIns(b);
      AddIns(c);
      AddIns(d);
      AddFour(old(State()), a, b, c, d);
    }

    method AddFiveIns(a: Ins, b: Ins, c: Ins, d: Ins, e: Ins)
      requires Valid()
      modifies this
      ensures Valid() && State() == Add(old(State()), [a, b, c, d, e]) && expressions == old(expressions)
    {
      hide Valid, Add;
      AddIns(a);
      AddIns(b);
      AddIns(c);
      AddIns(d);
      AddIns(e);
      AddFive(old(State()), a, b, c, d, e);
    }

    method AddRelocIns(l: nat, i: Ins)
      requires Valid() && l < |labels|
      modifies this
      ensures Valid() && State() == AddTo(old(State()), i, l) && expressions == old(expressions)
    {
      relocs := relocs + [Reloc(|code|, l)];
      code := code + [i];
      pend := pend + [l];
      assert relocs[|relocs| - 1] == Reloc(|pend| - 1, l) && Listed(|pend| - 1, l);
      forall j, m: nat | old(Listed(j, m)) ensures Listed(j, m) {
        var k :| 0 <= k < old(|relocs|) && old(relocs)[k] == Reloc(j, m);
        assert relocs[k] == Reloc(j, m);
      }
    }

    method AddLabel() returns (l: nat)
      requires Valid()
      modifies this
      ensures Valid() && State() == LabelHere(old(State())) && expressions == old(expressions) && l == old(|labels|)
    {
      l := |labels|;
      labels := labels + [Offset(|code|)];
      assert forall j, m: nat :: old(Listed(j, m)) ==> Listed(j, m);
    }

    method AddInvalidLabel() returns (l: nat)
      requires Valid()
      modifies this
      ensures Valid() && State() == LabelLater(old(State())) && expressions == old(expressions) && l == old(|labels|)
    {
      l := |labels|;
      labels := labels + [Invalid];
      assert forall j, m: nat :: old(Listed(j, m)) ==> Listed(j, m);
    }

    method RedefineLabel(l: nat)
      requires Valid()
      modifies this
      ensures Valid() && State() == Define(old(State()), l) && expressions == old(expressions)
    {
      if l < |labels| { labels := labels[l := Offset(|code|)]; }
      assert forall j, m: nat :: old(Listed(j, m)) ==> Listed(j, m);
    }

    method ReplaceIns(a: nat, i: Ins)
      requires Valid() && a < |code|
      modifies this
      ensures Valid() && State() == Patch(old(State()), a, i) && expressions == old(expressions)
    {
      code := code[a := i];
      assert forall j, m: nat :: old(Listed(j, m)) ==> Listed(j, m);
    }

    /** The label of a rule, which may still be waiting for its rule. */
    method LookupAdd(r: nat) returns (l: nat)
      requires Valid()
      modifies this
      ensures Valid() && State() == Named(old(State()), r) && expressions == old(expressions) && r in names && l == names[r]
    {
      if r !in names {
        names := names[r := |labels|];
        labels := labels + [Invalid];
      }
      l := names[r];
      assert forall j, m: nat :: old(Listed(j, m)) ==> Listed(j, m);
    }

    method Pop() returns (exp: RuleDef)
      requires Valid() && expressions != []
      modifies this
      ensures Valid() && State() == old(State()) && expressions == old(expressions)[..old(|expressions|) - 1] && exp == old(expressions)[old(|expressions|) - 1]
    {
      exp := expressions[|expressions| - 1];
      expressions := expressions[..|expressions| - 1];
      assert forall j, m: nat :: old(Listed(j, m)) ==> Listed(j, m);
    }

    method Push(exp: RuleDef)
      requires Valid()
      modifies this
      ensures Valid() && State() == old(State()) && expressions == old(expressions) + [exp]
    {
      expressions := expressions + [exp];
      assert forall j, m: nat :: old(Listed(j, m)) ==> Listed(j, m);
    }

    ghost function Current(): RuleDef
      reads this
      requires expressions != []
    {
      expressions[|expressions| - 1]
    }

    method IndexReference(l: nat, q: Quant)
      requires Valid() && l < |labels|
      modifies this
      ensures Valid() && State() == Reference(old(State()), l, q) && expressions == old(expressions)
    {
      hide Valid, Add, AddTo;
      match q
      case Nan => AddRelocIns(l, BL(0));
      case Opt =>
        AddRelocIns(l, BL(0));
        ghost var g := State();
        AddIns(MOVS(R0, R0));
        AddIns(BGRE(2));
        AddIns(MOVI(R0, 0));
        AddThree(g, MOVS(R0, R0), BGRE(2), MOVI(R0, 0));
      case _ =>
        AddIns(PUSH(RTOP));
        AddRelocIns(l, BL(0));
        ghost var g := State();
        AddIns(MOVS(R0, R0));
        AddIns(BGRE(-2));
        AddIns(POP(R0));
        AddIns(SUBS(R0, RTOP, R0));
        AddIns(BGRE(2));
        AddIns(MOVI(R0, if q.Mul? then -1 else 0));
        AddSix(g, MOVS(R0, R0), BGRE(-2), POP(R0), SUBS(R0, RTOP, R0), BGRE(2), MOVI(R0, if q.Mul? then -1 else 0));
    }

    method ExpBegin(q: Quant)
      requires Valid()
      modifies this
      ensures Valid() && State() == Begin(old(State()), HEAD) && expressions == old(expressions) + [Opened(old(State()), q)]
    {
      hide Valid, Add, LabelHere, LabelLater;
      var branch := |code|;
      AddIns(B(0));
      var start := |code|;
      var startidx := AddLabel();
      var endidx := AddInvalidLabel();
      ghost var g := State();
      AddIns(PUSH(RREC));
      AddIns(PUSH(RTOP));
      AddIns(PUSH(LR));
      AddThree(g, PUSH(RREC), PUSH(RTOP), PUSH(LR));
      Push(RuleDef(branch, start, startidx, endidx, q));
    }

    method AltexpBegin(q: Quant)
      requires Valid()
      modifies this
      ensures Valid() && State() == Begin(old(State()), ALT_HEAD) && expressions == old(expressions) + [Opened(old(State()), q)]
    {
      hide Valid, Add, LabelHere, LabelLater;
      var branch := |code|;
      AddIns(B(0));
      var start := |code|;
      var startidx := AddLabel();
      var endidx := AddInvalidLabel();
      ghost var g := State();
      AddIns(PUSH(RTOP));
      AddIns(PUSH(LR));
      AddTwo(g, PUSH(RTOP), PUSH(LR));
      Push(RuleDef(branch, start, startidx, endidx, q));
    }

    /** The jump over the expression and the calls of it. */
    method Close(exp: RuleDef)
      requires Valid() && exp.branch < |code| && exp.startidx < |labels|
      modifies this
      ensures Valid() && expressions == old(expressions)
      ensures State() == Reference(Patch(old(State()), exp.branch, B(old(|code|) - exp.branch)), exp.startidx, exp.q)
    {
      hide Valid, Reference;
      ReplaceIns(exp.branch, B(|code| - exp.branch));
      IndexReference(exp.startidx, exp.q);
    }

    method ExpEnd()
      requires Valid() && expressions != [] && Current().branch < |code| && Current().startidx < |labels|
      modifies this
      ensures Valid() && expressions == old(expressions)[..old(|expressions|) - 1]
      ensures State() == Finish(old(State()), old(Current()), DONE, FAIL)
    {
      hide Valid, Add, Define, Reference, Patch;
      var exp := Pop();
      AddFiveIns(POP(LR), POP(R1), POP(R0), SUBS(R0, RTOP, R1), BX(LR));
      RedefineLabel(exp.endidx);
      AddFiveIns(POP(LR), POP(RTOP), POP(RREC), MOVI(R0, -1), BX(LR));
      Close(exp);
    }

    /** Alternatives and classes. */
    method AltexpEnd()
      requires Valid() && expressions != [] && Current().branch < |code| && Current().startidx < |labels|
      modifies this
      ensures Valid() && expressions == old(expressions)[..old(|expressions|) - 1]
      ensures State() == Finish(old(State()), old(Current()), ALT_FAIL, ALT_DONE)
    {
      hide Valid, Add, Define, Reference, Patch;
      var exp := Pop();
      AddFourIns(POP(LR), POP(RTOP), MOVI(R0, -1), BX(LR));
      RedefineLabel(exp.endidx);
      AddFourIns(POP(LR), POP(R1), SUBS(R0, RTOP, R1), BX(LR));
      Close(exp);
    }

    method NotexpEnd()
      requires Valid() && expressions != [] && Current().branch < |code| && Current().startidx < |labels|
      modifies this
      ensures Valid() && expressions == old(expressions)[..old(|expressions|) - 1]
      ensures State() == Finish(old(State()), old(Current()), FAIL, SKIP)
    {
      hide Valid, Add, Define, Reference, Patch;
      var exp := Pop();
      AddFiveIns(POP(LR), POP(RTOP), POP(RREC), MOVI(R0, -1), BX(LR));
      RedefineLabel(exp.endidx);
      AddFiveIns(POP(LR), POP(RTOP), POP(R0), MATCH(TSpc('.' as int), Nan), BX(LR));
      Close(exp);
    }

    /** A class member, followed by the branch to the end of the class. */
    method PlayMember(m: Member)
      requires Valid() && expressions != [] && Current().endidx < |labels|
      modifies this
      ensures Valid() && expressions == old(expressions)
      ensures State() == AddTo(Add(old(State()), [MATCH(MemberTest(m), Nan)]), BGRE(0), Current().endidx)
    {
      hide Valid, Add, AddTo;
      match m {
        case Single(c) => AddIns(MATCH(TChr(c), Nan));
        case Special(c) => AddIns(MATCH(TSpc(c), Nan));
        case Range(p1, p2) =>
          if p1 < p2 { AddIns(MATCH(TRng(p1, p2), Nan)); } else { AddIns(MATCH(TRng(p2, p1), Nan)); }
      }
      AddRelocIns(expressions[|expressions| - 1].endidx, BGRE(0));
    }

    method PlayMembers(ms: seq<Member>)
      requires Valid() && expressions != [] && Current().endidx < |labels|
      modifies this
      ensures Valid() && expressions == old(expressions) && State() == MembersGen(old(State()), ms, Current().endidx)
    {
      hide Valid, Add, AddTo, MemberTest;
      var k := 0;
      while k < |ms|
        invariant k <= |ms| && Valid() && expressions == old(expressions) && Current().endidx < |labels|
        invariant MembersGen(State(), ms[k..], Current().endidx) == MembersGen(old(State()), ms, Current().endidx)
      {
        PlayMember(ms[k]);
        k := k + 1;
      }
    }

    /** Compiles an expression, without the branch that follows it. */
    method Handle(e: Item)
      requires Valid() && WellFormed(e)
      modifies this
      ensures Valid() && expressions == old(expressions) && State() == ItemGen(old(State()), e)
      decreases e, 1
    {
      hide Valid, Add, AddTo, Begin, Finish, Reference, Ok, Inner, Named;
      ghost var g := State();
      ValidOk();
      match e.core
      case Chr(c) => AddIns(MATCH(TChr(c), e.q));
      case Spc(c) => AddIns(MATCH(TSpc(c), e.q));
      case Ref(r) =>
        var l := LookupAdd(r);
        ValidOk();
        NameOf(State(), r);
        IndexReference(l, e.q);
      case Cls(ms) =>
        AltexpBegin(e.q);
        BeginShape(g, ALT_HEAD);
        MembersShape(Begin(g, ALT_HEAD), ms, Opened(g, e.q).endidx) by { ValidOk(); }
        PlayMembers(ms);
        AltexpEnd();
      case Exp(body) =>
        ExpBegin(e.q);
        BeginShape(g, HEAD);
        ValidOk();
        ItemsShape(Begin(g, HEAD), body, Opened(g, e.q).endidx);
        PlayItems(body);
        ExpEnd();
      case Alt(branches) =>
        AltexpBegin(e.q);
        BeginShape(g, ALT_HEAD);
        ValidOk();
        BranchesShape(Begin(g, ALT_HEAD), branches, Opened(g, e.q).endidx);
        PlayBranches(branches);
        AltexpEnd();
      case Minus(_, _) => HandleMinus(e);
      case Not(_) => HandleNot(e);
    }

    method HandleMinus(e: Item)
      requires Valid() && e.core.Minus? && WellFormed(e)
      modifies this
      ensures Valid() && expressions == old(expressions) && State() == ItemGen(old(State()), e)
      decreases e, 0
    {
      hide Valid, Add, AddTo, Begin, Finish, Reference, Ok, Inner, Named;
      ghost var g := State();
      ValidOk();
      ExpBegin(e.q);
      BeginShape(g, HEAD);
      ValidOk();
      ghost var k := FollowedShape(State(), e.core.nor, BGRE(0), Opened(g, e.q).endidx);
      PlayBranch(e.core.nor);
      ghost var k' := FollowedShape(k, e.core.req, BLES(0), Opened(g, e.q).endidx);
      PlayItem(e.core.req);
      ExpEnd();
    }

    method HandleNot(e: Item)
      requires Valid() && e.core.Not? && WellFormed(e)
      modifies this
      ensures Valid() && expressions == old(expressions) && State() == ItemGen(old(State()), e)
      decreases e, 0
    {
      hide Valid, Add, AddTo, Begin, Finish, Reference, Ok, Inner, Named;
      ghost var g := State();
      ValidOk();
      ExpBegin(e.q);
      BeginShape(g, HEAD);
      ValidOk();
      ghost var k := FollowedShape(State(), e.core.item, BLES(0), Opened(g, e.q).endidx);
      PlayItem(e.core.item);
      NotexpEnd();
    }

    lemma ValidOk()
      requires Valid()
      ensures Ok(State())
    {
    }

    /** An expression and the branch to the end of the enclosing one that is taken if it fails. */
    method PlayItem(e: Item)
      requires Valid() && WellFormed(e) && expressions != [] && Current().endidx < |labels|
      modifies this
      ensures Valid() && expressions == old(expressions) && State() == AddTo(ItemGen(old(State()), e), BLES(0), Current().endidx)
      decreases e, 2
    {
      hide Valid, AddTo, ItemGen, WellFormed, Ok, Inner;
      ValidOk();
      ItemShape(State(), e);
      Handle(e);
      AddRelocIns(expressions[|expressions| - 1].endidx, BLES(0));
    }

    /** An alternative, or a part that must not match: the branch is taken if it matches something. */
    method PlayBranch(e: Item)
      requires Valid() && WellFormed(e) && (e.core.Exp? || e.core.Alt?) && expressions != [] && Current().endidx < |labels|
      modifies this
      ensures Valid() && expressions == old(expressions) && State() == AddTo(ItemGen(old(State()), e), BGRE(0), Current().endidx)
      decreases e, 2
    {
      hide Valid, AddTo, ItemGen, WellFormed, Ok, Inner;
      ValidOk();
      ItemShape(State(), e);
      Handle(e);
      AddRelocIns(expressions[|expressions| - 1].endidx, BGRE(0));
    }

    method PlayItems(b: Items)
      requires Valid() && AllWellFormed(b) && expressions != [] && Current().endidx < |labels|
      modifies this
      ensures Valid() && expressions == old(expressions) && State() == ItemsGen(old(State()), b, Current().endidx)
      decreases b, 0
    {
      hide Valid, AddTo, ItemGen, Ok, Inner;
      match b
      case Nil =>
      case Cons(head, tail) =>
        ValidOk();
        ghost var h := FollowedShape(State(), head, BLES(0), Current().endidx);
        PlayItem(head);
        PlayItems(tail);
    }

    method PlayBranches(b: Items)
      requires Valid() && AllBranches(b) && expressions != [] && Current().endidx < |labels|
      modifies this
      ensures Valid() && expressions == old(expressions) && State() == BranchesGen(old(State()), b, Current().endidx)
      decreases b, 0
    {
      hide Valid, AddTo, ItemGen, Ok, Inner;
      match b
      case Nil =>
      case Cons(head, tail) =>
        ValidOk();
        ghost var h := FollowedShape(State(), head, BGRE(0), Current().endidx);
        PlayBranch(head);
        PlayBranches(tail);
    }

    method RuleBegin(r: nat, rule: Rule)
      requires Valid()
      modifies this
      ensures Valid() && State() == RpaCodegen.RuleBegin(old(State()), r, rule)
      ensures |expressions| == old(|expressions|) + 1 && expressions[..old(|expressions|)] == old(expressions)
      ensures Current().start == old(|code|) && Current().endidx == |DefineRule(old(State()), r).labels|
    {
      hide Valid, Add, Define, Named;
      var start := |code|;
      var startidx := LookupAdd(r);
      RedefineLabel(startidx);
      var endidx := AddInvalidLabel();
      ghost var g := State();
      AddFiveIns(CHECKCACHE(start), BXNEQ(LR), PUSH(RREC), PUSH(RTOP), PUSH(LR));
      var head := [CHECKCACHE(start), BXNEQ(LR), PUSH(RREC), PUSH(RTOP), PUSH(LR)];
      if rule.emit {
        AddIns(EMITSTART(r));
        AddJoin(g, head, [EMITSTART(r)]);
      } else {
        assert head + [] == head;
      }
      Push(RuleDef(start, start, startidx, endidx, Nan));
    }

    /** The end of a rule that has matched: emits and caches the result, or fails if it has matched nothing. */
    method RuleDone(start: nat, r: nat, rule: Rule)
      requires Valid()
      modifies this
      ensures Valid() && expressions == old(expressions) && State() == Add(old(State()), RpaCodegen.RuleDone(start, r, rule))
    {
      hide Valid, Add;
      ghost var g := State();
      AddFourIns(POP(LR), POP(ROTP), POP(R1), SUBS(R0, RTOP, ROTP));
      ghost var first := [POP(LR), POP(ROTP), POP(R1), SUBS(R0, RTOP, ROTP)];
      ghost var middle := if rule.emit then [BEQ(4), EMITEND(r)] else [BEQ(3)];
      if rule.emit {
        AddIns(BEQ(4));
        AddIns(EMITEND(r));
        AddTwo(Add(g, first), BEQ(4), EMITEND(r));
      } else {
        AddIns(BEQ(3));
      }
      AddJoin(g, first, middle);
      AddFiveIns(SETCACHE(start, R1, RREC), BX(LR), MOV(RREC, R1), MOVI(R0, -1), BX(LR));
      AddJoin(g, first + middle, [SETCACHE(start, R1, RREC), BX(LR), MOV(RREC, R1), MOVI(R0, -1), BX(LR)]);
    }

    /** The end of a rule that has failed. */
    method RuleFail(start: nat)
      requires Valid()
      modifies this
      ensures Valid() && expressions == old(expressions) && State() == Add(old(State()), RpaCodegen.RuleFail(start))
    {
      hide Valid, Add;
      ghost var g := State();
      AddIns(POP(LR));
      AddIns(POP(RTOP));
      AddIns(POP(RREC));
      AddIns(MOV(ROTP, RTOP));
      AddIns(MOVI(R0, -1));
      AddIns(SETCACHE(start, RREC, RREC));
      ghost var first := [POP(LR), POP(RTOP), POP(RREC), MOV(ROTP, RTOP), MOVI(R0, -1), SETCACHE(start, RREC, RREC)];
      AddSix(g, POP(LR), POP(RTOP), POP(RREC), MOV(ROTP, RTOP), MOVI(R0, -1), SETCACHE(start, RREC, RREC));
      AddIns(BX(LR));
      AddJoin(g, first, [BX(LR)]);
      assert first + [BX(LR)] == RpaCodegen.RuleFail(start);
    }

    method RuleEnd(r: nat, rule: Rule)
      requires Valid() && expressions != []
      modifies this
      ensures Valid() && expressions == old(expressions)[..old(|expressions|) - 1]
      ensures State() == RpaCodegen.RuleEnd(old(State()), old(Current()).start, old(Current()).endidx, r, rule)
    {
      hide Valid, Add, Define;
      var exp := Pop();
      RuleDone(exp.start, r, rule);
      RedefineLabel(exp.endidx);
      RuleFail(exp.start);
    }

    /** A named rule: the entry and the subroutine. */
    method CompileRule(r: nat, rule: Rule)
      requires Valid() && AllWellFormed(rule.body) && UpTo(State(), r) && Clean(State())
      modifies this
      ensures Valid() && expressions == old(expressions) && State() == RuleGen(old(State()), r, rule)
    {
      hide Valid, Add, Define, Named, RpaCodegen.RuleBegin, RpaCodegen.RuleEnd, ItemsGen, UpTo, Clean, DefineRule, Progress, Inner;
      ghost var g := State();
      AddFourIns(SHIFT, BL(3), EMITTAIL, EXT);
      ghost var e := State();
      AddProgress(g, ENTRY);
      UpToKept(g, e, r, {});
      AddClean(g, ENTRY);
      RuleBegin(r, rule);
      RuleOpen(e, r, rule);
      PlayItems(rule.body);
      RuleEnd(r, rule);
    }

    /** Compiles the rules in order and links the code; fails if a rule that is referred to does not exist. */
    method Compile(rules: seq<Rule>) returns (ok: bool)
      requires Valid() && State() == EMPTY && forall r :: 0 <= r < |rules| ==> AllWellFormed(rules[r].body)
      modifies this
      ensures ok <==> RefsExist(rules)
      ensures ok ==> Linked(code, rules, StartsOf(rules)) && forall r :: 0 <= r < |rules| ==> EntryAt(code, EntryOf(rules, r))
    {
      hide Valid, UpTo, Clean, RuleGen, ItemsRefs, AllWait, Grows, RuleSize, AllWellFormed, Resolved, LinkedIns, Linked, EntryAt, RefsExist, RulesRefs;
      EmptyOk();
      var r := 0;
      while r < |rules|
        invariant r <= |rules| && Valid() && UpTo(State(), r) && Clean(State())
        invariant RulesGen(State(), rules, r) == RulesGen(EMPTY, rules, 0)
      {
        RuleShape(State(), r, rules[r]);
        CompileRule(r, rules[r]);
        r := r + 1;
      }
      CompiledIs(rules);
      ResolvedIff(rules);
      ok := Relocate();
      if ok { CompiledLinked(rules, code); }
    }

    /** Writes the distances into the code; stops at the first label that is not valid. */
    method Relocate() returns (ok: bool)
      requires Valid()
      modifies this`code
      ensures ok <==> Resolved(old(State()))
      ensures ok ==> |code| == old(|code|) && forall i :: 0 <= i < |code| ==> code[i] == LinkedIns(old(State()), i)
    {
      hide WithW;
      ghost var g := State();
      var k := 0;
      while k < |relocs|
        invariant k <= |relocs| && |code| == |g.code|
        invariant forall j :: 0 <= j < k ==> labels[relocs[j].symbol].Offset?
        invariant forall i :: 0 <= i < |code| ==> code[i] == g.code[i] || code[i] == LinkedIns(g, i)
        invariant forall j :: 0 <= j < k ==> code[relocs[j].offset] == LinkedIns(g, relocs[j].offset)
      {
        var at, l := relocs[k].offset, relocs[k].symbol;
        match labels[l] {
          case Invalid =>
            assert g.pend[at] == l;
            return false;
          case Offset(off) =>
            WithTwice(g.code[at], off - at);
            code := code[at := WithW(code[at], off - at)];
        }
        k := k + 1;
      }
      Linking(relocs, g, code);
      return true;
    }
  }

  /** Once every record has been followed, all of the code is linked. */
  lemma Linking(relocs: seq<Reloc>, g: Gen, code: seq<Ins>)
    requires Ok(g) && |code| == |g.code|
    requires forall k :: 0 <= k < |relocs| ==> relocs[k].offset < |g.pend| && relocs[k].symbol < |g.labels| && g.labels[relocs[k].symbol].Offset?
    requires forall i :: 0 <= i < |g.pend| && g.pend[i] >= 0 ==> exists k :: 0 <= k < |relocs| && relocs[k] == Reloc(i, g.pend[i])
    requires forall i :: 0 <= i < |code| ==> code[i] == g.code[i] || code[i] == LinkedIns(g, i)
    requires forall j :: 0 <= j < |relocs| ==> code[relocs[j].offset] == LinkedIns(g, relocs[j].offset)
    ensures Resolved(g) && forall i :: 0 <= i < |code| ==> code[i] == LinkedIns(g, i)
  {
    hide WithW;
    forall i | 0 <= i < |code| ensures code[i] == LinkedIns(g, i) && (0 <= g.pend[i] < |g.labels| ==> g.labels[g.pend[i]].Offset?) {
      if g.pend[i] >= 0 {
        var k :| 0 <= k < |relocs| && relocs[k] == Reloc(i, g.pend[i]);
        assert g.labels[relocs[k].symbol].Offset?;
      }
    }
  }
}
