/** Emitting code with labels (rvm/rvmcodegen.c, rvm/rvmcodemap.c, rpa/rpacompiler.c, rpa/rpadbex.c) on
    values, and the layout that linking turns the emitted code into. */
module RpaCodegen {
  import opened RpaGrammar
  import opened RvmCpu
  import opened RpaCode

  datatype Label = Invalid | Offset(off: nat)

  /** A program under construction. `pend[i]` is the label instruction `i` waits for, or -1; `names` maps a
      rule to its label. */
  datatype Gen = Gen(code: seq<Ins>, pend: seq<int>, labels: seq<Label>, names: map<nat, nat>)

  predicate Ok(g: Gen) {
    |g.pend| == |g.code| && (forall i :: 0 <= i < |g.pend| ==> -1 <= g.pend[i] < |g.labels|) && forall r :: r in g.names ==> g.names[r] < |g.labels|
  }

  function Add(g: Gen, ins: seq<Ins>): (h: Gen)
    ensures |h.code| == |g.code| + |ins| && h.labels == g.labels && h.names == g.names && (Ok(g) ==> Ok(h))
  {
    g.(code := g.code + ins, pend := g.pend + seq(|ins|, _ => -1))
  }

  function AddTo(g: Gen, i: Ins, l: nat): (h: Gen)
    ensures |h.code| == |g.code| + 1 && h.labels == g.labels && h.names == g.names && (Ok(g) && l < |g.labels| ==> Ok(h))
  {
    g.(code := g.code + [i], pend := g.pend + [l])
  }

  /** A label for the next instruction. */
  function LabelHere(g: Gen): (h: Gen)
    ensures |h.labels| == |g.labels| + 1 && h.code == g.code && (Ok(g) ==> Ok(h))
  {
    g.(labels := g.labels + [Offset(|g.code|)])
  }

  function LabelLater(g: Gen): (h: Gen)
    ensures |h.labels| == |g.labels| + 1 && h.code == g.code && (Ok(g) ==> Ok(h))
  {
    g.(labels := g.labels + [Invalid])
  }

  function Define(g: Gen, l: nat): (h: Gen)
    ensures |h.labels| == |g.labels| && |h.code| == |g.code| && (Ok(g) ==> Ok(h))
  {
    if l < |g.labels| then g.(labels := g.labels[l := Offset(|g.code|)]) else g
  }

  function Patch(g: Gen, a: nat, i: Ins): (h: Gen)
    ensures h.labels == g.labels && |h.code| == |g.code| && (Ok(g) ==> Ok(h))
  {
    if a < |g.code| then g.(code := g.code[a := i]) else g
  }

  /** The label of a rule, made up if the rule has not been seen. */
  function Named(g: Gen, r: nat): Gen {
    if r in g.names then g else LabelLater(g).(names := g.names[r := |g.labels|])
  }

  /** What the compiler keeps of an open expression on its stack. */
  datatype RuleDef = RuleDef(branch: nat, start: nat, startidx: nat, endidx: nat, q: Quant)

  function Opened(g: Gen, q: Quant): RuleDef {
    RuleDef(|g.code|, |g.code| + 1, |g.labels|, |g.labels| + 1, q)
  }

  function Begin(g: Gen, head: seq<Ins>): Gen {
    Add(LabelLater(LabelHere(Add(g, [B(0)]))), head)
  }

  function Reference(g: Gen, l: nat, q: Quant): Gen {
    match q
    case Nan => AddTo(g, BL(0), l)
    case Opt => Add(AddTo(g, BL(0), l), [MOVS(R0, R0), BGRE(2), MOVI(R0, 0)])
    case Mul => Add(AddTo(Add(g, [PUSH(RTOP)]), BL(0), l), [MOVS(R0, R0), BGRE(-2), POP(R0), SUBS(R0, RTOP, R0), BGRE(2), MOVI(R0, -1)])
    case Mop => Add(AddTo(Add(g, [PUSH(RTOP)]), BL(0), l), [MOVS(R0, R0), BGRE(-2), POP(R0), SUBS(R0, RTOP, R0), BGRE(2), MOVI(R0, 0)])
  }

  /** Closing an expression: the code before its end label, the code behind it, the jump over both, the calls. */
  function Finish(g: Gen, exp: RuleDef, before: seq<Ins>, behind: seq<Ins>): Gen {
    var h := Add(Define(Add(g, before), exp.endidx), behind);
    Reference(Patch(h, exp.branch, B(|h.code| - exp.branch)), exp.startidx, exp.q)
  }

  const HEAD: seq<Ins> := [PUSH(RREC), PUSH(RTOP), PUSH(LR)]
  const ALT_HEAD: seq<Ins> := [PUSH(RTOP), PUSH(LR)]
  const DONE: seq<Ins> := [POP(LR), POP(R1), POP(R0), SUBS(R0, RTOP, R1), BX(LR)]
  const FAIL: seq<Ins> := [POP(LR), POP(RTOP), POP(RREC), MOVI(R0, -1), BX(LR)]
  const ALT_DONE: seq<Ins> := [POP(LR), POP(R1), SUBS(R0, RTOP, R1), BX(LR)]
  const ALT_FAIL: seq<Ins> := [POP(LR), POP(RTOP), MOVI(R0, -1), BX(LR)]
  const SKIP: seq<Ins> := [POP(LR), POP(RTOP), POP(R0), MATCH(TSpc('.' as int), Nan), BX(LR)]

  function MembersGen(g: Gen, ms: seq<Member>, end: nat): Gen
    decreases |ms|
  {
    if ms == [] then g
    else MembersGen(AddTo(Add(g, [MATCH(MemberTest(ms[0]), Nan)]), BGRE(0), end), ms[1..], end)
  }

  function ItemGen(g: Gen, e: Item): Gen
    decreases e
  {
    var exp := Opened(g, e.q);
    match e.core
    case Chr(c) => Add(g, [MATCH(TChr(c), e.q)])
    case Spc(c) => Add(g, [MATCH(TSpc(c), e.q)])
    case Cls(ms) => Finish(MembersGen(Begin(g, ALT_HEAD), ms, exp.endidx), exp, ALT_FAIL, ALT_DONE)
    case Exp(body) => Finish(ItemsGen(Begin(g, HEAD), body, exp.endidx), exp, DONE, FAIL)
    case Alt(branches) => Finish(BranchesGen(Begin(g, ALT_HEAD), branches, exp.endidx), exp, ALT_FAIL, ALT_DONE)
    case Minus(nor, req) =>
      Finish(AddTo(ItemGen(AddTo(ItemGen(Begin(g, HEAD), nor), BGRE(0), exp.endidx), req), BLES(0), exp.endidx), exp, DONE, FAIL)
    case Not(item) => Finish(AddTo(ItemGen(Begin(g, HEAD), item), BLES(0), exp.endidx), exp, FAIL, SKIP)
    case Ref(r) => Reference(Named(g, r), Named(g, r).names[r], e.q)
  }

  /** Each item is followed by a branch to the end of the enclosing expression. */
  function ItemsGen(g: Gen, b: Items, end: nat): Gen
    decreases b
  {
    match b
    case Nil => g
    case Cons(head, tail) => ItemsGen(AddTo(ItemGen(g, head), BLES(0), end), tail, end)
  }

  function BranchesGen(g: Gen, b: Items, end: nat): Gen
    decreases b
  {
    match b
    case Nil => g
    case Cons(head, tail) => BranchesGen(AddTo(ItemGen(g, head), BGRE(0), end), tail, end)
  }

  /** From `g` to `h` only code behind `from` and labels that were not valid have been added. */
  predicate Grows(g: Gen, h: Gen, from: nat) {
    Ok(g) && Ok(h) && |g.code| <= |h.code| && |g.labels| <= |h.labels|
    && (forall i :: from <= i < |g.code| ==> h.code[i] == g.code[i] && h.pend[i] == g.pend[i])
    && (forall l :: 0 <= l < |g.labels| && g.labels[l].Offset? ==> h.labels[l] == g.labels[l])
    && (forall r :: r in g.names ==> r in h.names && h.names[r] == g.names[r])
  }

  function WithW(i: Ins, w: int): Ins {
    match i
    case B(_) => B(w)
    case BEQ(_) => BEQ(w)
    case BLES(_) => BLES(w)
    case BGRE(_) => BGRE(w)
    case BL(_) => BL(w)
    case _ => i
  }

  /** `code` is `g` from `from` on, linked with the label offsets `offs` and the rule starts `starts`. */
  ghost predicate Fits(code: seq<Ins>, offs: seq<int>, starts: seq<int>, g: Gen, from: nat)
    ensures Fits(code, offs, starts, g, from) ==> |g.labels| <= |offs|
  {
    Ok(g) && |g.code| <= |code| && |g.labels| <= |offs|
    && (forall l :: 0 <= l < |g.labels| && g.labels[l].Offset? ==> offs[l] == g.labels[l].off)
    && (forall r :: r in g.names ==> r < |starts| && offs[g.names[r]] == starts[r])
    && (forall i :: from <= i < |g.code| ==> code[i] == if g.pend[i] < 0 then g.code[i] else WithW(g.code[i], offs[g.pend[i]] - i))
  }

  lemma GrowsJoin(g: Gen, h: Gen, k: Gen, from: nat)
    requires Grows(g, h, from) && Grows(h, k, from)
    ensures Grows(g, k, from)
  {
  }

  lemma FitsBack(code: seq<Ins>, offs: seq<int>, starts: seq<int>, g: Gen, h: Gen, from: nat, from': nat)
    requires Fits(code, offs, starts, h, from) && Grows(g, h, from') && from <= from'
    ensures Fits(code, offs, starts, g, from')
  {
  }

  /** As `Grows` from the beginning, and the labels that were there are what they were. */
  predicate Inner(g: Gen, h: Gen)
    ensures Inner(g, h) ==> Ok(g) && Ok(h) && Grows(g, h, 0) && |g.labels| <= |h.labels| && |g.code| <= |h.code|
    ensures Inner(g, h) ==> forall l :: 0 <= l < |g.labels| ==> h.labels[l] == g.labels[l]
  {
    Grows(g, h, 0) && forall l :: 0 <= l < |g.labels| ==> h.labels[l] == g.labels[l]
  }

  lemma InnerJoin(g: Gen, h: Gen, k: Gen)
    requires Inner(g, h) && Inner(h, k)
    ensures Inner(g, k)
  {
  }

  lemma AddShape(g: Gen, ins: seq<Ins>)
    requires Ok(g)
    ensures Inner(g, Add(g, ins)) && |Add(g, ins).code| == |g.code| + |ins| && Add(g, ins).labels == g.labels
  {
  }

  lemma AddToShape(g: Gen, i: Ins, l: nat)
    requires Ok(g) && l < |g.labels|
    ensures Inner(g, AddTo(g, i, l)) && |AddTo(g, i, l).code| == |g.code| + 1 && AddTo(g, i, l).labels == g.labels
  {
  }

  lemma BeginShape(g: Gen, head: seq<Ins>)
    requires Ok(g)
    ensures var h := Begin(g, head);
      Inner(g, h) && |h.code| == |g.code| + 1 + |head| && |h.labels| == |g.labels| + 2
      && h.labels[|g.labels|] == Offset(|g.code| + 1) && h.labels[|g.labels| + 1] == Invalid
  {
    var h := LabelLater(LabelHere(Add(g, [B(0)])));
    AddShape(g, [B(0)]);
    assert Inner(g, h) && |h.code| == |g.code| + 1;
    AddShape(h, head);
    InnerJoin(g, h, Add(h, head));
  }

  lemma ReferenceShape(g: Gen, l: nat, q: Quant)
    requires Ok(g) && l < |g.labels|
    ensures Inner(g, Reference(g, l, q)) && |Reference(g, l, q).code| == |g.code| + RefSize(q)
  {
    hide Inner, Add, AddTo;
    match q
    case Nan => AddToShape(g, BL(0), l);
    case Opt =>
      AddToShape(g, BL(0), l);
      var h := AddTo(g, BL(0), l);
      AddShape(h, [MOVS(R0, R0), BGRE(2), MOVI(R0, 0)]);
      InnerJoin(g, h, Reference(g, l, q));
    case _ =>
      var tail := [MOVS(R0, R0), BGRE(-2), POP(R0), SUBS(R0, RTOP, R0), BGRE(2), MOVI(R0, if q.Mul? then -1 else 0)];
      AddShape(g, [PUSH(RTOP)]);
      var h := Add(g, [PUSH(RTOP)]);
      AddToShape(h, BL(0), l);
      var k := AddTo(h, BL(0), l);
      AddShape(k, tail);
      InnerJoin(g, h, k);
      InnerJoin(g, k, Add(k, tail));
  }

  lemma DefineShape(g: Gen, k: Gen, l: nat)
    requires Inner(g, k) && |g.labels| <= l < |k.labels|
    ensures Inner(g, Define(k, l)) && |Define(k, l).code| == |k.code| && Ok(Define(k, l)) && |Define(k, l).labels| == |k.labels|
  {
  }

  lemma PatchShape(g: Gen, k: Gen, a: nat, i: Ins)
    requires Inner(g, k) && |g.code| <= a < |k.code|
    ensures Inner(g, Patch(k, a, i)) && |Patch(k, a, i).code| == |k.code| && Ok(Patch(k, a, i)) && |Patch(k, a, i).labels| == |k.labels|
  {
  }

  /** Between opening and closing an expression the compiler only adds code and labels of its own. */
  lemma FinishShape(g: Gen, head: seq<Ins>, q: Quant, k: Gen, before: seq<Ins>, behind: seq<Ins>)
    requires Ok(g) && Inner(Begin(g, head), k)
    ensures var h := Finish(k, Opened(g, q), before, behind);
      Inner(g, h) && |h.code| == |k.code| + |before| + |behind| + RefSize(q)
  {
    hide Inner, Add, AddTo, Begin, Define, Patch, Reference, Ok, RefSize;
    var exp := Opened(g, q);
    BeginShape(g, head);
    InnerJoin(g, Begin(g, head), k);
    var k1 := Add(k, before);
    AddShape(k, before);
    InnerJoin(g, k, k1);
    var k2 := Define(k1, exp.endidx);
    DefineShape(g, k1, exp.endidx);
    var k3 := Add(k2, behind);
    AddShape(k2, behind);
    InnerJoin(g, k2, k3);
    var k4 := Patch(k3, exp.branch, B(|k3.code| - exp.branch));
    PatchShape(g, k3, exp.branch, B(|k3.code| - exp.branch));
    ReferenceShape(k4, exp.startidx, q);
    InnerJoin(g, k4, Reference(k4, exp.startidx, q));
  }

  lemma {:induction false} MembersShape(g: Gen, ms: seq<Member>, end: nat)
    requires Ok(g) && end < |g.labels|
    ensures Inner(g, MembersGen(g, ms, end)) && |MembersGen(g, ms, end).code| == |g.code| + 2 * |ms|
    decreases |ms|
  {
    hide Inner, Add, AddTo, MemberTest;
    if ms == [] {
      InnerSelf(g);
    } else {
      var k := Add(g, [MATCH(MemberTest(ms[0]), Nan)]);
      AddShape(g, [MATCH(MemberTest(ms[0]), Nan)]);
      var h := AddTo(k, BGRE(0), end);
      AddToShape(k, BGRE(0), end);
      MembersShape(h, ms[1..], end);
      InnerJoin(g, k, h);
      InnerJoin(g, h, MembersGen(g, ms, end));
    }
  }

  lemma InnerSelf(g: Gen)
    requires Ok(g)
    ensures Inner(g, g)
  {
  }

  lemma NamedShape(g: Gen, r: nat)
    requires Ok(g)
    ensures Inner(g, Named(g, r)) && r in Named(g, r).names && Named(g, r).code == g.code
  {
  }

  lemma {:induction false} ItemShape(g: Gen, e: Item)
    requires Ok(g)
    ensures Inner(g, ItemGen(g, e)) && |ItemGen(g, e).code| == |g.code| + ItemSize(e)
    decreases e, 0
  {
    hide Inner, Add, AddTo, Begin, Finish, Reference, Ok, MembersGen, ItemsGen, BranchesGen, Named;
    var exp := Opened(g, e.q);
    match e.core
    case Chr(c) => AddShape(g, [MATCH(TChr(c), e.q)]);
    case Spc(c) => AddShape(g, [MATCH(TSpc(c), e.q)]);
    case Ref(r) =>
      NamedShape(g, r);
      NameOf(Named(g, r), r);
      ReferenceShape(Named(g, r), Named(g, r).names[r], e.q);
      InnerJoin(g, Named(g, r), ItemGen(g, e));
    case Cls(ms) =>
      var b := Begin(g, ALT_HEAD);
      BeginShape(g, ALT_HEAD);
      MembersShape(b, ms, exp.endidx);
      FinishShape(g, ALT_HEAD, e.q, MembersGen(b, ms, exp.endidx), ALT_FAIL, ALT_DONE);
    case Exp(body) =>
      var b := Begin(g, HEAD);
      BeginShape(g, HEAD);
      ItemsShape(b, body, exp.endidx);
      FinishShape(g, HEAD, e.q, ItemsGen(b, body, exp.endidx), DONE, FAIL);
    case Alt(branches) =>
      var b := Begin(g, ALT_HEAD);
      BeginShape(g, ALT_HEAD);
      BranchesShape(b, branches, exp.endidx);
      FinishShape(g, ALT_HEAD, e.q, BranchesGen(b, branches, exp.endidx), ALT_FAIL, ALT_DONE);
    case Minus(nor, req) =>
      var b := Begin(g, HEAD);
      BeginShape(g, HEAD);
      var k := FollowedShape(b, nor, BGRE(0), exp.endidx);
      var k' := FollowedShape(k, req, BLES(0), exp.endidx);
      InnerJoin(b, k, k');
      FinishShape(g, HEAD, e.q, k', DONE, FAIL);
    case Not(item) =>
      var b := Begin(g, HEAD);
      BeginShape(g, HEAD);
      var k := FollowedShape(b, item, BLES(0), exp.endidx);
      FinishShape(g, HEAD, e.q, k, FAIL, SKIP);
  }

  lemma NameOf(g: Gen, r: nat)
    requires Ok(g) && r in g.names
    ensures g.names[r] < |g.labels|
  {
  }

  /** An item and the branch behind it. */
  lemma {:induction false} FollowedShape(g: Gen, e: Item, i: Ins, end: nat) returns (h: Gen)
    requires Ok(g) && end < |g.labels|
    ensures h == AddTo(ItemGen(g, e), i, end) && Inner(g, h) && Ok(h) && |h.code| == |g.code| + ItemSize(e) + 1 && |g.labels| <= |h.labels|
    decreases e, 1
  {
    hide *;
    ItemShape(g, e);
    var k := ItemGen(g, e);
    AddToShape(k, i, end);
    h := AddTo(k, i, end);
    InnerJoin(g, k, h);
  }

  lemma {:induction false} ItemsShape(g: Gen, b: Items, end: nat)
    requires Ok(g) && end < |g.labels|
    ensures Inner(g, ItemsGen(g, b, end)) && |ItemsGen(g, b, end).code| == |g.code| + ItemsSize(b)
    decreases b, 0
  {
    hide Inner, Ok, ItemGen, AddTo;
    match b
    case Nil => InnerSelf(g);
    case Cons(head, tail) =>
      var h := FollowedShape(g, head, BLES(0), end);
      ItemsShape(h, tail, end);
      InnerJoin(g, h, ItemsGen(g, b, end));
  }

  lemma {:induction false} BranchesShape(g: Gen, b: Items, end: nat)
    requires Ok(g) && end < |g.labels|
    ensures Inner(g, BranchesGen(g, b, end)) && |BranchesGen(g, b, end).code| == |g.code| + ItemsSize(b)
    decreases b, 0
  {
    hide Inner, Ok, ItemGen, AddTo;
    match b
    case Nil => InnerSelf(g);
    case Cons(head, tail) =>
      var h := FollowedShape(g, head, BGRE(0), end);
      BranchesShape(h, tail, end);
      InnerJoin(g, h, BranchesGen(g, b, end));
  }

  predicate ListAt(code: seq<Ins>, a: int, ins: seq<Ins>) {
    forall k :: 0 <= k < |ins| ==> Has(code, a + k, ins[k])
  }

  lemma AddedAt(code: seq<Ins>, offs: seq<int>, starts: seq<int>, g: Gen, ins: seq<Ins>, from: nat)
    requires Ok(g) && Fits(code, offs, starts, Add(g, ins), from) && from <= |g.code|
    ensures ListAt(code, |g.code|, ins) && Fits(code, offs, starts, g, from)
  {
    var h := Add(g, ins);
    forall k | 0 <= k < |ins| ensures Has(code, |g.code| + k, ins[k]) {
      assert h.pend[|g.code| + k] == -1 && h.code[|g.code| + k] == ins[k];
    }
    AddShape(g, ins);
    FitsBack(code, offs, starts, g, h, from, from);
  }

  lemma AddToAt(code: seq<Ins>, offs: seq<int>, starts: seq<int>, g: Gen, i: Ins, l: nat, from: nat)
    requires Ok(g) && l < |g.labels| && Fits(code, offs, starts, AddTo(g, i, l), from) && from <= |g.code|
    ensures |g.labels| <= |offs| && Has(code, |g.code|, WithW(i, offs[l] - |g.code|)) && Fits(code, offs, starts, g, from)
  {
    var h := AddTo(g, i, l);
    assert h.pend[|g.code|] == l && h.code[|g.code|] == i;
    AddToShape(g, i, l);
    FitsBack(code, offs, starts, g, h, from, from);
  }

  lemma ReferenceAt(code: seq<Ins>, offs: seq<int>, starts: seq<int>, g: Gen, l: nat, q: Quant, from: nat)
    requires Ok(g) && l < |g.labels| && Fits(code, offs, starts, Reference(g, l, q), from) && from <= |g.code|
    ensures |g.labels| <= |offs| && RefAt(code, |g.code|, q, offs[l]) && Fits(code, offs, starts, g, from)
  {
    hide Fits, Add, AddTo, Inner, Ok, Has;
    var a := |g.code|;
    match q
    case Nan => AddToAt(code, offs, starts, g, BL(0), l, from);
    case Opt =>
      var tail := [MOVS(R0, R0), BGRE(2), MOVI(R0, 0)];
      var h := AddTo(g, BL(0), l);
      AddToShape(g, BL(0), l);
      AddedAt(code, offs, starts, h, tail, from);
      AddToAt(code, offs, starts, g, BL(0), l, from);
      assert Has(code, a + 1 + 0, tail[0]) && Has(code, a + 1 + 1, tail[1]) && Has(code, a + 1 + 2, tail[2]);
    case _ =>
      var tail := [MOVS(R0, R0), BGRE(-2), POP(R0), SUBS(R0, RTOP, R0), BGRE(2), MOVI(R0, if q.Mul? then -1 else 0)];
      var h := Add(g, [PUSH(RTOP)]);
      AddShape(g, [PUSH(RTOP)]);
      var k := AddTo(h, BL(0), l);
      AddToShape(h, BL(0), l);
      AddedAt(code, offs, starts, k, tail, from);
      AddToAt(code, offs, starts, h, BL(0), l, from);
      AddedAt(code, offs, starts, g, [PUSH(RTOP)], from);
      assert Has(code, a + 0, [PUSH(RTOP)][0]);
      assert Has(code, a + 2 + 0, tail[0]) && Has(code, a + 2 + 1, tail[1]) && Has(code, a + 2 + 2, tail[2]);
      assert Has(code, a + 2 + 3, tail[3]) && Has(code, a + 2 + 4, tail[4]) && Has(code, a + 2 + 5, tail[5]);
  }

  /** The frame of an expression in linked code. */
  predicate FrameAt(code: seq<Ins>, a: int, head: seq<Ins>, q: Quant, x: int, before: seq<Ins>, behind: seq<Ins>) {
    var end := x + |before| + |behind|;
    Has(code, a, B(end - a)) && ListAt(code, a + 1, head) && ListAt(code, x, before) && ListAt(code, x + |before|, behind)
    && RefAt(code, end, q, a + 1)
  }

  lemma BeginAt(code: seq<Ins>, offs: seq<int>, starts: seq<int>, g: Gen, head: seq<Ins>)
    requires Ok(g) && Fits(code, offs, starts, Begin(g, head), |g.code| + 1)
    ensures ListAt(code, |g.code| + 1, head) && |g.labels| + 2 <= |offs| && offs[|g.labels|] == |g.code| + 1
  {
    var h := LabelLater(LabelHere(Add(g, [B(0)])));
    AddShape(g, [B(0)]);
    assert Ok(h) && |h.code| == |g.code| + 1;
    AddedAt(code, offs, starts, h, head, |g.code| + 1);
    assert Begin(g, head).labels[|g.labels|] == Offset(|g.code| + 1);
  }

  lemma DefineAt(code: seq<Ins>, offs: seq<int>, starts: seq<int>, g: Gen, l: nat, from: nat)
    requires Ok(g) && l < |g.labels| && g.labels[l] == Invalid && Fits(code, offs, starts, Define(g, l), from)
    ensures |g.labels| <= |offs| && offs[l] == |g.code| && Fits(code, offs, starts, g, from)
  {
    assert Define(g, l).labels[l] == Offset(|g.code|);
    FitsBack(code, offs, starts, g, Define(g, l), from, from);
  }

  lemma PatchAt(code: seq<Ins>, offs: seq<int>, starts: seq<int>, g: Gen, a: nat, i: Ins)
    requires Ok(g) && a < |g.code| && g.pend[a] == -1 && Fits(code, offs, starts, Patch(g, a, i), a)
    ensures Has(code, a, i) && Fits(code, offs, starts, g, a + 1)
  {
    assert Patch(g, a, i).code[a] == i;
  }

  lemma FinishAt(code: seq<Ins>, offs: seq<int>, starts: seq<int>, g: Gen, head: seq<Ins>, q: Quant, k: Gen, before: seq<Ins>, behind: seq<Ins>)
    requires Ok(g) && Inner(Begin(g, head), k) && Fits(code, offs, starts, Finish(k, Opened(g, q), before, behind), |g.code|)
    ensures FrameAt(code, |g.code|, head, q, |k.code|, before, behind) && Fits(code, offs, starts, k, |g.code| + 1)
    ensures |g.labels| + 2 <= |k.labels| <= |offs| && offs[|g.labels| + 1] == |k.code| + |before|
  {
    hide Inner, Add, AddTo, Begin, Define, Patch, Reference, Ok, RefSize, Fits, Has, ListAt, RefAt;
    var exp := Opened(g, q);
    var a := |g.code|;
    var b := Begin(g, head);
    BeginShape(g, head);
    InnerJoin(g, b, k);
    var k1 := Add(k, before);
    AddShape(k, before);
    InnerJoin(g, k, k1);
    var k2 := Define(k1, exp.endidx);
    DefineShape(g, k1, exp.endidx);
    var k3 := Add(k2, behind);
    AddShape(k2, behind);
    InnerJoin(g, k2, k3);
    var w := B(|k3.code| - exp.branch);
    var k4 := Patch(k3, exp.branch, w);
    PatchShape(g, k3, exp.branch, w);
    ReferenceAt(code, offs, starts, k4, exp.startidx, q, a);
    PendOf(g, head, k);
    PendKept(b, k, a);
    PendKept(k, k1, a);
    PendDefined(k1, exp.endidx, a);
    PendKept(k2, k3, a);
    PatchAt(code, offs, starts, k3, a, w);
    AddedAt(code, offs, starts, k2, behind, a + 1);
    DefineAt(code, offs, starts, k1, exp.endidx, a + 1);
    AddedAt(code, offs, starts, k, before, a + 1);
    InnerFits(code, offs, starts, b, k, a + 1);
    BeginAt(code, offs, starts, g, head);
  }

  lemma InnerFits(code: seq<Ins>, offs: seq<int>, starts: seq<int>, g: Gen, h: Gen, from: nat)
    requires Inner(g, h) && Fits(code, offs, starts, h, from)
    ensures Fits(code, offs, starts, g, from)
  {
    FitsBack(code, offs, starts, g, h, from, from);
  }

  lemma PendOf(g: Gen, head: seq<Ins>, k: Gen)
    requires Ok(g)
    ensures var b := Begin(g, head); |g.code| < |b.code| == |b.pend| && b.pend[|g.code|] == -1
  {
  }

  lemma PendKept(g: Gen, h: Gen, a: nat)
    requires Inner(g, h) && |g.pend| == |g.code| && a < |g.code| && g.pend[a] == -1
    ensures |h.pend| == |h.code| && a < |h.code| && h.pend[a] == -1
  {
  }

  lemma PendDefined(g: Gen, l: nat, a: nat)
    requires |g.pend| == |g.code| && a < |g.code| && g.pend[a] == -1
    ensures var h := Define(g, l); |h.pend| == |h.code| == |g.code| && h.pend[a] == -1
  {
  }

  lemma Heads(code: seq<Ins>, b: int)
    ensures ListAt(code, b, HEAD) ==> HeadAt(code, b)
    ensures ListAt(code, b, ALT_HEAD) ==> AltHeadAt(code, b)
  {
    hide Has;
    if ListAt(code, b, HEAD) { assert Has(code, b + 0, HEAD[0]) && Has(code, b + 1, HEAD[1]) && Has(code, b + 2, HEAD[2]); }
    if ListAt(code, b, ALT_HEAD) { assert Has(code, b + 0, ALT_HEAD[0]) && Has(code, b + 1, ALT_HEAD[1]); }
  }

  lemma Tails(code: seq<Ins>, x: int)
    ensures ListAt(code, x, DONE) ==> DoneAt(code, x)
    ensures ListAt(code, x, FAIL) ==> FailAt(code, x)
    ensures ListAt(code, x, SKIP) ==> SkipAt(code, x)
  {
    hide Has;
    if ListAt(code, x, DONE) {
      assert Has(code, x + 0, DONE[0]) && Has(code, x + 1, DONE[1]) && Has(code, x + 2, DONE[2]) && Has(code, x + 3, DONE[3]) && Has(code, x + 4, DONE[4]);
    }
    if ListAt(code, x, FAIL) {
      assert Has(code, x + 0, FAIL[0]) && Has(code, x + 1, FAIL[1]) && Has(code, x + 2, FAIL[2]) && Has(code, x + 3, FAIL[3]) && Has(code, x + 4, FAIL[4]);
    }
    if ListAt(code, x, SKIP) {
      assert Has(code, x + 0, SKIP[0]) && Has(code, x + 1, SKIP[1]) && Has(code, x + 2, SKIP[2]) && Has(code, x + 3, SKIP[3]) && Has(code, x + 4, SKIP[4]);
    }
  }

  lemma AltTails(code: seq<Ins>, x: int)
    ensures ListAt(code, x, ALT_DONE) ==> AltDoneAt(code, x)
    ensures ListAt(code, x, ALT_FAIL) ==> AltFailAt(code, x)
  {
    hide Has;
    if ListAt(code, x, ALT_DONE) {
      assert Has(code, x + 0, ALT_DONE[0]) && Has(code, x + 1, ALT_DONE[1]) && Has(code, x + 2, ALT_DONE[2]) && Has(code, x + 3, ALT_DONE[3]);
    }
    if ListAt(code, x, ALT_FAIL) {
      assert Has(code, x + 0, ALT_FAIL[0]) && Has(code, x + 1, ALT_FAIL[1]) && Has(code, x + 2, ALT_FAIL[2]) && Has(code, x + 3, ALT_FAIL[3]);
    }
  }

  lemma {:induction false} MembersEmitted(code: seq<Ins>, offs: seq<int>, starts: seq<int>, g: Gen, ms: seq<Member>, end: nat, from: nat)
    requires Ok(g) && end < |g.labels| && from <= |g.code| && Fits(code, offs, starts, MembersGen(g, ms, end), from)
    ensures |g.labels| <= |offs| && MembersAt(code, |g.code|, ms, offs[end])
    decreases |ms|
  {
    hide Inner, Ok, Fits, Has, Add, AddTo, MemberTest, ListAt;
    if ms == [] {
    } else {
      var i := MATCH(MemberTest(ms[0]), Nan);
      var k := Add(g, [i]);
      AddShape(g, [i]);
      var h := AddTo(k, BGRE(0), end);
      AddToShape(k, BGRE(0), end);
      MembersShape(h, ms[1..], end);
      MembersEmitted(code, offs, starts, h, ms[1..], end, from);
      InnerFits(code, offs, starts, h, MembersGen(g, ms, end), from);
      AddToAt(code, offs, starts, k, BGRE(0), end, from);
      AddedAt(code, offs, starts, g, [i], from);
      ListFirst(code, |g.code|, [i]);
      MembersCons(code, |g.code|, ms, offs[end]);
    }
  }

  lemma ListFirst(code: seq<Ins>, a: int, ins: seq<Ins>)
    requires ListAt(code, a, ins) && ins != []
    ensures Has(code, a, ins[0])
  {
    assert Has(code, a + 0, ins[0]);
  }

  lemma MembersCons(code: seq<Ins>, a: int, ms: seq<Member>, end: int)
    requires ms != [] && Has(code, a, MATCH(MemberTest(ms[0]), Nan)) && Has(code, a + 1, BGRE(end - (a + 1)))
    requires MembersAt(code, a + 2, ms[1..], end)
    ensures MembersAt(code, a, ms, end)
  {
    hide Has, MemberTest;
    forall k | 0 <= k < |ms| ensures MemberAtCode(code, a + 2 * k, ms[k], end) {
      if k > 0 { assert MemberAtCode(code, a + 2 + 2 * (k - 1), ms[1..][k - 1], end); }
    }
  }

  lemma {:induction false} ExpEmitted(code: seq<Ins>, offs: seq<int>, starts: seq<int>, g: Gen, e: Item)
    requires Ok(g) && e.core.Exp? && Fits(code, offs, starts, ItemGen(g, e), |g.code|)
    ensures ItemAt(code, |g.code|, e, starts)
    decreases e, 1
  {
    hide Inner, Ok, Fits, Has, Add, AddTo, Begin, Finish, Reference, MembersGen, ItemsGen, BranchesGen, Named, ListAt, RefAt, MembersAt, BodyAt, BranchesAt,
      HeadAt, AltHeadAt, DoneAt, FailAt, AltDoneAt, AltFailAt, SkipAt, ItemSize, ItemsSize;
    var body, exp, b := e.core.body, Opened(g, e.q), Begin(g, HEAD);
    BeginShape(g, HEAD);
    ItemsShape(b, body, exp.endidx);
    var k := ItemsGen(b, body, exp.endidx);
    FinishAt(code, offs, starts, g, HEAD, e.q, k, DONE, FAIL);
    ItemsEmitted(code, offs, starts, b, body, exp.endidx, |g.code| + 1);
    Heads(code, |g.code| + 1);
    Tails(code, |k.code|);
    Tails(code, |k.code| + 5);
  }

  lemma {:induction false} AltEmitted(code: seq<Ins>, offs: seq<int>, starts: seq<int>, g: Gen, e: Item)
    requires Ok(g) && e.core.Alt? && Fits(code, offs, starts, ItemGen(g, e), |g.code|)
    ensures ItemAt(code, |g.code|, e, starts)
    decreases e, 1
  {
    hide Inner, Ok, Fits, Has, Add, AddTo, Begin, Finish, Reference, MembersGen, ItemsGen, BranchesGen, Named, ListAt, RefAt, MembersAt, BodyAt, BranchesAt,
      HeadAt, AltHeadAt, DoneAt, FailAt, AltDoneAt, AltFailAt, SkipAt, ItemSize, ItemsSize;
    var branches, exp, b := e.core.branches, Opened(g, e.q), Begin(g, ALT_HEAD);
    BeginShape(g, ALT_HEAD);
    BranchesShape(b, branches, exp.endidx);
    var k := BranchesGen(b, branches, exp.endidx);
    FinishAt(code, offs, starts, g, ALT_HEAD, e.q, k, ALT_FAIL, ALT_DONE);
    BranchesEmitted(code, offs, starts, b, branches, exp.endidx, |g.code| + 1);
    Heads(code, |g.code| + 1);
    AltTails(code, |k.code|);
    AltTails(code, |k.code| + 4);
  }

  lemma {:induction false} MinusEmitted(code: seq<Ins>, offs: seq<int>, starts: seq<int>, g: Gen, e: Item)
    requires Ok(g) && e.core.Minus? && Fits(code, offs, starts, ItemGen(g, e), |g.code|)
    ensures ItemAt(code, |g.code|, e, starts)
    decreases e, 1
  {
    hide Inner, Ok, Fits, Has, Add, AddTo, Begin, Finish, Reference, MembersGen, ItemsGen, BranchesGen, Named, ListAt, RefAt, MembersAt, BodyAt, BranchesAt,
      HeadAt, AltHeadAt, DoneAt, FailAt, AltDoneAt, AltFailAt, SkipAt, ItemSize, ItemsSize;
    var exp, b := Opened(g, e.q), Begin(g, HEAD);
    BeginShape(g, HEAD);
    var k := FollowedShape(b, e.core.nor, BGRE(0), exp.endidx);
    var k' := FollowedShape(k, e.core.req, BLES(0), exp.endidx);
    InnerJoin(b, k, k');
    FinishAt(code, offs, starts, g, HEAD, e.q, k', DONE, FAIL);
    FollowedEmitted(code, offs, starts, k, e.core.req, BLES(0), exp.endidx, |g.code| + 1);
    FollowedEmitted(code, offs, starts, b, e.core.nor, BGRE(0), exp.endidx, |g.code| + 1);
    Heads(code, |g.code| + 1);
    Tails(code, |k'.code|);
    Tails(code, |k'.code| + 5);
  }

  lemma {:induction false} NotEmitted(code: seq<Ins>, offs: seq<int>, starts: seq<int>, g: Gen, e: Item)
    requires Ok(g) && e.core.Not? && Fits(code, offs, starts, ItemGen(g, e), |g.code|)
    ensures ItemAt(code, |g.code|, e, starts)
    decreases e, 1
  {
    hide Inner, Ok, Fits, Has, Add, AddTo, Begin, Finish, Reference, MembersGen, ItemsGen, BranchesGen, Named, ListAt, RefAt, MembersAt, BodyAt, BranchesAt,
      HeadAt, AltHeadAt, DoneAt, FailAt, AltDoneAt, AltFailAt, SkipAt, ItemSize, ItemsSize;
    var exp, b := Opened(g, e.q), Begin(g, HEAD);
    BeginShape(g, HEAD);
    var k := FollowedShape(b, e.core.item, BLES(0), exp.endidx);
    FinishAt(code, offs, starts, g, HEAD, e.q, k, FAIL, SKIP);
    FollowedEmitted(code, offs, starts, b, e.core.item, BLES(0), exp.endidx, |g.code| + 1);
    Heads(code, |g.code| + 1);
    Tails(code, |k.code|);
    Tails(code, |k.code| + 5);
  }

  lemma ClassEmitted(code: seq<Ins>, offs: seq<int>, starts: seq<int>, g: Gen, e: Item)
    requires Ok(g) && e.core.Cls? && Fits(code, offs, starts, ItemGen(g, e), |g.code|)
    ensures ItemAt(code, |g.code|, e, starts)
  {
    hide Inner, Ok, Fits, Has, Add, AddTo, Begin, Finish, Reference, MembersGen, ItemsGen, BranchesGen, Named, ListAt, RefAt, MembersAt, BodyAt, BranchesAt,
      HeadAt, AltHeadAt, DoneAt, FailAt, AltDoneAt, AltFailAt, SkipAt, ItemSize, ItemsSize;
    var ms, exp, b := e.core.members, Opened(g, e.q), Begin(g, ALT_HEAD);
    BeginShape(g, ALT_HEAD);
    MembersShape(b, ms, exp.endidx);
    var k := MembersGen(b, ms, exp.endidx);
    FinishAt(code, offs, starts, g, ALT_HEAD, e.q, k, ALT_FAIL, ALT_DONE);
    MembersEmitted(code, offs, starts, b, ms, exp.endidx, |g.code| + 1);
    Heads(code, |g.code| + 1);
    AltTails(code, |k.code|);
    AltTails(code, |k.code| + 4);
  }

  /** Linked, the code emitted for an item has the layout of the item. */
  lemma {:induction false} ItemEmitted(code: seq<Ins>, offs: seq<int>, starts: seq<int>, g: Gen, e: Item)
    requires Ok(g) && Fits(code, offs, starts, ItemGen(g, e), |g.code|)
    ensures ItemAt(code, |g.code|, e, starts)
    decreases e, 2
  {
    hide Inner, Ok, Fits, Has, Add, AddTo, Begin, Finish, Reference, MembersGen, ItemsGen, BranchesGen, Named, ListAt, RefAt, SubAt, SubSize;
    var a := |g.code|;
    match e.core
    case Chr(c) => AddedAt(code, offs, starts, g, [MATCH(TChr(c), e.q)], a); ListFirst(code, a, [MATCH(TChr(c), e.q)]);
    case Spc(c) => AddedAt(code, offs, starts, g, [MATCH(TSpc(c), e.q)], a); ListFirst(code, a, [MATCH(TSpc(c), e.q)]);
    case Cls(_) => ClassEmitted(code, offs, starts, g, e);
    case Exp(_) => ExpEmitted(code, offs, starts, g, e);
    case Alt(_) => AltEmitted(code, offs, starts, g, e);
    case Minus(_, _) => MinusEmitted(code, offs, starts, g, e);
    case Not(_) => NotEmitted(code, offs, starts, g, e);
    case Ref(r) =>
      NamedShape(g, r);
      NameOf(Named(g, r), r);
      ReferenceAt(code, offs, starts, Named(g, r), Named(g, r).names[r], e.q, a);
      NameFits(code, offs, starts, Named(g, r), r, a);
  }

  lemma NameFits(code: seq<Ins>, offs: seq<int>, starts: seq<int>, g: Gen, r: nat, from: nat)
    requires Fits(code, offs, starts, g, from) && r in g.names
    ensures r < |starts| && g.names[r] < |offs| && offs[g.names[r]] == starts[r]
  {
  }

  lemma {:induction false} FollowedEmitted(code: seq<Ins>, offs: seq<int>, starts: seq<int>, g: Gen, e: Item, i: Ins, end: nat, from: nat)
    requires Ok(g) && end < |g.labels| && from <= |g.code| && Fits(code, offs, starts, AddTo(ItemGen(g, e), i, end), from)
    ensures |g.labels| <= |offs| && ItemAt(code, |g.code|, e, starts) && Fits(code, offs, starts, g, from)
    ensures var x := |g.code| + ItemSize(e); Has(code, x, WithW(i, offs[end] - x))
    decreases e, 3
  {
    hide *;
    var k := ItemGen(g, e);
    ItemShape(g, e);
    AddToAt(code, offs, starts, k, i, end, from);
    InnerFits(code, offs, starts, g, k, from);
    FitsLater(code, offs, starts, k, from, |g.code|);
    ItemEmitted(code, offs, starts, g, e);
  }

  lemma FitsLater(code: seq<Ins>, offs: seq<int>, starts: seq<int>, g: Gen, from: nat, from': nat)
    requires Fits(code, offs, starts, g, from) && from <= from'
    ensures Fits(code, offs, starts, g, from')
  {
  }

  lemma {:induction false} ItemsEmitted(code: seq<Ins>, offs: seq<int>, starts: seq<int>, g: Gen, b: Items, end: nat, from: nat)
    requires Ok(g) && end < |g.labels| && from <= |g.code| && Fits(code, offs, starts, ItemsGen(g, b, end), from)
    ensures |g.labels| <= |offs| && BodyAt(code, |g.code|, b, offs[end], starts)
    decreases b, 0
  {
    hide Inner, Ok, Fits, Has, ItemGen, AddTo, ItemAt, ItemSize;
    match b
    case Nil =>
    case Cons(head, tail) =>
      var h := FollowedShape(g, head, BLES(0), end);
      ItemsShape(h, tail, end);
      ItemsEmitted(code, offs, starts, h, tail, end, from);
      InnerFits(code, offs, starts, h, ItemsGen(g, b, end), from);
      FollowedEmitted(code, offs, starts, g, head, BLES(0), end, from);
  }

  lemma {:induction false} BranchesEmitted(code: seq<Ins>, offs: seq<int>, starts: seq<int>, g: Gen, b: Items, end: nat, from: nat)
    requires Ok(g) && end < |g.labels| && from <= |g.code| && Fits(code, offs, starts, BranchesGen(g, b, end), from)
    ensures |g.labels| <= |offs| && BranchesAt(code, |g.code|, b, offs[end], starts)
    decreases b, 0
  {
    hide Inner, Ok, Fits, Has, ItemGen, AddTo, ItemAt, ItemSize;
    match b
    case Nil =>
    case Cons(head, tail) =>
      var h := FollowedShape(g, head, BGRE(0), end);
      BranchesShape(h, tail, end);
      BranchesEmitted(code, offs, starts, h, tail, end, from);
      InnerFits(code, offs, starts, h, BranchesGen(g, b, end), from);
      FollowedEmitted(code, offs, starts, g, head, BGRE(0), end, from);
  }

  const ENTRY: seq<Ins> := [SHIFT, BL(3), EMITTAIL, EXT]

  function RuleHead(start: nat, r: nat, rule: Rule): seq<Ins> {
    [CHECKCACHE(start), BXNEQ(LR), PUSH(RREC), PUSH(RTOP), PUSH(LR)] + if rule.emit then [EMITSTART(r)] else []
  }

  function RuleDone(start: nat, r: nat, rule: Rule): seq<Ins> {
    [POP(LR), POP(ROTP), POP(R1), SUBS(R0, RTOP, ROTP)] + (if rule.emit then [BEQ(4), EMITEND(r)] else [BEQ(3)])
    + [SETCACHE(start, R1, RREC), BX(LR), MOV(RREC, R1), MOVI(R0, -1), BX(LR)]
  }

  function RuleFail(start: nat): seq<Ins> {
    [POP(LR), POP(RTOP), POP(RREC), MOV(ROTP, RTOP), MOVI(R0, -1), SETCACHE(start, RREC, RREC), BX(LR)]
  }

  /** The label of the rule becomes valid here. */
  function DefineRule(g: Gen, r: nat): Gen {
    Define(Named(g, r), Named(g, r).names[r])
  }

  function RuleBegin(g: Gen, r: nat, rule: Rule): Gen {
    Add(LabelLater(DefineRule(g, r)), RuleHead(|g.code|, r, rule))
  }

  function RuleEnd(g: Gen, start: nat, endidx: nat, r: nat, rule: Rule): Gen {
    Add(Define(Add(g, RuleDone(start, r, rule)), endidx), RuleFail(start))
  }

  function RuleGen(g: Gen, r: nat, rule: Rule): Gen {
    var e := Add(g, ENTRY);
    var endidx := |DefineRule(e, r).labels|;
    RuleEnd(ItemsGen(RuleBegin(e, r, rule), rule.body, endidx), |e.code|, endidx, r, rule)
  }

  function RulesGen(g: Gen, rules: seq<Rule>, k: nat): Gen
    requires k <= |rules|
    decreases |rules| - k
  {
    if k == |rules| then g else RulesGen(RuleGen(g, k, rules[k]), rules, k + 1)
  }

  /** The rules before `k` have been compiled: exactly their labels are valid. */
  predicate UpTo(g: Gen, k: nat)
    ensures UpTo(g, k) ==> Ok(g)
  {
    Ok(g)
    && (forall r :: 0 <= r < k ==> r in g.names && g.labels[g.names[r]].Offset?)
    && (forall r :: r in g.names && r >= k ==> g.labels[g.names[r]] == Invalid)
    && (forall r, r' :: r in g.names && r' in g.names && r != r' ==> g.names[r] != g.names[r'])
  }

  lemma NamedUpTo(g: Gen, r: nat, k: nat)
    requires UpTo(g, k) && r >= k
    ensures UpTo(Named(g, r), k)
  {
  }

  lemma DefineUpTo(g: Gen, k: nat)
    requires UpTo(g, k)
    ensures var h := DefineRule(g, k); UpTo(h, k + 1) && Grows(g, h, 0) && h.code == g.code && h.labels[h.names[k]] == Offset(|g.code|)
    ensures forall l :: 0 <= l < |g.labels| && (k in g.names ==> l != g.names[k]) ==> DefineRule(g, k).labels[l] == g.labels[l]
  {
    NamedUpTo(g, k, k);
  }

  function ItemRefs(e: Item): set<nat>
    decreases e
  {
    match e.core
    case Chr(_) => {}
    case Spc(_) => {}
    case Cls(_) => {}
    case Exp(body) => ItemsRefs(body)
    case Alt(branches) => ItemsRefs(branches)
    case Minus(nor, req) => ItemRefs(nor) + ItemRefs(req)
    case Not(item) => ItemRefs(item)
    case Ref(r) => {r}
  }

  /** The rules an expression refers to. */
  function ItemsRefs(b: Items): set<nat>
    decreases b
  {
    match b
    case Nil => {}
    case Cons(head, tail) => ItemRefs(head) + ItemsRefs(tail)
  }

  /** Some instruction waits for label `l`. */
  predicate Waits(g: Gen, l: nat) {
    exists i :: 0 <= i < |g.pend| && g.pend[i] == l
  }

  /** From `g` to `h` exactly the names `refs` have been used; a new label is valid unless it is the label of
      a rule still to come. */
  predicate Progress(g: Gen, h: Gen, refs: set<nat>)
    ensures Progress(g, h, refs) ==> Inner(g, h) && h.names.Keys == g.names.Keys + refs && AllWait(h, refs)
  {
    Inner(g, h) && h.names.Keys == g.names.Keys + refs && NewNames(g, h) && AllWait(h, refs) && NewLabels(g, h)
  }

  predicate NewNames(g: Gen, h: Gen) {
    (forall r :: r in h.names && r !in g.names ==> |g.labels| <= h.names[r] < |h.labels| && h.labels[h.names[r]] == Invalid)
    && (forall r, r' :: r in h.names && r' in h.names && r !in g.names && r' !in g.names && r != r' ==> h.names[r] != h.names[r'])
  }

  predicate AllWait(h: Gen, refs: set<nat>) {
    forall r :: r in refs ==> r in h.names && Waits(h, h.names[r])
  }

  predicate NewLabels(g: Gen, h: Gen) {
    forall l :: |g.labels| <= l < |h.labels| && h.labels[l] == Invalid ==> IsName(h, l)
  }

  predicate IsName(g: Gen, l: nat) {
    exists r :: r in g.names && g.names[r] == l
  }

  lemma WaitsOn(g: Gen, h: Gen, l: nat)
    requires Inner(g, h) && Waits(g, l)
    ensures Waits(h, l)
  {
    var i :| 0 <= i < |g.pend| && g.pend[i] == l;
    assert h.pend[i] == l;
  }

  lemma ProgressJoin(g: Gen, h: Gen, k: Gen, a: set<nat>, b: set<nat>)
    requires Progress(g, h, a) && Progress(h, k, b)
    ensures Progress(g, k, a + b)
  {
    hide Inner, NewNames, AllWait, NewLabels;
    InnerJoin(g, h, k);
    NewNamesJoin(g, h, k);
    AllWaitJoin(h, k, a, b);
    NewLabelsJoin(g, h, k);
  }

  lemma NewNamesJoin(g: Gen, h: Gen, k: Gen)
    requires Inner(g, h) && Inner(h, k) && NewNames(g, h) && NewNames(h, k)
    ensures NewNames(g, k)
  {
  }

  lemma AllWaitJoin(h: Gen, k: Gen, a: set<nat>, b: set<nat>)
    requires Inner(h, k) && AllWait(h, a) && AllWait(k, b)
    ensures AllWait(k, a + b)
  {
    hide Waits;
    forall r | r in a + b ensures r in k.names && Waits(k, k.names[r]) {
      if r in a { WaitsOn(h, k, h.names[r]); }
    }
  }

  lemma NewLabelsJoin(g: Gen, h: Gen, k: Gen)
    requires Inner(g, h) && Inner(h, k) && NewLabels(g, h) && NewLabels(h, k)
    ensures NewLabels(g, k)
  {
    forall l | |g.labels| <= l < |k.labels| && k.labels[l] == Invalid ensures IsName(k, l) {
      if l < |h.labels| {
        assert h.labels[l] == Invalid && IsName(h, l);
        var r :| r in h.names && h.names[r] == l;
        assert r in k.names && k.names[r] == l;
      }
    }
  }

  lemma ProgressSame(g: Gen, h: Gen)
    requires Inner(g, h) && h.labels == g.labels && h.names == g.names
    ensures Progress(g, h, {})
  {
  }

  lemma ReferenceProgress(g: Gen, l: nat, q: Quant)
    requires Ok(g) && l < |g.labels|
    ensures var h := Reference(g, l, q); Progress(g, h, {}) && Waits(h, l) && h.labels == g.labels && h.names == g.names
  {
    ReferenceShape(g, l, q);
    var h := Reference(g, l, q);
    var a := if q.Nan? || q.Opt? then |g.code| else |g.code| + 1;
    assert h.pend[a] == l;
    ProgressSame(g, h);
  }

  lemma RefProgress(g: Gen, r: nat, q: Quant)
    requires Ok(g)
    ensures Progress(g, ItemGen(g, Item(Ref(r), q)), {r})
  {
    hide Reference, Waits, Inner, Progress, Grows, AllWait;
    var k := Named(g, r);
    NamedShape(g, r);
    NameOf(k, r);
    ReferenceProgress(k, k.names[r], q);
    NamedProgress(g, r, ItemGen(g, Item(Ref(r), q)));
  }

  lemma NamedProgress(g: Gen, r: nat, h: Gen)
    requires Ok(g) && Progress(Named(g, r), h, {}) && h.labels == Named(g, r).labels && h.names == Named(g, r).names && Waits(h, h.names[r])
    ensures Progress(g, h, {r})
  {
    hide Waits, Ok;
    NamedShape(g, r);
    InnerJoin(g, Named(g, r), h);
    hide Inner;
    forall l | |g.labels| <= l < |h.labels| && h.labels[l] == Invalid ensures IsName(h, l) {
      assert h.names[r] == l;
    }
  }

  /** Closing an expression makes its two labels valid. */
  lemma FinishProgress(g: Gen, head: seq<Ins>, q: Quant, k: Gen, before: seq<Ins>, behind: seq<Ins>, refs: set<nat>)
    requires Ok(g) && Progress(Begin(g, head), k, refs)
    ensures Progress(g, Finish(k, Opened(g, q), before, behind), refs)
  {
    hide Waits, Reference;
    var exp := Opened(g, q);
    var h := Finish(k, exp, before, behind);
    BeginShape(g, head);
    FinishShape(g, head, q, k, before, behind);
    var k3 := Add(Define(Add(k, before), exp.endidx), behind);
    var k4 := Patch(k3, exp.branch, B(|k3.code| - exp.branch));
    FinishedOk(g, head, k, k4, exp, before, behind);
    ReferenceProgress(k4, exp.startidx, q);
    FinishWaits(k, k4, h, refs);
    FinishLabels(g, Begin(g, head), k, h, exp);
  }

  lemma FinishWaits(k: Gen, k4: Gen, h: Gen, refs: set<nat>)
    requires AllWait(k, refs) && Ok(k4) && Progress(k4, h, {}) && h.names == k4.names == k.names && |k.pend| <= |k4.pend| && k4.pend[..|k.pend|] == k.pend
    ensures AllWait(h, refs)
  {
    hide Waits, Inner;
    forall r | r in refs ensures r in h.names && Waits(h, h.names[r]) {
      assert r in k.names && Waits(k, k.names[r]);
      PendWaits(k, k4, k.names[r]);
      WaitsOn(k4, h, h.names[r]);
    }
  }

  lemma FinishLabels(g: Gen, b: Gen, k: Gen, h: Gen, exp: RuleDef)
    requires NewLabels(b, k) && |b.labels| == |g.labels| + 2 <= |k.labels| == |h.labels| && h.names == k.names
    requires exp.startidx == |g.labels| && exp.endidx == |g.labels| + 1 && k.labels[|g.labels|].Offset?
    requires forall l :: 0 <= l < |k.labels| ==> if l == exp.endidx then h.labels[l].Offset? else h.labels[l] == k.labels[l]
    ensures NewLabels(g, h)
  {
    forall l | |g.labels| <= l < |h.labels| && h.labels[l] == Invalid ensures IsName(h, l) {
      assert k.labels[l] == Invalid && IsName(k, l);
      var r :| r in k.names && k.names[r] == l;
      assert h.names[r] == l;
    }
  }

  lemma FinishedOk(g: Gen, head: seq<Ins>, k: Gen, k4: Gen, exp: RuleDef, before: seq<Ins>, behind: seq<Ins>)
    requires Ok(g) && Inner(Begin(g, head), k) && exp.endidx == |g.labels| + 1 && exp.startidx == |g.labels| && exp.branch == |g.code|
    requires var k3 := Add(Define(Add(k, before), exp.endidx), behind); k4 == Patch(k3, exp.branch, B(|k3.code| - exp.branch))
    ensures Ok(k4) && |k4.labels| == |k.labels| && exp.startidx < |k4.labels| && k4.names == k.names && |k.pend| <= |k4.pend| && k4.pend[..|k.pend|] == k.pend
    ensures forall l :: 0 <= l < |k.labels| ==> if l == exp.endidx then k4.labels[l].Offset? else k4.labels[l] == k.labels[l]
  {
    BeginShape(g, head);
  }

  lemma PendWaits(g: Gen, h: Gen, l: nat)
    requires |g.pend| <= |h.pend| && h.pend[..|g.pend|] == g.pend && Waits(g, l)
    ensures Waits(h, l)
  {
    var i :| 0 <= i < |g.pend| && g.pend[i] == l;
    assert h.pend[..|g.pend|][i] == l;
  }

  lemma AddProgress(g: Gen, ins: seq<Ins>)
    requires Ok(g)
    ensures Progress(g, Add(g, ins), {})
  {
    hide Inner, Ok, Progress;
    AddShape(g, ins);
    ProgressSame(g, Add(g, ins));
  }

  lemma AddToProgress(g: Gen, i: Ins, l: nat)
    requires Ok(g) && l < |g.labels|
    ensures Progress(g, AddTo(g, i, l), {})
  {
    hide Inner, Ok, Progress;
    AddToShape(g, i, l);
    ProgressSame(g, AddTo(g, i, l));
  }

  lemma ProgressSelf(g: Gen)
    requires Ok(g)
    ensures Progress(g, g, {})
  {
  }

  lemma {:induction false} MembersProgress(g: Gen, ms: seq<Member>, end: nat)
    requires Ok(g) && end < |g.labels|
    ensures Progress(g, MembersGen(g, ms, end), {})
    decreases |ms|
  {
    hide Inner, Add, AddTo, Progress, Ok, MemberTest;
    if ms == [] {
      ProgressSelf(g);
    } else {
      var i := MATCH(MemberTest(ms[0]), Nan);
      var k := Add(g, [i]);
      AddShape(g, [i]);
      AddProgress(g, [i]);
      var h := AddTo(k, BGRE(0), end);
      AddToShape(k, BGRE(0), end);
      AddToProgress(k, BGRE(0), end);
      MembersProgress(h, ms[1..], end);
      var none: set<nat> := {};
      ProgressJoin(g, k, h, none, none);
      ProgressJoin(g, h, MembersGen(g, ms, end), none + none, none);
      assert none + none + none == none;
    }
  }

  lemma {:induction false} FollowedProgress(g: Gen, e: Item, i: Ins, end: nat)
    requires Ok(g) && end < |g.labels|
    ensures Progress(g, AddTo(ItemGen(g, e), i, end), ItemRefs(e))
    decreases e, 3
  {
    hide *;
    var k := ItemGen(g, e);
    ItemShape(g, e);
    ItemProgress(g, e);
    AddToProgress(k, i, end);
    ProgressJoin(g, k, AddTo(k, i, end), ItemRefs(e), {});
    assert ItemRefs(e) + {} == ItemRefs(e);
  }

  /** Compiling an item uses exactly the names it refers to, and leaves no label of its own open. */
  lemma {:induction false} ItemProgress(g: Gen, e: Item)
    requires Ok(g)
    ensures Progress(g, ItemGen(g, e), ItemRefs(e))
    decreases e, 2
  {
    hide Inner, Ok, Add, AddTo, Begin, Finish, Reference, MembersGen, ItemsGen, BranchesGen, Progress;
    var endidx := |g.labels| + 1;
    match e.core
    case Chr(c) => AddProgress(g, [MATCH(TChr(c), e.q)]);
    case Spc(c) => AddProgress(g, [MATCH(TSpc(c), e.q)]);
    case Ref(r) => RefProgress(g, r, e.q); assert e == Item(Ref(r), e.q);
    case Cls(ms) =>
      BeginOk(g, ALT_HEAD);
      MembersProgress(Begin(g, ALT_HEAD), ms, endidx);
      FinishProgress(g, ALT_HEAD, e.q, MembersGen(Begin(g, ALT_HEAD), ms, endidx), ALT_FAIL, ALT_DONE, {});
    case Exp(body) =>
      BeginOk(g, HEAD);
      ItemsProgress(Begin(g, HEAD), body, endidx);
      FinishProgress(g, HEAD, e.q, ItemsGen(Begin(g, HEAD), body, endidx), DONE, FAIL, ItemsRefs(body));
    case Alt(branches) =>
      BeginOk(g, ALT_HEAD);
      BranchesProgress(Begin(g, ALT_HEAD), branches, endidx);
      FinishProgress(g, ALT_HEAD, e.q, BranchesGen(Begin(g, ALT_HEAD), branches, endidx), ALT_FAIL, ALT_DONE, ItemsRefs(branches));
    case Minus(nor, req) =>
      BeginOk(g, HEAD);
      var b := Begin(g, HEAD);
      var k := FollowedShape(b, nor, BGRE(0), endidx);
      var k' := FollowedShape(k, req, BLES(0), endidx);
      FollowedProgress(b, nor, BGRE(0), endidx);
      FollowedProgress(k, req, BLES(0), endidx);
      ProgressJoin(b, k, k', ItemRefs(nor), ItemRefs(req));
      FinishProgress(g, HEAD, e.q, k', DONE, FAIL, ItemRefs(nor) + ItemRefs(req));
    case Not(item) =>
      BeginOk(g, HEAD);
      FollowedProgress(Begin(g, HEAD), item, BLES(0), endidx);
      FinishProgress(g, HEAD, e.q, AddTo(ItemGen(Begin(g, HEAD), item), BLES(0), endidx), FAIL, SKIP, ItemRefs(item));
  }

  lemma BeginOk(g: Gen, head: seq<Ins>)
    requires Ok(g)
    ensures Ok(Begin(g, head)) && |Begin(g, head).labels| == |g.labels| + 2
  {
    BeginShape(g, head);
  }

  lemma {:induction false} ItemsProgress(g: Gen, b: Items, end: nat)
    requires Ok(g) && end < |g.labels|
    ensures Progress(g, ItemsGen(g, b, end), ItemsRefs(b))
    decreases b, 0
  {
    hide Inner, Ok, ItemGen, AddTo, Progress, ItemRefs;
    match b
    case Nil => ProgressSelf(g);
    case Cons(head, tail) =>
      var h := FollowedShape(g, head, BLES(0), end);
      FollowedProgress(g, head, BLES(0), end);
      ItemsProgress(h, tail, end);
      ProgressJoin(g, h, ItemsGen(g, b, end), ItemRefs(head), ItemsRefs(tail));
  }

  lemma {:induction false} BranchesProgress(g: Gen, b: Items, end: nat)
    requires Ok(g) && end < |g.labels|
    ensures Progress(g, BranchesGen(g, b, end), ItemsRefs(b))
    decreases b, 0
  {
    hide Inner, Ok, ItemGen, AddTo, Progress, ItemRefs;
    match b
    case Nil => ProgressSelf(g);
    case Cons(head, tail) =>
      var h := FollowedShape(g, head, BGRE(0), end);
      FollowedProgress(g, head, BGRE(0), end);
      BranchesProgress(h, tail, end);
      ProgressJoin(g, h, BranchesGen(g, b, end), ItemRefs(head), ItemsRefs(tail));
  }

  lemma UpToKept(g: Gen, h: Gen, k: nat, refs: set<nat>)
    requires UpTo(g, k) && Progress(g, h, refs)
    ensures UpTo(h, k)
  {
    hide Waits, IsName;
  }

  /** Every label that is not valid yet is the label of a rule. */
  predicate Clean(g: Gen) {
    forall l :: 0 <= l < |g.labels| && g.labels[l] == Invalid ==> IsName(g, l)
  }

  lemma DefineClean(g: Gen, k: nat)
    requires UpTo(g, k) && Clean(g)
    ensures Clean(DefineRule(g, k)) && DefineRule(g, k).names.Keys == g.names.Keys + {k}
    ensures forall r :: r in g.names && Waits(g, g.names[r]) ==> Waits(DefineRule(g, k), DefineRule(g, k).names[r])
  {
    var h := DefineRule(g, k);
    forall l | 0 <= l < |h.labels| && h.labels[l] == Invalid ensures IsName(h, l) {
      assert l < |g.labels| && g.labels[l] == Invalid && IsName(g, l);
      var r :| r in g.names && g.names[r] == l;
      assert h.names[r] == l;
    }
  }

  /** The part of a rule between its label and its end label. */
  function RuleBody(g: Gen, r: nat, rule: Rule): Gen {
    ItemsGen(RuleBegin(g, r, rule), rule.body, |DefineRule(g, r).labels|)
  }

  lemma RuleBodyShape(g: Gen, r: nat, rule: Rule)
    requires UpTo(g, r) && Clean(g)
    ensures var d, k, endidx := DefineRule(g, r), RuleBody(g, r, rule), |DefineRule(g, r).labels|;
      Ok(d) && Inner(LabelLater(d), k) && |k.code| == |g.code| + 5 + EmitSize(rule) + ItemsSize(rule.body)
      && endidx < |k.labels| && k.labels[endidx] == Invalid && Ok(k)
    ensures Progress(LabelLater(DefineRule(g, r)), RuleBody(g, r, rule), ItemsRefs(rule.body))
  {
    hide Inner, Progress, ItemsGen, Add, Define, Named, Clean;
    DefineUpTo(g, r);
    var d, endidx := DefineRule(g, r), |DefineRule(g, r).labels|;
    var l := LabelLater(d);
    var s := RuleBegin(g, r, rule);
    AddShape(l, RuleHead(|g.code|, r, rule));
    AddProgress(l, RuleHead(|g.code|, r, rule));
    ItemsShape(s, rule.body, endidx);
    ItemsProgress(s, rule.body, endidx);
    var k := RuleBody(g, r, rule);
    InnerJoin(l, s, k);
    ProgressJoin(l, s, k, {}, ItemsRefs(rule.body));
    assert {} + ItemsRefs(rule.body) == ItemsRefs(rule.body);
  }

  lemma RuleEndOk(k: Gen, start: nat, endidx: nat, r: nat, rule: Rule)
    requires Ok(k) && endidx < |k.labels| && k.labels[endidx] == Invalid
    ensures var h := RuleEnd(k, start, endidx, r, rule);
      Grows(k, h, 0) && |h.code| == |k.code| + 17 + EmitSize(rule) && h.names == k.names && |h.labels| == |k.labels|
      && |k.pend| <= |h.pend| && h.pend[..|k.pend|] == k.pend
      && forall l :: 0 <= l < |k.labels| ==> if l == endidx then h.labels[l].Offset? else h.labels[l] == k.labels[l]
  {
  }

  lemma AddClean(g: Gen, ins: seq<Ins>)
    requires Ok(g) && Clean(g)
    ensures Clean(Add(g, ins))
  {
    var h := Add(g, ins);
    forall l | 0 <= l < |h.labels| && h.labels[l] == Invalid ensures IsName(h, l) {
      assert IsName(g, l);
      var r :| r in g.names && g.names[r] == l;
      assert h.names[r] == l;
    }
  }

  lemma LaterUpTo(g: Gen, k: nat)
    requires UpTo(g, k)
    ensures UpTo(LabelLater(g), k)
  {
  }

  /** Inside the rule only its end label is neither valid nor a name. */
  predicate CleanBut(g: Gen, endidx: nat) {
    (forall l :: 0 <= l < |g.labels| && g.labels[l] == Invalid && l != endidx ==> IsName(g, l)) && !IsName(g, endidx)
  }

  lemma BodyClean(d: Gen, k: Gen, refs: set<nat>)
    requires Ok(d) && Clean(d) && Progress(LabelLater(d), k, refs)
    ensures CleanBut(k, |d.labels|)
  {
    hide Waits, AllWait;
    var endidx := |d.labels|;
    forall l | 0 <= l < |k.labels| && k.labels[l] == Invalid && l != endidx ensures IsName(k, l) {
      if l < endidx {
        assert d.labels[l] == Invalid && IsName(d, l);
        var r :| r in d.names && d.names[r] == l;
        assert r in k.names && k.names[r] == l;
      }
    }
  }

  lemma EndClean(k: Gen, start: nat, endidx: nat, r: nat, rule: Rule, n: nat)
    requires UpTo(k, n) && CleanBut(k, endidx) && endidx < |k.labels| && k.labels[endidx] == Invalid
    ensures UpTo(RuleEnd(k, start, endidx, r, rule), n) && Clean(RuleEnd(k, start, endidx, r, rule))
  {
    hide RuleEnd;
    var h := RuleEnd(k, start, endidx, r, rule);
    RuleEndOk(k, start, endidx, r, rule);
    forall l | 0 <= l < |h.labels| && h.labels[l] == Invalid ensures IsName(h, l) {
      assert l != endidx && k.labels[l] == Invalid && IsName(k, l);
      var q :| q in k.names && k.names[q] == l;
      assert h.names[q] == l;
    }
    forall q | q in h.names ensures h.labels[h.names[q]] == k.labels[k.names[q]] {
      assert IsName(k, k.names[q]);
    }
  }

  lemma WaitsThrough(g: Gen, h: Gen)
    requires Ok(g) && Ok(h) && Grows(g, h, 0)
    ensures forall l :: Waits(g, l) ==> Waits(h, l)
  {
    forall l | Waits(g, l) ensures Waits(h, l) {
      var i :| 0 <= i < |g.pend| && g.pend[i] == l;
      assert h.pend[i] == l;
    }
  }

  /** Compiling a rule makes its label valid and no other name's, and uses exactly the names it refers to. */
  lemma RuleShape(g: Gen, r: nat, rule: Rule)
    requires UpTo(g, r) && Clean(g)
    ensures var h := RuleGen(g, r, rule);
      UpTo(h, r + 1) && Clean(h) && Grows(g, h, 0) && |h.code| == |g.code| + 4 + RuleSize(rule)
      && h.names.Keys == g.names.Keys + {r} + ItemsRefs(rule.body) && AllWait(h, ItemsRefs(rule.body))
    ensures forall l :: Waits(g, l) ==> Waits(RuleGen(g, r, rule), l)
  {
    hide Clean, CleanBut, Waits, RuleEnd, ItemsGen, DefineRule, RuleBegin, Progress, Inner, UpTo, Grows, AllWait, Add;
    var e := Add(g, ENTRY);
    AddShape(g, ENTRY);
    AddProgress(g, ENTRY);
    UpToKept(g, e, r, {});
    AddClean(g, ENTRY);
    DefineUpTo(e, r);
    DefineClean(e, r);
    var d := DefineRule(e, r);
    LaterUpTo(d, r + 1);
    RuleBodyShape(e, r, rule);
    var k, endidx, refs := RuleBody(e, r, rule), |d.labels|, ItemsRefs(rule.body);
    UpToKept(LabelLater(d), k, r + 1, refs);
    BodyClean(d, k, refs);
    var h := RuleGen(g, r, rule);
    RuleEndOk(k, |e.code|, endidx, r, rule);
    EndClean(k, |e.code|, endidx, r, rule, r + 1);
    LaterGrows(d);
    GrowsJoin(d, LabelLater(d), k, 0);
    GrowsJoin(g, e, d, 0);
    GrowsJoin(g, d, k, 0);
    GrowsJoin(g, k, h, 0);
    WaitsThrough(g, h);
    WaitsThrough(k, h);
    AllWaitSame(k, h, refs);
    assert h.names.Keys == e.names.Keys + {r} + refs;
  }

  lemma AllWaitSame(k: Gen, h: Gen, refs: set<nat>)
    requires AllWait(k, refs) && h.names == k.names && forall l :: Waits(k, l) ==> Waits(h, l)
    ensures AllWait(h, refs)
  {
    hide Waits;
  }

  lemma LaterGrows(g: Gen)
    requires Ok(g)
    ensures Grows(g, LabelLater(g), 0)
  {
  }

  lemma RuleHeadList(code: seq<Ins>, b: nat, r: nat, rule: Rule)
    requires ListAt(code, b, RuleHead(b, r, rule))
    ensures RuleHeadAt(code, b, r, rule)
  {
    hide Has;
    var ins := RuleHead(b, r, rule);
    assert Has(code, b + 0, ins[0]) && Has(code, b + 1, ins[1]) && Has(code, b + 2, ins[2]) && Has(code, b + 3, ins[3]) && Has(code, b + 4, ins[4]);
    if rule.emit { assert Has(code, b + 5, ins[5]); }
  }

  lemma RuleDoneList(code: seq<Ins>, b: nat, x: int, r: nat, rule: Rule)
    requires ListAt(code, x, RuleDone(b, r, rule))
    ensures RuleDoneAt(code, b, x, r, rule)
  {
    hide Has;
    var ins := RuleDone(b, r, rule);
    assert Has(code, x + 0, ins[0]) && Has(code, x + 1, ins[1]) && Has(code, x + 2, ins[2]) && Has(code, x + 3, ins[3]) && Has(code, x + 4, ins[4]);
    assert Has(code, x + 5, ins[5]) && Has(code, x + 6, ins[6]) && Has(code, x + 7, ins[7]) && Has(code, x + 8, ins[8]) && Has(code, x + 9, ins[9]);
    if rule.emit { assert Has(code, x + 10, ins[10]); }
  }

  lemma RuleFailList(code: seq<Ins>, b: nat, x: int)
    requires ListAt(code, x, RuleFail(b))
    ensures RuleFailAt(code, b, x)
  {
    hide Has;
    var ins := RuleFail(b);
    assert Has(code, x + 0, ins[0]) && Has(code, x + 1, ins[1]) && Has(code, x + 2, ins[2]) && Has(code, x + 3, ins[3]) && Has(code, x + 4, ins[4]);
    assert Has(code, x + 5, ins[5]) && Has(code, x + 6, ins[6]);
  }

  lemma EntryList(code: seq<Ins>, a: int)
    requires ListAt(code, a, ENTRY)
    ensures EntryAt(code, a)
  {
    hide Has;
    assert Has(code, a + 0, ENTRY[0]) && Has(code, a + 1, ENTRY[1]) && Has(code, a + 2, ENTRY[2]) && Has(code, a + 3, ENTRY[3]);
  }

  lemma GrowsFrom(g: Gen, h: Gen, from: nat)
    requires Grows(g, h, 0)
    ensures Grows(g, h, from)
  {
  }

  /** The label of a rule is where the rule starts. */
  lemma StartFits(code: seq<Ins>, offs: seq<int>, starts: seq<int>, g: Gen, r: nat, start: nat, from: nat)
    requires Fits(code, offs, starts, g, from) && r in g.names && g.labels[g.names[r]] == Offset(start)
    ensures r < |starts| && starts[r] == start
  {
  }

  lemma RuleSizes(b: nat, r: nat, rule: Rule)
    ensures |RuleHead(b, r, rule)| == 5 + EmitSize(rule) && |RuleDone(b, r, rule)| == 10 + EmitSize(rule) && |RuleFail(b)| == 7
  {
  }

  /** Linked, the code emitted for a rule is an entry and the layout of the rule. */
  lemma RuleEmitted(code: seq<Ins>, offs: seq<int>, starts: seq<int>, g: Gen, r: nat, rule: Rule)
    requires UpTo(g, r) && Clean(g) && Fits(code, offs, starts, RuleGen(g, r, rule), |g.code|)
    ensures EntryAt(code, |g.code|) && RuleAt(code, |g.code| + 4, r, rule, starts) && r < |starts| && starts[r] == |g.code| + 4
  {
    hide Clean, Waits, Progress, ItemsGen, DefineRule, RuleHead, RuleDone, RuleFail, Fits, Inner, UpTo, Grows, Add, Define, Ok, ListAt, Has, BodyAt,
      RuleHeadAt, RuleDoneAt, RuleFailAt, EntryAt, EmitSize, ItemsSize, ItemsRefs;
    var a := |g.code|;
    var e := Add(g, ENTRY);
    AddShape(g, ENTRY);
    RuleSizes(|e.code|, r, rule);
    AddProgress(g, ENTRY);
    UpToKept(g, e, r, {});
    AddClean(g, ENTRY);
    DefineUpTo(e, r);
    DefineClean(e, r);
    var d := DefineRule(e, r);
    RuleBodyShape(e, r, rule);
    var l, s, k, endidx := LabelLater(d), RuleBegin(e, r, rule), RuleBody(e, r, rule), |d.labels|;
    var done, fail := RuleDone(|e.code|, r, rule), RuleFail(|e.code|);
    AddShape(l, RuleHead(|e.code|, r, rule));
    var k1 := Add(k, done);
    AddShape(k, done);
    var k2 := Define(k1, endidx);
    AddedAt(code, offs, starts, k2, fail, a);
    DefineAt(code, offs, starts, k1, endidx, a);
    AddedAt(code, offs, starts, k, done, a);
    ItemsEmitted(code, offs, starts, s, rule.body, endidx, a);
    ItemsShape(s, rule.body, endidx);
    InnerFits(code, offs, starts, s, k, a);
    AddedAt(code, offs, starts, l, RuleHead(|e.code|, r, rule), a);
    LaterGrows(d);
    GrowsFrom(d, l, a);
    FitsBack(code, offs, starts, d, l, a, a);
    StartFits(code, offs, starts, d, r, |e.code|, a);
    GrowsFrom(e, d, a);
    FitsBack(code, offs, starts, e, d, a, a);
    AddedAt(code, offs, starts, g, ENTRY, a);
    EntryList(code, a);
    RuleHeadList(code, a + 4, r, rule);
    RuleDoneList(code, a + 4, |k.code|, r, rule);
    RuleFailList(code, a + 4, |k2.code|);
  }

  /** The offset at which the entry of rule `r` is compiled. */
  function EntryOf(rules: seq<Rule>, r: nat): nat
    requires r <= |rules|
  {
    if r == 0 then 0 else EntryOf(rules, r - 1) + 4 + RuleSize(rules[r - 1])
  }

  function StartsOf(rules: seq<Rule>): seq<int> {
    seq(|rules|, r requires 0 <= r < |rules| => EntryOf(rules, r) + 4)
  }

  lemma {:induction false} EntryOrder(rules: seq<Rule>, r: nat, r': nat)
    requires r < r' <= |rules|
    ensures EntryOf(rules, r) < EntryOf(rules, r')
    decreases r' - r
  {
    if r + 1 < r' { EntryOrder(rules, r, r' - 1); }
  }

  /** The rules referred to from rule `k` on. */
  function RulesRefs(rules: seq<Rule>, k: nat): set<nat>
    requires k <= |rules|
    decreases |rules| - k
  {
    if k == |rules| then {} else ItemsRefs(rules[k].body) + RulesRefs(rules, k + 1)
  }

  function NamesOf(k: nat, n: nat): (names: set<nat>)
    requires k <= n
    ensures forall r :: r in names <==> k <= r < n
    decreases n - k
  {
    if k == n then {} else {k} + NamesOf(k + 1, n)
  }

  const EMPTY: Gen := Gen([], [], [], map[])

  lemma {:induction false} RulesShape(g: Gen, rules: seq<Rule>, k: nat)
    requires k <= |rules| && UpTo(g, k) && Clean(g) && |g.code| == EntryOf(rules, k)
    ensures var h := RulesGen(g, rules, k);
      UpTo(h, |rules|) && Clean(h) && Grows(g, h, 0) && |h.code| == EntryOf(rules, |rules|)
      && h.names.Keys == g.names.Keys + NamesOf(k, |rules|) + RulesRefs(rules, k) && AllWait(h, RulesRefs(rules, k))
    ensures forall l :: Waits(g, l) ==> Waits(RulesGen(g, rules, k), l)
    decreases |rules| - k
  {
    hide UpTo, Clean, Grows, Waits, RuleGen, RuleSize, ItemsRefs, AllWait, Ok;
    if k == |rules| {
      GrowsSelf(g);
      AllWaitNone(g);
    } else {
      RuleShape(g, k, rules[k]);
      var m := RuleGen(g, k, rules[k]);
      RulesShape(m, rules, k + 1);
      var h := RulesGen(g, rules, k);
      GrowsJoin(g, m, h, 0);
      AllWaitOn(m, h, ItemsRefs(rules[k].body), RulesRefs(rules, k + 1));
    }
  }

  lemma GrowsSelf(g: Gen)
    requires Ok(g)
    ensures Grows(g, g, 0)
  {
  }

  lemma AllWaitNone(g: Gen)
    ensures AllWait(g, {})
  {
  }

  lemma AllWaitOn(g: Gen, h: Gen, a: set<nat>, b: set<nat>)
    requires AllWait(g, a) && Grows(g, h, 0) && AllWait(h, b) && forall l :: Waits(g, l) ==> Waits(h, l)
    ensures AllWait(h, a + b)
  {
    hide Waits;
  }

  predicate PlacedAt(code: seq<Ins>, starts: seq<int>, rules: seq<Rule>, r: nat)
    requires r < |rules| == |starts|
  {
    starts[r] == EntryOf(rules, r) + 4 && EntryAt(code, EntryOf(rules, r)) && RuleAt(code, starts[r], r, rules[r], starts)
  }

  lemma {:induction false} RulesEmitted(code: seq<Ins>, offs: seq<int>, starts: seq<int>, g: Gen, rules: seq<Rule>, k: nat)
    requires k <= |rules| && UpTo(g, k) && Clean(g) && |g.code| == EntryOf(rules, k) && |starts| == |rules|
    requires Fits(code, offs, starts, RulesGen(g, rules, k), |g.code|)
    ensures forall r :: k <= r < |rules| ==> PlacedAt(code, starts, rules, r)
    decreases |rules| - k
  {
    hide UpTo, Clean, Grows, Waits, RuleGen, RuleSize, ItemsRefs, AllWait, Ok, Fits, EntryAt, RuleAt, RulesRefs;
    if k < |rules| {
      RuleShape(g, k, rules[k]);
      var m := RuleGen(g, k, rules[k]);
      EntryNext(rules, k);
      RulesMore(code, offs, starts, g, m, rules, k);
      RuleEmitted(code, offs, starts, g, k, rules[k]);
      RulesEmitted(code, offs, starts, m, rules, k + 1);
    }
  }

  lemma EntryNext(rules: seq<Rule>, k: nat)
    requires k < |rules|
    ensures EntryOf(rules, k + 1) == EntryOf(rules, k) + 4 + RuleSize(rules[k])
  {
  }

  lemma RulesMore(code: seq<Ins>, offs: seq<int>, starts: seq<int>, g: Gen, m: Gen, rules: seq<Rule>, k: nat)
    requires k < |rules| && UpTo(m, k + 1) && Clean(m) && |m.code| == EntryOf(rules, k + 1) && |g.code| <= |m.code|
    requires Fits(code, offs, starts, RulesGen(m, rules, k + 1), |g.code|)
    ensures Fits(code, offs, starts, m, |g.code|) && Fits(code, offs, starts, RulesGen(m, rules, k + 1), |m.code|)
  {
    hide *;
    RulesShape(m, rules, k + 1);
    FitsLater(code, offs, starts, RulesGen(m, rules, k + 1), |g.code|, |m.code|);
    GrowsFrom(m, RulesGen(m, rules, k + 1), |g.code|);
    FitsBack(code, offs, starts, m, RulesGen(m, rules, k + 1), |g.code|, |g.code|);
  }

  /** Every label an instruction waits for is valid. */
  predicate Resolved(g: Gen) {
    forall i :: 0 <= i < |g.pend| && 0 <= g.pend[i] < |g.labels| ==> g.labels[g.pend[i]].Offset?
  }

  function LinkedIns(g: Gen, i: nat): Ins
    requires Ok(g) && i < |g.code|
  {
    if g.pend[i] >= 0 && g.labels[g.pend[i]].Offset? then WithW(g.code[i], g.labels[g.pend[i]].off - i) else g.code[i]
  }

  /** The whole grammar, before linking. */
  function Compiled(rules: seq<Rule>): (g: Gen)
    ensures UpTo(g, |rules|) && Clean(g) && |g.code| == EntryOf(rules, |rules|)
    ensures g.names.Keys == NamesOf(0, |rules|) + RulesRefs(rules, 0) && AllWait(g, RulesRefs(rules, 0))
  {
    RulesShape(EMPTY, rules, 0);
    RulesGen(EMPTY, rules, 0)
  }

  lemma WaitingResolved(g: Gen, n: nat, refs: set<nat>, r: nat)
    requires Resolved(g) && UpTo(g, n) && AllWait(g, refs) && r in refs
    ensures r < n
  {
    assert Waits(g, g.names[r]);
    var i :| 0 <= i < |g.pend| && g.pend[i] == g.names[r];
    assert g.labels[g.pend[i]].Offset?;
  }

  lemma ResolvedWaiting(g: Gen, n: nat, refs: set<nat>)
    requires UpTo(g, n) && Clean(g) && g.names.Keys == NamesOf(0, n) + refs && forall r :: r in refs ==> r < n
    ensures Resolved(g)
  {
    forall i | 0 <= i < |g.pend| && 0 <= g.pend[i] < |g.labels| ensures g.labels[g.pend[i]].Offset? {
      if IsName(g, g.pend[i]) {
        var r :| r in g.names && g.names[r] == g.pend[i];
        assert r in g.names.Keys;
      }
    }
  }

  /** Every rule that is referred to exists. */
  predicate RefsExist(rules: seq<Rule>) {
    forall r :: r in RulesRefs(rules, 0) ==> r < |rules|
  }

  lemma {:induction false} ItemRefsInside(e: Item, q: nat)
    ensures q in ItemRefs(e) <==> Inside(e.core, Ref(q))
    decreases e
  {
    match e.core
    case Chr(_) =>
    case Spc(_) =>
    case Cls(_) =>
    case Exp(body) => ItemsRefsInside(body, q);
    case Alt(branches) => ItemsRefsInside(branches, q);
    case Minus(nor, req) => ItemRefsInside(nor, q); ItemRefsInside(req, q);
    case Not(item) => ItemRefsInside(item, q);
    case Ref(_) =>
  }

  lemma {:induction false} ItemsRefsInside(b: Items, q: nat)
    ensures q in ItemsRefs(b) <==> InsideAny(b, Ref(q))
    decreases b
  {
    if b.Cons? {
      ItemRefsInside(b.head, q);
      ItemsRefsInside(b.tail, q);
    }
  }

  lemma {:induction false} RulesRefsInside(rules: seq<Rule>, k: nat, q: nat)
    requires k <= |rules|
    ensures q in RulesRefs(rules, k) <==> exists r :: k <= r < |rules| && InsideAny(rules[r].body, Ref(q))
    decreases |rules| - k
  {
    if k < |rules| {
      ItemsRefsInside(rules[k].body, q);
      RulesRefsInside(rules, k + 1, q);
    }
  }

  lemma RefsExistIff(rules: seq<Rule>)
    ensures RefsExist(rules) <==> forall r, q: nat :: 0 <= r < |rules| && InsideAny(rules[r].body, Ref(q)) ==> q < |rules|
  {
    hide InsideAny, RulesRefs;
    forall q: nat
      ensures q in RulesRefs(rules, 0) <==> exists r :: 0 <= r < |rules| && InsideAny(rules[r].body, Ref(q))
    {
      RulesRefsInside(rules, 0, q);
    }
  }

  /** Linking succeeds exactly if every rule that is referred to exists. */
  lemma ResolvedIff(rules: seq<Rule>)
    ensures Resolved(Compiled(rules)) <==> RefsExist(rules)
  {
    hide Resolved, UpTo, Clean, AllWait, RulesGen;
    var g := Compiled(rules);
    if Resolved(g) {
      forall r | r in RulesRefs(rules, 0) ensures r < |rules| { WaitingResolved(g, |rules|, RulesRefs(rules, 0), r); }
    }
    if RefsExist(rules) { ResolvedWaiting(g, |rules|, RulesRefs(rules, 0)); }
  }

  /** The linked program has every rule at its start. */
  lemma CompiledLinked(rules: seq<Rule>, code: seq<Ins>)
    requires Resolved(Compiled(rules)) && |code| == |Compiled(rules).code|
    requires forall i :: 0 <= i < |code| ==> code[i] == LinkedIns(Compiled(rules), i)
    ensures Linked(code, rules, StartsOf(rules))
    ensures forall r :: 0 <= r < |rules| ==> EntryAt(code, EntryOf(rules, r)) && StartsOf(rules)[r] == EntryOf(rules, r) + 4
  {
    hide Fits, UpTo, Clean, EntryAt, RuleAt, LinkedIns, Resolved, AllWait, Compiled, RulesRefs, RuleSize;
    ResolvedIff(rules);
    var g := Compiled(rules);
    var offs := seq(|g.labels|, l requires 0 <= l < |g.labels| => if g.labels[l].Offset? then g.labels[l].off else 0);
    var starts := seq(|rules|, r requires 0 <= r < |rules| => OffsetOfRule(g, r));
    FitsCompiled(rules, code, offs, starts);
    EmptyOk();
    CompiledIs(rules);
    RulesEmitted(code, offs, starts, EMPTY, rules, 0);
    forall r | 0 <= r < |rules| ensures starts[r] == StartsOf(rules)[r] { assert PlacedAt(code, starts, rules, r); }
    assert starts == StartsOf(rules);
    forall r | 0 <= r < |rules| ensures RuleAt(code, starts[r], r, rules[r], starts) && EntryAt(code, EntryOf(rules, r)) {
      assert PlacedAt(code, starts, rules, r);
    }
    forall r, r' | 0 <= r < r' < |rules| ensures starts[r] != starts[r'] {
      EntryOrder(rules, r, r');
    }
  }

  lemma CompiledIs(rules: seq<Rule>)
    ensures Compiled(rules) == RulesGen(EMPTY, rules, 0)
  {
  }

  lemma EmptyOk()
    ensures UpTo(EMPTY, 0) && Clean(EMPTY)
  {
  }

  function OffsetOfRule(g: Gen, r: nat): int {
    if r in g.names && g.names[r] < |g.labels| && g.labels[g.names[r]].Offset? then g.labels[g.names[r]].off else 0
  }

  lemma FitsCompiled(rules: seq<Rule>, code: seq<Ins>, offs: seq<int>, starts: seq<int>)
    requires RefsExist(rules)
    requires var g := Compiled(rules);
      Resolved(g) && |code| == |g.code| && (forall i :: 0 <= i < |code| ==> code[i] == LinkedIns(g, i))
      && |offs| == |g.labels| && (forall l :: 0 <= l < |offs| ==> offs[l] == if g.labels[l].Offset? then g.labels[l].off else 0)
      && |starts| == |rules| && forall r :: 0 <= r < |rules| ==> starts[r] == OffsetOfRule(g, r)
    ensures Fits(code, offs, starts, Compiled(rules), 0)
  {
    hide Compiled, RulesRefs, AllWait, Clean;
  }
}
