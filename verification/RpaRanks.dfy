/** Grammars without left recursion: matching needs only a bounded number of nested rule calls. */
module RpaRanks {
  import opened RpaGrammar

  /** The expression may match nothing. A rule call and an alternative never do. */
  predicate CoreNullable(c: Core)
    decreases c
  {
    match c
    case Exp(body) => ItemsNullable(body)
    case Minus(_, req) => ItemNullable(req)
    case _ => false
  }

  predicate ItemNullable(e: Item)
    decreases e
  {
    e.q.Opt? || e.q.Mop? || (e.q.Nan? && CoreNullable(e.core))
  }

  predicate ItemsNullable(b: Items)
    decreases b
  {
    b.Cons? ==> ItemNullable(b.head) && ItemsNullable(b.tail)
  }

  /** The rules that may be called before a symbol has been consumed. */
  function CoreHeads(c: Core): set<nat>
    decreases c
  {
    match c
    case Exp(body) => ItemsHeads(body)
    case Alt(branches) => AltHeads(branches)
    case Minus(nor, req) => CoreHeads(nor.core) + CoreHeads(req.core)
    case Not(item) => CoreHeads(item.core)
    case Ref(r) => {r}
    case _ => {}
  }

  function ItemsHeads(b: Items): set<nat>
    decreases b
  {
    match b
    case Nil => {}
    case Cons(head, tail) => CoreHeads(head.core) + if ItemNullable(head) then ItemsHeads(tail) else {}
  }

  function AltHeads(b: Items): set<nat>
    decreases b
  {
    match b
    case Nil => {}
    case Cons(head, tail) => CoreHeads(head.core) + AltHeads(tail)
  }

  predicate Below(heads: set<nat>, ranks: seq<nat>, k: nat) {
    forall r :: r in heads && r < |ranks| ==> ranks[r] < k
  }

  /** The grammar is not left recursive: before consuming a symbol a rule calls only rules of lower rank. */
  predicate Ranked(rules: seq<Rule>, ranks: seq<nat>, top: nat) {
    |ranks| == |rules| && forall r :: 0 <= r < |rules| ==> ranks[r] <= top && Below(ItemsHeads(rules[r].body), ranks, ranks[r])
  }

  lemma {:induction false} CoreAdvances(env: Env, f: nat, c: Core, top: nat)
    requires top <= |env.input| && !CoreNullable(c)
    ensures var o := CoreOutcome(env, f, c, top); o.Match? ==> o.top > top
    decreases c, 0
  {
    match c
    case Exp(body) => ItemsAdvance(env, f, body, top);
    case Minus(_, req) => ItemAdvances(env, f, req, top);
    case _ =>
  }

  lemma {:induction false} ItemAdvances(env: Env, f: nat, e: Item, top: nat)
    requires top <= |env.input| && !ItemNullable(e)
    ensures var o := ItemOutcome(env, f, e, top); o.Match? ==> o.top > top
    decreases e, 0
  {
    if e.q.Nan? { CoreAdvances(env, f, e.core, top); }
  }

  lemma {:induction false} ItemsAdvance(env: Env, f: nat, b: Items, top: nat)
    requires top <= |env.input| && !ItemsNullable(b)
    ensures var o := ItemsOutcome(env, f, b, top); o.Match? ==> o.top > top
    decreases b, 0
  {
    var o := ItemOutcome(env, f, b.head, top);
    if !ItemNullable(b.head) { ItemAdvances(env, f, b.head, top); }
    else if o.Match? { ItemsAdvance(env, f, b.tail, o.top); }
  }

  /** Calls that the symbols behind `top` may still need. */
  function Room(env: Env, most: nat, top: nat): nat
    decreases |env.input| - top
  {
    if top < |env.input| then most + 1 + Room(env, most, top + 1) else 0
  }

  lemma {:induction false} RoomLater(env: Env, most: nat, top: nat, later: nat)
    requires top < later <= |env.input|
    ensures Room(env, most, later) + most + 1 <= Room(env, most, top)
    decreases later - top
  {
    if top + 1 < later { RoomLater(env, most, top + 1, later); }
  }

  lemma BelowAll(rules: seq<Rule>, ranks: seq<nat>, most: nat, heads: set<nat>)
    requires Ranked(rules, ranks, most)
    ensures Below(heads, ranks, most + 1)
  {
  }

  lemma {:induction false} CoreDefined(env: Env, ranks: seq<nat>, most: nat, f: nat, c: Core, top: nat, k: nat)
    requires Ranked(env.rules, ranks, most) && top <= |env.input| && k <= most + 1 && f >= Room(env, most, top) + k
    requires Below(CoreHeads(c), ranks, k)
    ensures !CoreOutcome(env, f, c, top).NoFuel?
    decreases f, c, 0, 0
  {
    hide Room;
    match c
    case Chr(_) =>
    case Spc(_) =>
    case Cls(_) =>
    case Exp(body) => ItemsDefined(env, ranks, most, f, body, top, k);
    case Alt(branches) => AltDefined(env, ranks, most, f, branches, top, k);
    case Minus(nor, req) =>
      ItemDefined(env, ranks, most, f, nor, top, k);
      ItemDefined(env, ranks, most, f, req, top, k);
    case Not(item) => ItemDefined(env, ranks, most, f, item, top, k);
    case Ref(r) =>
      if r < |env.rules| {
        assert ranks[r] < k;
        ItemsDefined(env, ranks, most, f - 1, env.rules[r].body, top, ranks[r]);
      }
  }

  lemma {:induction false} LoopDefined(env: Env, ranks: seq<nat>, most: nat, f: nat, c: Core, top: nat, k: nat)
    requires Ranked(env.rules, ranks, most) && top <= |env.input| && k <= most + 1 && f >= Room(env, most, top) + k
    requires Below(CoreHeads(c), ranks, k)
    ensures !Loop(env, f, c, top).NoFuel?
    decreases f, c, 1, |env.input| - top
  {
    hide Room, Ranked, CoreHeads, CoreOutcome;
    CoreDefined(env, ranks, most, f, c, top, k);
    var once := CoreOutcome(env, f, c, top);
    if once.Match? && once.top > top {
      RoomLater(env, most, top, once.top);
      BelowAll(env.rules, ranks, most, CoreHeads(c));
      LoopDefined(env, ranks, most, f, c, once.top, most + 1);
    }
  }

  lemma {:induction false} ItemDefined(env: Env, ranks: seq<nat>, most: nat, f: nat, e: Item, top: nat, k: nat)
    requires Ranked(env.rules, ranks, most) && top <= |env.input| && k <= most + 1 && f >= Room(env, most, top) + k
    requires Below(CoreHeads(e.core), ranks, k)
    ensures !ItemOutcome(env, f, e, top).NoFuel?
    decreases f, e, 0, 0
  {
    hide Room, Ranked, CoreHeads;
    if e.q.Nan? || e.q.Opt? { CoreDefined(env, ranks, most, f, e.core, top, k); } else { LoopDefined(env, ranks, most, f, e.core, top, k); }
  }

  lemma {:induction false} ItemsDefined(env: Env, ranks: seq<nat>, most: nat, f: nat, b: Items, top: nat, k: nat)
    requires Ranked(env.rules, ranks, most) && top <= |env.input| && k <= most + 1 && f >= Room(env, most, top) + k
    requires Below(ItemsHeads(b), ranks, k)
    ensures !ItemsOutcome(env, f, b, top).NoFuel?
    decreases f, b, 0, 0
  {
    hide Room, Ranked, CoreHeads, ItemOutcome, ItemNullable;
    match b
    case Nil =>
    case Cons(head, tail) =>
      ItemDefined(env, ranks, most, f, head, top, k);
      var o := ItemOutcome(env, f, head, top);
      if o.Match? {
        if o.top > top {
          RoomLater(env, most, top, o.top);
          BelowAll(env.rules, ranks, most, ItemsHeads(tail));
          ItemsDefined(env, ranks, most, f, tail, o.top, most + 1);
        } else {
          if !ItemNullable(head) { ItemAdvances(env, f, head, top); }
          ItemsDefined(env, ranks, most, f, tail, top, k);
        }
      }
  }

  lemma {:induction false} AltDefined(env: Env, ranks: seq<nat>, most: nat, f: nat, b: Items, top: nat, k: nat)
    requires Ranked(env.rules, ranks, most) && top <= |env.input| && k <= most + 1 && f >= Room(env, most, top) + k
    requires Below(AltHeads(b), ranks, k)
    ensures !AltOutcome(env, f, b, top).NoFuel?
    decreases f, b, 0, 0
  {
    hide Room, Ranked, CoreHeads, ItemOutcome;
    match b
    case Nil =>
    case Cons(head, tail) =>
      ItemDefined(env, ranks, most, f, head, top, k);
      AltDefined(env, ranks, most, f, tail, top, k);
  }

  /** A bound on the nested calls of a parse. */
  function Calls(env: Env, most: nat): nat {
    Room(env, most, 0) + most
  }

  /** Without left recursion every rule call has an outcome. */
  lemma CallDefined(env: Env, ranks: seq<nat>, most: nat, r: nat, top: nat)
    requires Ranked(env.rules, ranks, most) && r < |env.rules| && top <= |env.input|
    ensures !CallOutcome(env, Room(env, most, top) + most, r, top).NoFuel?
  {
    ItemsDefined(env, ranks, most, Room(env, most, top) + most, env.rules[r].body, top, ranks[r]);
  }

  /** Begins with a symbol. */
  predicate Guarded(e: Item)
    decreases e
  {
    (e.q.Nan? || e.q.Mul?) &&
    match e.core
    case Chr(_) => true
    case Spc(_) => true
    case Cls(_) => true
    case Exp(body) => body.Cons? && Guarded(body.head)
    case Alt(branches) => AllGuarded(branches)
    case _ => false
  }

  predicate AllGuarded(b: Items)
    decreases b
  {
    b.Cons? ==> Guarded(b.head) && AllGuarded(b.tail)
  }

  lemma {:induction false} GuardedHeads(e: Item)
    requires Guarded(e)
    ensures CoreHeads(e.core) == {} && !ItemNullable(e)
    decreases e
  {
    match e.core
    case Chr(_) =>
    case Spc(_) =>
    case Cls(_) =>
    case Exp(body) =>
      GuardedHeads(body.head);
      assert !ItemsNullable(body) && ItemsHeads(body) == {};
    case Alt(branches) => AllGuardedHeads(branches);
  }

  lemma {:induction false} AllGuardedHeads(b: Items)
    requires AllGuarded(b)
    ensures AltHeads(b) == {}
    decreases b
  {
    if b.Cons? {
      GuardedHeads(b.head);
      AllGuardedHeads(b.tail);
    }
  }

  /** Rules that begin with a symbol are not left recursive, whatever they call behind it. */
  lemma GuardedRanked(rules: seq<Rule>)
    requires forall r :: 0 <= r < |rules| ==> rules[r].body.Cons? && Guarded(rules[r].body.head)
    ensures Ranked(rules, seq(|rules|, _ => 0), 0)
  {
    forall r | 0 <= r < |rules|
      ensures ItemsHeads(rules[r].body) == {}
    {
      GuardedHeads(rules[r].body.head);
    }
  }

  /** The number of calls in numbers. */
  lemma {:induction false} RoomIs(env: Env, most: nat, top: nat)
    requires top <= |env.input|
    ensures Room(env, most, top) == (|env.input| - top) * (most + 1)
    decreases |env.input| - top
  {
    if top < |env.input| { RoomIs(env, most, top + 1); }
  }

  /** The first thing the expression does, on any input, is to call a rule of `s`. */
  predicate CallsFirst(c: Core, s: set<nat>)
    decreases c
  {
    match c
    case Exp(body) => body.Cons? && CallsFirst(body.head.core, s)
    case Alt(branches) => branches.Cons? && CallsFirst(branches.head.core, s)
    case Minus(nor, _) => CallsFirst(nor.core, s)
    case Not(item) => CallsFirst(item.core, s)
    case Ref(r) => r in s
    case _ => false
  }

  /** Left recursion: rules that begin by calling one another, through any expressions and quantifiers. */
  predicate Circular(rules: seq<Rule>, s: set<nat>) {
    forall r :: r in s ==> r < |rules| && rules[r].body.Cons? && CallsFirst(rules[r].body.head.core, s)
  }

  lemma {:induction false} CoreUndefined(env: Env, s: set<nat>, f: nat, c: Core, top: nat)
    requires Circular(env.rules, s) && CallsFirst(c, s) && top <= |env.input|
    ensures CoreOutcome(env, f, c, top).NoFuel?
    decreases f, c, 0
  {
    match c
    case Exp(body) => ItemUndefined(env, s, f, body.head, top);
    case Alt(branches) => ItemUndefined(env, s, f, branches.head, top);
    case Minus(nor, _) => ItemUndefined(env, s, f, nor, top);
    case Not(item) => ItemUndefined(env, s, f, item, top);
    case Ref(r) => if f > 0 { ItemUndefined(env, s, f - 1, env.rules[r].body.head, top); }
    case _ =>
  }

  lemma {:induction false} ItemUndefined(env: Env, s: set<nat>, f: nat, e: Item, top: nat)
    requires Circular(env.rules, s) && CallsFirst(e.core, s) && top <= |env.input|
    ensures ItemOutcome(env, f, e, top).NoFuel?
    decreases f, e, 0
  {
    CoreUndefined(env, s, f, e.core, top);
  }

  /** A rule caught in left recursion never has an outcome. */
  lemma LeftRecursionUndefined(env: Env, s: set<nat>, f: nat, r: nat, top: nat)
    requires Circular(env.rules, s) && r in s && top <= |env.input|
    ensures CallOutcome(env, f, r, top).NoFuel?
  {
    ItemUndefined(env, s, f, env.rules[r].body.head, top);
  }
}
