/** The records of a match form a forest: blocks that nest and follow one another like the matched spans. */
module RpaRecords {
  import opened RpaGrammar

  /** The block that opens at 0 and closes at `k`. */
  predicate BlockAt(recs: seq<Record>, k: int) {
    0 < k < |recs| && recs[0].mark.Start? && recs[k].mark.End? && recs[0].rule == recs[k].rule && recs[0].top == recs[k].top
    && recs[0].size == recs[k].size > 0
  }

  /** A sequence of blocks whose spans lie in order between `lo` and `hi`, and inside each block again. */
  ghost predicate Nested(recs: seq<Record>, lo: nat, hi: nat)
    decreases |recs|
  {
    if recs == [] then lo <= hi
    else
      exists k :: BlockAt(recs, k) && lo <= recs[0].top && recs[0].top + recs[0].size <= hi
        && Nested(recs[1..k], recs[0].top, recs[0].top + recs[0].size) && Nested(recs[k + 1..], recs[0].top + recs[0].size, hi)
  }

  lemma NestedNone(top: nat)
    ensures Nested([], top, top)
  {
  }

  lemma {:induction false} NestedOrder(recs: seq<Record>, lo: nat, hi: nat)
    requires Nested(recs, lo, hi)
    ensures lo <= hi
  {
  }

  /** A block inside and what follows it. */
  ghost predicate Splits(recs: seq<Record>, k: int, lo: nat, hi: nat) {
    BlockAt(recs, k) && lo <= recs[0].top && recs[0].top + recs[0].size <= hi
    && Nested(recs[1..k], recs[0].top, recs[0].top + recs[0].size) && Nested(recs[k + 1..], recs[0].top + recs[0].size, hi)
  }

  lemma NestedMake(recs: seq<Record>, k: int, lo: nat, hi: nat)
    requires Splits(recs, k, lo, hi)
    ensures Nested(recs, lo, hi)
  {
  }

  lemma NestedSplit(recs: seq<Record>, lo: nat, hi: nat) returns (k: int)
    requires Nested(recs, lo, hi) && recs != []
    ensures Splits(recs, k, lo, hi)
  {
    k :| BlockAt(recs, k) && lo <= recs[0].top && recs[0].top + recs[0].size <= hi
      && Nested(recs[1..k], recs[0].top, recs[0].top + recs[0].size) && Nested(recs[k + 1..], recs[0].top + recs[0].size, hi);
  }

  lemma {:induction false} NestedJoin(a: seq<Record>, b: seq<Record>, lo: nat, mid: nat, hi: nat)
    requires Nested(a, lo, mid) && Nested(b, mid, hi)
    ensures Nested(a + b, lo, hi)
    decreases |a|
  {
    NestedOrder(a, lo, mid);
    NestedOrder(b, mid, hi);
    hide *;
    if a == [] {
      assert a + b == b;
      NestedWiden(b, mid, hi, lo);
    } else {
      var k := NestedSplit(a, lo, mid);
      SplitsIn(a, k, lo, mid);
      NestedJoin(a[k + 1..], b, a[0].top + a[0].size, mid, hi);
      SplitsJoin(a, b, k, lo, mid, hi);
      NestedMake(a + b, k, lo, hi);
    }
  }

  lemma SplitsIn(a: seq<Record>, k: int, lo: nat, hi: nat)
    requires Splits(a, k, lo, hi)
    ensures 0 < k < |a| && Nested(a[k + 1..], a[0].top + a[0].size, hi)
  {
  }

  lemma SplitsJoin(a: seq<Record>, b: seq<Record>, k: int, lo: nat, mid: nat, hi: nat)
    requires Splits(a, k, lo, mid) && mid <= hi && Nested(a[k + 1..] + b, a[0].top + a[0].size, hi)
    ensures Splits(a + b, k, lo, hi)
  {
    hide Nested;
    assert (a + b)[1..k] == a[1..k] && (a + b)[k + 1..] == a[k + 1..] + b;
  }

  lemma {:induction false} NestedWiden(b: seq<Record>, mid: nat, hi: nat, lo: nat)
    requires Nested(b, mid, hi) && lo <= mid
    ensures Nested(b, lo, hi)
  {
    NestedOrder(b, mid, hi);
    if b != [] {
      hide Nested;
      var k := NestedSplit(b, mid, hi);
      NestedMake(b, k, lo, hi);
    }
  }

  /** A successful rule call wraps its records into one block. */
  lemma {:induction false} NestedRule(env: Env, r: nat, top: nat, o: Outcome)
    requires r < |env.rules| && Sane(env, top, o) && (o.Match? ==> Nested(o.recs, top, o.top))
    ensures var w := RuleOutcome(env, r, top, o); w.Match? ==> Nested(w.recs, top, w.top)
  {
    var w := RuleOutcome(env, r, top, o);
    if w.Match? && env.rules[r].emit && env.keep {
      var k := 1 + |o.recs|;
      assert w.recs[1..k] == o.recs && w.recs[k + 1..] == [];
      NestedMake(w.recs, k, top, w.top);
    }
  }

  lemma {:induction false} CoreNested(env: Env, f: nat, c: Core, top: nat)
    requires top <= |env.input|
    ensures var o := CoreOutcome(env, f, c, top); o.Match? ==> Nested(o.recs, top, o.top)
    decreases f, c, 0, 0
  {
    match c
    case Chr(_) =>
    case Spc(_) =>
    case Cls(_) =>
    case Exp(body) => ItemsNested(env, f, body, top);
    case Alt(branches) => AltNested(env, f, branches, top);
    case Minus(_, req) => ItemNested(env, f, req, top);
    case Not(_) =>
    case Ref(r) =>
      if f > 0 && r < |env.rules| {
        ItemsNested(env, f - 1, env.rules[r].body, top);
        NestedRule(env, r, top, ItemsOutcome(env, f - 1, env.rules[r].body, top));
      }
  }

  lemma {:induction false} LoopNested(env: Env, f: nat, c: Core, top: nat)
    requires top <= |env.input|
    ensures var o := Loop(env, f, c, top); o.Match? ==> Nested(o.recs, top, o.top)
    decreases f, c, 1, |env.input| - top
  {
    hide Nested, CoreOutcome;
    assert Nested([], top, top) by { NestedNone(top); }
    CoreNested(env, f, c, top);
    var once := CoreOutcome(env, f, c, top);
    if once.Match? && once.top > top {
      LoopNested(env, f, c, once.top);
      var rest := Loop(env, f, c, once.top);
      if rest.Match? { NestedJoin(once.recs, rest.recs, top, once.top, rest.top); }
    }
  }

  lemma {:induction false} ItemNested(env: Env, f: nat, e: Item, top: nat)
    requires top <= |env.input|
    ensures var o := ItemOutcome(env, f, e, top); o.Match? ==> Nested(o.recs, top, o.top)
    decreases f, e, 0, 0
  {
    if e.q.Nan? || e.q.Opt? { CoreNested(env, f, e.core, top); } else { LoopNested(env, f, e.core, top); }
  }

  lemma {:induction false} ItemsNested(env: Env, f: nat, b: Items, top: nat)
    requires top <= |env.input|
    ensures var o := ItemsOutcome(env, f, b, top); o.Match? ==> Nested(o.recs, top, o.top)
    decreases f, b, 0, 0
  {
    match b
    case Nil =>
    case Cons(head, tail) =>
      ItemNested(env, f, head, top);
      var o := ItemOutcome(env, f, head, top);
      if o.Match? {
        ItemsNested(env, f, tail, o.top);
        var rest := ItemsOutcome(env, f, tail, o.top);
        if rest.Match? { NestedJoin(o.recs, rest.recs, top, o.top, rest.top); }
      }
  }

  lemma {:induction false} AltNested(env: Env, f: nat, b: Items, top: nat)
    requires top <= |env.input|
    ensures var o := AltOutcome(env, f, b, top); o.Match? ==> Nested(o.recs, top, o.top)
    decreases f, b, 0, 0
  {
    match b
    case Nil =>
    case Cons(head, tail) =>
      ItemNested(env, f, head, top);
      var o := ItemOutcome(env, f, head, top);
      if !(o.Match? && o.top > top) { AltNested(env, f, tail, top); }
  }
}
