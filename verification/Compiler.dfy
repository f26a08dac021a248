/** From a regular expression to NFA states (rex/rexcompiler.c). The compiler keeps a stack of fragments
    and the two ends of the counter it read last. */
module Compiler {
  import opened Arithmetic
  import opened Automata
  import opened Transitions
  import opened Database
  import opened Languages
  import opened Classes
  import opened Counters
  import opened Fragments
  import opened Expressions

  /** A state whose transitions are all open: one symbol and out. */
  lemma OneSymbolLang(s: seq<State>, p: nat)
    requires p < |s| && s[p].etrans == [] && OneWay(s[p].trans, DANGLING)
    ensures FragLang(s, p) == OneSymbol(s[p].trans)
  {
    forall w: Word
      ensures w in FragLang(s, p) <==> InOneSymbol(s[p].trans, w)
    {
      if n: nat :| PathN(s, p, w, DANGLING, n) {
        var r: int :| SymEdge(s, p, w[0], r) && PathN(s, r, w[1..], DANGLING, n - 1);
        NothingBehindOpenEnd(s, w[1..], DANGLING, n - 1);
      }
      if InOneSymbol(s[p].trans, w) {
        PathRefl(s, DANGLING);
        PathSym(s, p, w[0], DANGLING, [], DANGLING);
        assert w == [w[0]] + [];
      }
    }
  }

  /** What a factor leaves behind: its fragment on top of the stack and at the end of the states. */
  ghost predicate Pushed(s: seq<State>, stack: seq<Fragment>, t: seq<State>, after: seq<Fragment>, lang: Language) {
    && |after| == |stack| + 1 && after[..|stack|] == stack
    && Extends(s, t, |s|)
    && IsFragment(t, |s|, |t|, after[|stack|])
    && FragLang(t, after[|stack|].start) == lang
  }

  class RexCompiler {
    var stack: seq<Fragment>
    var fromcount: nat
    var tocount: Option<nat>

    constructor ()
      ensures stack == []
    {
      stack, fromcount, tocount := [], 0, Some(0);
    }

    method Push(frag: Fragment)
      modifies this`stack
      ensures stack == old(stack) + [frag]
    {
      stack := stack + [frag];
    }

    method Pop() returns (frag: Fragment)
      requires |stack| > 0
      modifies this`stack
      ensures stack == old(stack)[..|old(stack)| - 1] && frag == old(stack)[|old(stack)| - 1]
    {
      frag := stack[|stack| - 1];
      stack := stack[..|stack| - 1];
    }

    /** Adds an open range to the state under construction, the last one. */
    method AddRange(db: RexDb, low: Sym, high: Sym)
      requires |db.states| > 0
      modifies db`states
      ensures var p := |old(db.states)| - 1;
        db.states == old(db.states)[p := old(db.states)[p].(trans := Inserted(old(db.states)[p].trans, low, high, DANGLING))]
    {
      var at := db.AddTransition(|db.states| - 1, low, high, DANGLING);
    }

    /** Pushes the fragment of the last state. */
    method PushState(db: RexDb, ghost base: seq<State>)
      requires |db.states| == |base| + 1 && db.states[..|base|] == base
      requires db.states[|base|] == NewState(NoKind).(trans := db.states[|base|].trans) && OneWay(db.states[|base|].trans, DANGLING)
      modifies this`stack
      ensures Pushed(base, old(stack), db.states, stack, OneSymbol(db.states[|base|].trans))
    {
      var frag := Create(db, |db.states| - 1);
      Push(frag);
      OneSymbolLang(db.states, |base|);
      assert Confined(db.states[|base|], |base|, |db.states|);
    }

    /** One open transition per range, merged and, for a negative class, complemented. */
    method CharClass(db: RexDb, items: seq<(Sym, Sym)>, negative: bool)
      modifies db`states, this`stack
      ensures Pushed(old(db.states), old(stack), db.states, stack, OneSymbol(ClassRow(items, negative)))
    {
      hide Inserted;
      ghost var base := db.states;
      var srcstate := db.CreateState(NoKind);
      for i := 0 to |items|
        invariant |db.states| == srcstate + 1 && db.states[..srcstate] == base && stack == old(stack)
        invariant db.states[srcstate] == NewState(NoKind).(trans := RowOf(items[..i]))
      {
        AddRange(db, items[i].0, items[i].1);
        assert items[..i + 1][..i] == items[..i];
      }
      assert items[..|items|] == items;
      var row := Normalize(db.states[srcstate].trans);
      if negative {
        row := Negative(row, DANGLING);
        row := Normalize(row);
      }
      ClassRowOneWay(items, negative);
      db.states := db.states[srcstate := db.states[srcstate].(trans := row)];
      PushState(db, base);
    }

    method CharState(db: RexDb, c: Sym)
      modifies db`states, this`stack
      ensures Pushed(old(db.states), old(stack), db.states, stack, Lang(Char(c)))
    {
      hide Inserted;
      ghost var base := db.states;
      var srcstate := db.CreateState(NoKind);
      AddRange(db, c, c);
      InsertedOneWay([], c, c, DANGLING);
      PushState(db, base);
      CharLang(db.states[srcstate].trans, c);
    }

    method AnyCharState(db: RexDb)
      modifies db`states, this`stack
      ensures Pushed(old(db.states), old(stack), db.states, stack, Lang(AnyChar))
      ensures forall w: Word :: w in Lang(AnyChar) <==> |w| == 1 && w[0] != 10
    {
      hide Inserted;
      ghost var base := db.states;
      var srcstate := db.CreateState(NoKind);
      AddRange(db, 0, NEWLINE - 1);
      InsertedOneWay([], 0, NEWLINE - 1, DANGLING);
      ghost var row := db.states[srcstate].trans;
      AddRange(db, NEWLINE + 1, CHAR_MAX);
      InsertedOneWay(row, NEWLINE + 1, CHAR_MAX, DANGLING);
      PushState(db, base);
      AnyCharLang(db.states[srcstate].trans);
    }

    method CatTop(db: RexDb, ghost s: seq<State>, ghost st: seq<Fragment>, ghost mid: seq<State>, ghost st1: seq<Fragment>,
                  ghost a: Language, ghost b: Language)
      requires Pushed(s, st, mid, st1, a) && Pushed(mid, st1, db.states, stack, b)
      modifies db`states, this`stack
      ensures Pushed(s, st, db.states, stack, Concat(a, b))
    {
      ghost var t := db.states;
      var frag2 := Pop();
      var frag1 := Pop();
      FragmentKept(mid, t, |s|, |mid|, frag1);
      var frag := CatFragments(db, frag1, frag2, |s|, |mid|);
      Push(frag);
      ExtendsTwice(s, mid, t, |s|);
      ExtendsTwice(s, t, db.states, |s|);
    }

    method AltTop(db: RexDb, ghost s: seq<State>, ghost st: seq<Fragment>, ghost mid: seq<State>, ghost st1: seq<Fragment>,
                  ghost a: Language, ghost b: Language)
      requires Pushed(s, st, mid, st1, a) && Pushed(mid, st1, db.states, stack, b)
      modifies db`states, this`stack
      ensures Pushed(s, st, db.states, stack, a + b)
    {
      ghost var t := db.states;
      var frag2 := Pop();
      var frag1 := Pop();
      FragmentKept(mid, t, |s|, |mid|, frag1);
      var frag := AltFragments(db, frag1, frag2, |s|, |mid|);
      Push(frag);
      ExtendsTwice(s, mid, t, |s|);
      ExtendsTwice(s, t, db.states, |s|);
    }

    method OptTop(db: RexDb, ghost s: seq<State>, ghost st: seq<Fragment>, ghost lang: Language)
      requires Pushed(s, st, db.states, stack, lang)
      modifies db`states, this`stack
      ensures Pushed(s, st, db.states, stack, Maybe(lang))
    {
      ghost var t := db.states;
      var frag := Pop();
      frag := OptFragment(db, frag, |s|);
      Push(frag);
      ExtendsTwice(s, t, db.states, |s|);
    }

    method MopTop(db: RexDb, ghost s: seq<State>, ghost st: seq<Fragment>, ghost lang: Language)
      requires Pushed(s, st, db.states, stack, lang)
      modifies db`states, this`stack
      ensures Pushed(s, st, db.states, stack, Powers(lang, 0, None))
    {
      ghost var t := db.states;
      var frag := Pop();
      frag := MopFragment(db, frag, |s|);
      Push(frag);
      ExtendsTwice(s, t, db.states, |s|);
    }

    method MulTop(db: RexDb, ghost s: seq<State>, ghost st: seq<Fragment>, ghost lang: Language)
      requires Pushed(s, st, db.states, stack, lang)
      modifies db`states, this`stack
      ensures Pushed(s, st, db.states, stack, Powers(lang, 1, None))
    {
      ghost var t := db.states;
      var frag := Pop();
      frag := MulFragment(db, frag, |s|);
      Push(frag);
      ExtendsTwice(s, t, db.states, |s|);
    }

    /** The quantifier in braces, after its factor was compiled once and the counter read. */
    method Counter(db: RexDb, exp: Regex, nstates: nat, ghost s: seq<State>, ghost st: seq<Fragment>)
      requires !Refused(exp) && (tocount.Some? ==> fromcount <= tocount.value)
      requires nstates == |s| && Pushed(s, st, db.states, stack, CompiledLang(exp))
      modifies db`states, this
      ensures var c := CopiesOf(exp, old(fromcount), old(tocount));
        Pushed(s, st, db.states, stack, Powers(CompiledLang(exp), c.from, c.to))
      ensures Bounds(fromcount, tocount) ==
        if Repeats(old(fromcount), old(tocount)) then CountersAfter(exp, Bounds(old(fromcount), old(tocount)))
        else Bounds(old(fromcount), old(tocount))
      decreases exp, 2
    {
      hide Pushed, CompiledLang, Powers, Concat, Maybe, Power;
      ghost var lang := CompiledLang(exp);
      if fromcount == 0 && tocount == None {
        MopTop(db, s, st, lang);
        return;
      }
      if fromcount == 1 && tocount == None {
        MulTop(db, s, st, lang);
        return;
      }
      if fromcount == 0 && tocount == Some(0) {
        EmptyTop(db, nstates, s, st, lang);
        return;
      }
      PowersExact(lang, 1);
      PowerOne(lang);
      PowersUpToOne(lang);
      if fromcount == 0 {
        OptTop(db, s, st, lang);
      }
      Repeat(db, exp, s, st);
    }

    /** The loop that compiles the factor again for every further copy. It compares with the counter
        fields as compiling the factor leaves them. */
    method Repeat(db: RexDb, exp: Regex, ghost s: seq<State>, ghost st: seq<Fragment>)
      requires !Refused(exp)
      requires tocount.Some? || fromcount > 1
      requires tocount.Some? ==> fromcount <= tocount.value && tocount.value > 0
      requires Pushed(s, st, db.states, stack, Powers(CompiledLang(exp), if fromcount == 0 then 0 else 1, Some(1)))
      modifies db`states, this
      ensures var c := CopiesOf(exp, old(fromcount), old(tocount));
        Pushed(s, st, db.states, stack, Powers(CompiledLang(exp), c.from, c.to))
      ensures Bounds(fromcount, tocount) ==
        if Repeats(old(fromcount), old(tocount)) then CountersAfter(exp, Bounds(old(fromcount), old(tocount)))
        else Bounds(old(fromcount), old(tocount))
      decreases exp, 1
    {
      hide Pushed, CompiledLang, Powers, Concat, Maybe, Power, CountersAfter, Mandatory, Refused;
      ghost var lang := CompiledLang(exp);
      ghost var first, e := Bounds(fromcount, tocount), CountersAfter(exp, Bounds(fromcount, tocount));
      CountersSettle(exp, first);
      var count := 1;
      MandatoryStart(first.from, e.from);
      while tocount.None? || count < tocount.value
        invariant count >= 1
        invariant Bounds(fromcount, tocount) == if count == 1 then first else e
        invariant count > 1 ==> Repeats(first.from, first.to) && (e.to.Some? ==> count <= Max(e.to.value, 2))
        invariant Pushed(s, st, db.states, stack, Powers(lang, Mandatory(first.from, e.from, count), Some(count)))
        decreases if count == 1 then 1 else 0, (if e.to.Some? then e.to.value else e.from) - count
      {
        ghost var mid, st1, low := db.states, stack, Mandatory(first.from, e.from, count);
        MandatoryStep(first.from, e.from, count);
        var ok := Exp(db, exp);
        if tocount.None? && count >= fromcount {
          MopTop(db, mid, st1, lang);
          PowersThenStar(lang, low, count);
          CatTop(db, s, st, mid, st1, Powers(lang, low, Some(count)), Powers(lang, 0, None));
          MandatoryEnd(first.from, e.from, count);
          break;
        }
        if count >= fromcount {
          OptTop(db, mid, st1, lang);
          PowersThenMaybe(lang, low, count);
          CatTop(db, s, st, mid, st1, Powers(lang, low, Some(count)), Maybe(lang));
        } else {
          PowersThenOne(lang, low, count);
          CatTop(db, s, st, mid, st1, Powers(lang, low, Some(count)), lang);
        }
        count := count + 1;
      }
    }

    /** The counter {0,0}: the states of the factor are dropped again. */
    method EmptyTop(db: RexDb, nstates: nat, ghost s: seq<State>, ghost st: seq<Fragment>, ghost lang: Language)
      requires nstates == |s| && Pushed(s, st, db.states, stack, lang)
      modifies db`states, this`stack
      ensures Pushed(s, st, db.states, stack, Powers(lang, 0, Some(0)))
    {
      var frag := Pop();
      db.states := db.states[..nstates];
      var srcstate := db.CreateState(NoKind);
      db.AddTransitionE(srcstate, DANGLING);
      frag := Create(db, srcstate);
      Push(frag);
      EmptyLang(db.states, srcstate, lang);
      assert db.states[..nstates] == s;
    }

    /** Compiles one expression on top of the stack. A counter with its ends the wrong way round fails. */
    method Exp(db: RexDb, r: Regex) returns (ok: bool)
      modifies db`states, this
      ensures ok <==> !Refused(r)
      ensures ok ==> Pushed(old(db.states), old(stack), db.states, stack, CompiledLang(r))
      ensures ok ==> Bounds(fromcount, tocount) == CountersAfter(r, Bounds(old(fromcount), old(tocount)))
      ensures old(db.states) <= db.states && old(stack) <= stack
      decreases r, 0
    {
      Unfold(r);
      UnfoldRefused(r);
      hide Refused, Pushed, CompiledLang, CountersAfter, Lang, Powers, Concat, Maybe, Power;
      ghost var s, st := db.states, stack;
      var nstates := |db.states|;
      match r {
        case Char(c) =>
          CharState(db, c);
          ok := true;
        case AnyChar =>
          AnyCharState(db);
          ok := true;
        case Class(items, negative) =>
          CharClass(db, items, negative);
          ok := true;
        case Cat(left, right) =>
          ok := Exp(db, left);
          if !ok { return; }
          ghost var mid, st1 := db.states, stack;
          ok := Exp(db, right);
          if !ok { return; }
          CatTop(db, s, st, mid, st1, CompiledLang(left), CompiledLang(right));
        case Alt(left, right) =>
          ok := Exp(db, left);
          if !ok { return; }
          ghost var mid, st1 := db.states, stack;
          ok := Exp(db, right);
          if !ok { return; }
          AltTop(db, s, st, mid, st1, CompiledLang(left), CompiledLang(right));
        case Optional(exp) =>
          ok := Exp(db, exp);
          if !ok { return; }
          OptTop(db, s, st, CompiledLang(exp));
        case Star(exp) =>
          ok := Exp(db, exp);
          if !ok { return; }
          MopTop(db, s, st, CompiledLang(exp));
        case Plus(exp) =>
          ok := Exp(db, exp);
          if !ok { return; }
          MulTop(db, s, st, CompiledLang(exp));
        case Count(exp, from, to) =>
          ok := Exp(db, exp);
          if !ok { return; }
          fromcount, tocount := from, to;
          if to.Some? && from > to.value {
            return false;
          }
          Counter(db, exp, nstates, s, st);
      }
      PushedPrefix(s, st, db.states, stack, CompiledLang(r));
    }

    /** Compiles one whole expression: its ends lead to a new accepting state, no end stays open. On an
        error the states are as before and the stack is empty. */
    method Expression(db: RexDb, r: Regex, userdata: nat) returns (ret: Option<nat>, ghost e: Expr)
      requires stack == []
      modifies db`states, this
      ensures stack == [] && (ret.Some? <==> !Refused(r))
      ensures ret.None? ==> db.states == old(db.states)
      ensures ret.Some? ==>
        && old(db.states) <= db.states
        && IsExpression(db.states, e, CompiledLang(r), userdata)
        && e.lo == |old(db.states)| && e.accept + 1 == |db.states| && ret == Some(e.start)
    {
      ghost var s := db.states;
      var curlen := |db.states|;
      e := Expr(0, 0, 0);
      var ok := Exp(db, r);
      if !ok {
        db.states := db.states[..curlen];
        while |stack| > 0
          invariant db.states == s
        {
          var dropped := Pop();
        }
        return None, e;
      }
      ret, e := Finish(db, s, CompiledLang(r), userdata);
    }

    /** The ends of the one fragment on the stack lead to a new accepting state. */
    method Finish(db: RexDb, ghost s: seq<State>, ghost lang: Language, userdata: nat) returns (ret: Option<nat>, ghost e: Expr)
      requires Pushed(s, [], db.states, stack, lang)
      modifies db`states, this`stack
      ensures stack == [] && s <= db.states && IsExpression(db.states, e, lang, userdata)
      ensures e.lo == |s| && e.accept + 1 == |db.states| && ret == Some(e.start)
    {
      hide IsExpression, FragLang, Region, Redirected;
      ghost var t := db.states;
      var frag1 := Pop();
      var accept := db.CreateState(AcceptKind);
      db.states := db.states[accept := db.states[accept].(userdata := userdata)];
      var frag2 := Create(db, accept);
      ghost var u := db.states;
      AcceptReady(s, t, u, frag1, frag2);
      frag1 := CatFragments(db, frag1, frag2, |s|, |t|);
      FinishReady(s, t, u, db.states, frag1, userdata);
      e := Expr(|s|, frag1.start, accept);
      ghost var v := db.states;
      db.states := db.states[frag1.start := db.states[frag1.start].(kind := StartKind)];
      KindChanged(v, db.states, e, lang, userdata, frag1.start, StartKind);
      ret := Some(frag1.start);
    }

    /** Adds one expression to the union: a fresh start state for the first one, then one empty transition
        from the start state `prev` each. On an error nothing changes. */
    method AddExpression(db: RexDb, prev0: nat, r: Regex, userdata: nat, ghost before: Union)
        returns (ret: Option<nat>, ghost after: Union)
      requires stack == []
      requires db.states != [] ==> UnionOf(db.states, before)
      modifies db`states, this
      ensures stack == []
      ensures ret.Some? <==> !Refused(r) && (old(db.states) == [] || prev0 < |old(db.states)|)
      ensures ret.None? ==> db.states == old(db.states)
      ensures ret.Some? ==> ret.value == if old(db.states) == [] then 0 else prev0
      ensures ret == Some(0) ==> UnionOf(db.states, after)
      ensures ret == Some(0) ==>
        exists e :: after == (if old(db.states) == [] then Union([e], [CompiledLang(r)], [userdata])
                              else Added(before, e, CompiledLang(r), userdata))
      ensures ret.Some? && old(db.states) != [] ==>
        var s := old(db.states); |s| < |db.states| && forall p :: 0 <= p < |s| && p != prev0 ==> db.states[p] == s[p]
    {
      hide Refused, CompiledLang;
      ghost var s := db.states;
      after := before;
      var first := |db.states| == 0;
      var prev := prev0;
      if first {
        prev := db.CreateState(StartKind);
      } else if prev >= |db.states| {
        return None, after;
      }
      ghost var t := db.states;
      var cur, e := Expression(db, r, userdata);
      if cur.None? {
        if first {
          db.states := db.states[..prev];
        }
        return None, after;
      }
      ghost var u := db.states;
      db.AddTransitionE(prev, cur.value);
      db.states := db.states[cur.value := db.states[cur.value].(kind := NoKind)];
      db.states := db.states[prev := db.states[prev].(kind := StartKind)];
      ret := Some(prev);
      if prev == 0 {
        AddedExpression(t, u, db.states, e, CompiledLang(r), userdata);
        if first {
          after := Union([e], [CompiledLang(r)], [userdata]);
        } else {
          after := Added(before, e, CompiledLang(r), userdata);
          UnionAdd(s, db.states, before, e, CompiledLang(r), userdata);
        }
      }
    }
  }

  /** What adding the empty transition from state 0 leaves of the new expression. */
  lemma AddedExpression(t: seq<State>, u: seq<State>, v: seq<State>, e: Expr, lang: Language, data: nat)
    requires 0 < |t| <= |u| && t <= u && IsExpression(u, e, lang, data) && e.lo == |t| && e.accept + 1 == |u|
    requires t[0].kind == StartKind
    requires v == u[0 := u[0].(etrans := u[0].etrans + [e.start], kind := StartKind)][e.start := u[e.start].(kind := NoKind)]
    ensures IsExpression(v, e, lang, data)
    ensures v[0] == t[0].(etrans := t[0].etrans + [e.start]) && v[1..|t|] == t[1..]
  {
    var m := u[e.start := u[e.start].(kind := NoKind)];
    KindChanged(u, m, e, lang, data, e.start, NoKind);
    assert m[e.lo..e.accept + 1] == v[e.lo..e.accept + 1];
    ExpressionKept(m, v, e, lang, data);
    assert u[..|t|] == t;
    forall p | 1 <= p < |t|
      ensures v[p] == t[p]
    {
      assert u[p] == u[..|t|][p];
    }
  }

  /** After the ends are patched the expression is closed. */
  lemma FinishReady(s: seq<State>, t: seq<State>, u: seq<State>, v: seq<State>, f: Fragment, data: nat)
    requires Extends(s, t, |s|) && Region(t, |s|, |t|) && |s| <= f.start < |t|
    requires |u| == |t| + 1 && u[..|t|] == t && u[|t|] == NewState(AcceptKind).(userdata := data)
    requires Redirected(u, v, |s|, |t|, |t|) && Extends(u, v, |s|) && |v| == |u| && v[|t|..] == u[|t|..]
    requires IsFragment(v, |s|, |v|, f) && f.dangling == []
    ensures IsExpression(v, Expr(|s|, f.start, |t|), FragLang(t, f.start), data)
  {
    assert v[|t|] == v[|t|..][0] == u[|t|..][0] == u[|t|];
    forall p | 0 <= p < |t|
      ensures u[p] == t[p]
    {
    }
    SameRegionEdges(t, u, v, |s|, |t|);
    FinishedExpression(t, v, |s|, f.start, data);
  }

  lemma SameRegionEdges(t: seq<State>, u: seq<State>, v: seq<State>, lo: nat, hi: nat)
    requires lo <= hi == |t| <= |u| && (forall p :: 0 <= p < hi ==> u[p] == t[p]) && Redirected(u, v, lo, hi, hi)
    ensures Redirected(t, v, lo, hi, hi)
  {
    forall p, q: int | lo <= p < hi
      ensures EpsEdge(t, p, q) <==> EpsEdge(u, p, q)
    {
    }
    forall p, c: Sym, q: int | lo <= p < hi
      ensures SymEdge(t, p, c, q) <==> SymEdge(u, p, c, q)
    {
    }
  }

  lemma HasMember(dangling: seq<Slot>)
    ensures dangling == [] || exists slot :: slot in dangling
  {
    if dangling != [] {
      assert dangling[0] in dangling;
    }
  }

  lemma AcceptReady(s: seq<State>, t: seq<State>, u: seq<State>, f: Fragment, g: Fragment)
    requires Extends(s, t, |s|) && IsFragment(t, |s|, |t|, f)
    requires |u| == |t| + 1 && u[..|t|] == t && u[|t|].trans == [] && u[|t|].etrans == []
    requires g.start == |t| && forall slot :: slot in g.dangling <==> OpenSlot(u, slot) && slot.uid == |t|
    ensures IsFragment(u, |s|, |t|, f) && IsFragment(u, |t|, |u|, g) && g.dangling == []
  {
    assert t[|s|..|t|] == u[|s|..|t|];
    SameRegion(t, u, |s|, |t|);
    forall p | 0 <= p < |t|
      ensures u[p] == t[p]
    {
    }
    HasMember(g.dangling);
    assert Confined(u[|t|], |t|, |u|);
  }

  lemma PushedPrefix(s: seq<State>, st: seq<Fragment>, t: seq<State>, after: seq<Fragment>, lang: Language)
    requires Pushed(s, st, t, after, lang)
    ensures s <= t && st <= after
  {
    assert s[..|s|] == s;
  }

  lemma ExtendsTwice(s: seq<State>, t: seq<State>, u: seq<State>, lo: nat)
    requires Extends(s, t, lo) && (Extends(t, u, lo) || Extends(t, u, |t|))
    ensures Extends(s, u, lo)
  {
    assert lo <= |s| <= |t|;
    assert Extends(t, u, |t|) ==> u[..lo] == u[..|t|][..lo] == t[..lo];
  }

  lemma FragmentKept(s: seq<State>, t: seq<State>, lo: nat, hi: nat, f: Fragment)
    requires IsFragment(s, lo, hi, f) && hi == |s| && Extends(s, t, hi)
    ensures IsFragment(t, lo, hi, f) && FragLang(t, f.start) == FragLang(s, f.start)
  {
    assert t[lo..hi] == t[..hi][lo..] && s[lo..hi] == s[..hi][lo..];
    SameRegion(s, t, lo, hi);
    forall p | 0 <= p < hi
      ensures t[p] == s[p]
    {
      assert t[..hi][p] == s[..hi][p];
    }
  }

  lemma EmptyLang(s: seq<State>, p: nat, lang: Language)
    requires p < |s| && s[p].trans == [] && s[p].etrans == [DANGLING]
    ensures FragLang(s, p) == Powers(lang, 0, Some(0))
  {
    hide Powers;
    PowersExact(lang, 0);
    PowerZero(lang);
    forall w: Word
      ensures w in FragLang(s, p) <==> w in Empty()
    {
      ForkPath(s, p, DANGLING, DANGLING, w);
      OpenEndPath(s, w);
    }
  }

  lemma CharLang(row: seq<Transition>, c: Sym)
    requires forall e: Sym :: Covered(row, e) <==> e == c
    ensures OneSymbol(row) == Lang(Char(c))
  {
    forall w: Word
      ensures InOneSymbol(row, w) <==> w == [c]
    {
      assert |w| == 1 ==> w == [w[0]];
    }
  }

  lemma AnyCharLang(row: seq<Transition>)
    requires forall e: Sym :: Covered(row, e) <==> e != NEWLINE
    ensures OneSymbol(row) == Lang(AnyChar)
  {
    forall w: Word
      ensures InOneSymbol(row, w) <==> |w| == 1 && w[0] != NEWLINE
    {
    }
  }
}
