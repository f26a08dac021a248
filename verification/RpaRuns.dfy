/** Compiler correctness for the pattern analyzer: running the code of an expression computes the outcome
    of the reference matcher, returns behind the call, and leaves the stack as it was. */
module RpaRuns {
  import opened RpaGrammar
  import opened RpaCache
  import opened RvmCpu
  import opened RpaCode

  predicate RecsOk(m: Machine, s: Cpu) {
    m.env.keep ==> -1 <= s.rec < |s.records|
  }

  /** From `s` to `t` exactly `recs` have been added to the records up to R_REC, and no input was forgotten. */
  predicate Grown(m: Machine, s: Cpu, t: Cpu, recs: seq<Record>)
    ensures Grown(m, s, t, recs) ==> t.rec == s.rec + |recs| && s.high <= t.high
  {
    t.rec == s.rec + |recs| && s.high <= t.high
    && (m.env.keep ==> -1 <= s.rec < |s.records| && -1 <= t.rec < |t.records| && t.records[..t.rec + 1] == s.records[..s.rec + 1] + recs)
  }

  /** What a cached result must be: that of calling the rule. */
  ghost predicate Agrees(env: Env, r: nat, top: nat, ret: int, recs: seq<Record>)
    requires r < |env.rules| && top <= |env.input|
  {
    exists f: nat :: !CallOutcome(env, f, r, top).NoFuel? && ReturnOf(CallOutcome(env, f, r, top), top) == (ret, recs)
  }

  function ReturnOf(o: Outcome, top: nat): (int, seq<Record>) {
    if o.Match? then (o.top - top, o.recs) else (-1, [])
  }

  /** Every answer is the outcome of the call, which has moved no further than `high`. */
  ghost predicate CacheOk(env: Env, starts: seq<int>, c: Cache, high: int)
  {
    Valid(c) && |starts| == |env.rules| &&
    forall r: nat, top: nat :: r < |starts| && top <= |env.input| && starts[r] >= 0 && Find(c, top, starts[r]).Hit? ==>
      Agrees(env, r, top, Find(c, top, starts[r]).ret, Find(c, top, starts[r]).records)
      && (Find(c, top, starts[r]).ret > 0 ==> top + Find(c, top, starts[r]).ret <= high)
  }

  lemma CacheFurther(env: Env, starts: seq<int>, c: Cache, high: int, high': int)
    requires CacheOk(env, starts, c, high) && high <= high'
    ensures CacheOk(env, starts, c, high')
  {
    hide Agrees, Find;
  }

  /** The machine is in order: within the input, records and cache consistent. */
  ghost predicate Ready(m: Machine, starts: seq<int>, s: Cpu)
    ensures Ready(m, starts, s) ==> !s.abort && s.error == E_NONE && 0 <= s.top <= |m.env.input| && s.top <= s.high && Valid(s.cache) && CacheOk(m.env, starts, s.cache, s.high)
  {
    !s.abort && s.error == E_NONE && 0 <= s.top <= |m.env.input| && s.top <= s.high && RecsOk(m, s) && CacheOk(m.env, starts, s.cache, s.high)
  }

  /** R0, the status, R_TOP, R_REC and the records say `o`; the stack is as at entry. */
  ghost predicate After(m: Machine, starts: seq<int>, s: Cpu, t: Cpu, o: Outcome) {
    Ready(m, starts, t) && t.stack == s.stack &&
    match o
    case NoFuel => true
    case Fail => t.r0 == -1 && t.n && !t.z && t.top == s.top && Grown(m, s, t, [])
    case Match(p, recs) => t.r0 == p - s.top && !t.n && t.z == (p == s.top) && t.top == p && Grown(m, s, t, recs)
  }

  lemma GrownJoin(m: Machine, s: Cpu, t: Cpu, u: Cpu, a: seq<Record>, b: seq<Record>)
    requires Grown(m, s, t, a) && Grown(m, t, u, b)
    ensures Grown(m, s, u, a + b)
  {
  }

  /** Moving R_REC back forgets what was added. */
  lemma GrownBack(m: Machine, s: Cpu, t: Cpu, u: Cpu, a: seq<Record>)
    requires Grown(m, s, t, a) && u.rec == s.rec && u.records == t.records && u.high == t.high
    ensures Grown(m, s, u, [])
  {
    if m.env.keep {
      assert u.records[..u.rec + 1] == t.records[..t.rec + 1][..s.rec + 1];
    }
  }

  /** The machine stays in order where only the program counter, the stack and scratch registers change. */
  lemma ReadyKept(m: Machine, starts: seq<int>, s: Cpu, t: Cpu)
    requires Ready(m, starts, s) && t.rec == s.rec && t.records == s.records && t.cache == s.cache && t.top == s.top && t.high == s.high && !t.abort && t.error == E_NONE
    ensures Ready(m, starts, t) && Grown(m, s, t, [])
  {
    hide CacheOk;
  }

  /** Leaving a frame with the position and R_REC it saved. */
  lemma Failed(m: Machine, starts: seq<int>, s: Cpu, t: Cpu, u: Cpu, lost: seq<Record>)
    requires Ready(m, starts, s) && Ready(m, starts, t) && Grown(m, s, t, lost)
    requires u.rec == s.rec && u.records == t.records && u.cache == t.cache && u.high == t.high && u.top == s.top && u.stack == s.stack && !u.abort && u.error == E_NONE
    requires u.r0 == -1 && u.n && !u.z
    ensures After(m, starts, s, u, Fail)
  {
    hide CacheOk;
    GrownBack(m, s, t, u, lost);
  }

  /** Leaving a frame with what was matched. */
  lemma Succeeded(m: Machine, starts: seq<int>, s: Cpu, t: Cpu, u: Cpu, o: Outcome)
    requires Ready(m, starts, s) && Ready(m, starts, t) && o.Match? && Grown(m, s, t, o.recs) && t.top == o.top && Sane(m.env, s.top, o)
    requires u.rec == t.rec && u.records == t.records && u.cache == t.cache && u.high == t.high && u.top == t.top && u.stack == s.stack && !u.abort && u.error == E_NONE
    requires u.r0 == t.top - s.top && u.n == (t.top < s.top) && u.z == (t.top == s.top)
    ensures After(m, starts, s, u, o)
  {
    hide CacheOk;
  }

  lemma GrownFrom(m: Machine, s: Cpu, t: Cpu, u: Cpu, recs: seq<Record>)
    requires Grown(m, s, t, []) && Grown(m, t, u, recs)
    ensures Grown(m, s, u, recs)
  {
    GrownJoin(m, s, t, u, [], recs);
    assert [] + recs == recs;
  }

  /** What a caller learns from an outcome other than `NoFuel`. */
  lemma AfterFacts(m: Machine, starts: seq<int>, s: Cpu, t: Cpu, o: Outcome)
    requires After(m, starts, s, t, o) && !o.NoFuel? && 0 <= s.top && Sane(m.env, s.top, o)
    ensures Ready(m, starts, t) && t.stack == s.stack && t.top == (if o.Match? then o.top else s.top)
    ensures t.n == o.Fail? && t.z == (o.Match? && o.top == s.top) && Grown(m, s, t, if o.Match? then o.recs else [])
    ensures t.r0 == if o.Match? then o.top - s.top else -1
    ensures o.Match? ==> o.top >= s.top && (o.top == s.top ==> o.recs == [])
  {
  }

  lemma DoPop(m: Machine, s: Cpu, t: Cpu, r: Reg, base: seq<int>, v: int) returns (u: Cpu)
    requires Reaches(m, s, t) && !t.abort && Has(m.code, t.pc, POP(r)) && t.stack == base + [v]
    ensures Reaches(m, s, u) && u == Put(t, r, v).(pc := t.pc + 1, stack := base)
  {
    hide Reaches;
    u := Next(m, s, t);
    assert t.stack[..|t.stack| - 1] == base;
  }

  lemma DoPush(m: Machine, s: Cpu, t: Cpu, r: Reg) returns (u: Cpu)
    requires Reaches(m, s, t) && !t.abort && Has(m.code, t.pc, PUSH(r)) && |t.stack| + 1 < m.stacksize
    ensures Reaches(m, s, u) && u == t.(pc := t.pc + 1, stack := t.stack + [Get(t, r)])
  {
    hide Reaches;
    u := Next(m, s, t);
  }

  lemma DoSubs(m: Machine, s: Cpu, t: Cpu, d: Reg, a: Reg, b: Reg) returns (u: Cpu)
    requires Reaches(m, s, t) && !t.abort && Has(m.code, t.pc, SUBS(d, a, b))
    ensures Reaches(m, s, u) && u == Flags(Put(t, d, Get(t, a) - Get(t, b)), Get(t, a) - Get(t, b)).(pc := t.pc + 1)
  {
    hide Reaches;
    u := Next(m, s, t);
  }

  lemma DoMovi(m: Machine, s: Cpu, t: Cpu, d: Reg, v: int) returns (u: Cpu)
    requires Reaches(m, s, t) && !t.abort && Has(m.code, t.pc, MOVI(d, v))
    ensures Reaches(m, s, u) && u == Flags(Put(t, d, v), v).(pc := t.pc + 1)
  {
    hide Reaches;
    u := Next(m, s, t);
  }

  lemma DoMovs(m: Machine, s: Cpu, t: Cpu, d: Reg, r: Reg) returns (u: Cpu)
    requires Reaches(m, s, t) && !t.abort && Has(m.code, t.pc, MOVS(d, r))
    ensures Reaches(m, s, u) && u == Flags(Put(t, d, Get(t, r)), Get(t, r)).(pc := t.pc + 1)
  {
    hide Reaches;
    u := Next(m, s, t);
  }

  lemma DoMov(m: Machine, s: Cpu, t: Cpu, d: Reg, r: Reg) returns (u: Cpu)
    requires Reaches(m, s, t) && !t.abort && Has(m.code, t.pc, MOV(d, r))
    ensures Reaches(m, s, u) && u == Put(t, d, Get(t, r)).(pc := t.pc + 1)
  {
    hide Reaches;
    u := Next(m, s, t);
  }

  lemma DoBx(m: Machine, s: Cpu, t: Cpu) returns (u: Cpu)
    requires Reaches(m, s, t) && !t.abort && Has(m.code, t.pc, BX(LR))
    ensures Reaches(m, s, u) && u == t.(pc := t.lr + 1)
  {
    hide Reaches;
    u := Next(m, s, t);
  }

  lemma DoB(m: Machine, s: Cpu, t: Cpu, w: int) returns (u: Cpu)
    requires Reaches(m, s, t) && !t.abort && Has(m.code, t.pc, B(w))
    ensures Reaches(m, s, u) && u == t.(pc := t.pc + w)
  {
    hide Reaches;
    u := Next(m, s, t);
  }

  lemma DoBl(m: Machine, s: Cpu, t: Cpu, w: int) returns (u: Cpu)
    requires Reaches(m, s, t) && !t.abort && Has(m.code, t.pc, BL(w))
    ensures Reaches(m, s, u) && u == t.(pc := t.pc + w, lr := t.pc)
  {
    hide Reaches;
    u := Next(m, s, t);
  }

  lemma DoBles(m: Machine, s: Cpu, t: Cpu, w: int) returns (u: Cpu)
    requires Reaches(m, s, t) && !t.abort && Has(m.code, t.pc, BLES(w))
    ensures Reaches(m, s, u) && u == t.(pc := t.pc + if t.n then w else 1)
  {
    hide Reaches;
    u := Next(m, s, t);
  }

  lemma DoBgre(m: Machine, s: Cpu, t: Cpu, w: int) returns (u: Cpu)
    requires Reaches(m, s, t) && !t.abort && Has(m.code, t.pc, BGRE(w))
    ensures Reaches(m, s, u) && u == t.(pc := t.pc + if !t.n && !t.z then w else 1)
  {
    hide Reaches;
    u := Next(m, s, t);
  }

  lemma DoBeq(m: Machine, s: Cpu, t: Cpu, w: int) returns (u: Cpu)
    requires Reaches(m, s, t) && !t.abort && Has(m.code, t.pc, BEQ(w))
    ensures Reaches(m, s, u) && u == t.(pc := t.pc + if t.z then w else 1)
  {
    hide Reaches;
    u := Next(m, s, t);
  }

  lemma ExpDone(m: Machine, s: Cpu, t: Cpu, x: int, base: seq<int>, rec: int, top: int, l: int) returns (u: Cpu)
    requires Reaches(m, s, t) && !t.abort && t.pc == x && DoneAt(m.code, x) && t.stack == base + [rec, top, l]
    ensures Reaches(m, s, u)
    ensures u == t.(pc := l + 1, lr := l, r1 := top, r0 := t.top - top, z := t.top == top, n := t.top < top, stack := base)
  {
    hide Reaches, Step;
    u := DoPop(m, s, t, LR, base + [rec, top], l);
    u := DoPop(m, s, u, R1, base + [rec], top);
    u := DoPop(m, s, u, R0, base, rec);
    u := DoSubs(m, s, u, R0, RTOP, R1);
    u := DoBx(m, s, u);
  }

  lemma ExpFail(m: Machine, s: Cpu, t: Cpu, x: int, base: seq<int>, rec: int, top: int, l: int) returns (u: Cpu)
    requires Reaches(m, s, t) && !t.abort && t.pc == x && FailAt(m.code, x) && t.stack == base + [rec, top, l]
    ensures Reaches(m, s, u)
    ensures u == t.(pc := l + 1, lr := l, top := top, rec := rec, r0 := -1, z := false, n := true, stack := base)
  {
    hide Reaches, Step;
    u := DoPop(m, s, t, LR, base + [rec, top], l);
    u := DoPop(m, s, u, RTOP, base + [rec], top);
    u := DoPop(m, s, u, RREC, base, rec);
    u := DoMovi(m, s, u, R0, -1);
    u := DoBx(m, s, u);
  }

  lemma ExpHead(m: Machine, s: Cpu, t: Cpu, b: int) returns (u: Cpu)
    requires Reaches(m, s, t) && !t.abort && t.pc == b && HeadAt(m.code, b) && |t.stack| + 3 < m.stacksize
    ensures Reaches(m, s, u) && u == t.(pc := b + 3, stack := t.stack + [t.rec, t.top, t.lr])
  {
    hide Reaches, Step;
    u := DoPush(m, s, t, RREC);
    u := DoPush(m, s, u, RTOP);
    u := DoPush(m, s, u, LR);
    assert u.stack == t.stack + [t.rec, t.top, t.lr];
  }

  lemma AltHead(m: Machine, s: Cpu, t: Cpu, b: int) returns (u: Cpu)
    requires Reaches(m, s, t) && !t.abort && t.pc == b && AltHeadAt(m.code, b) && |t.stack| + 2 < m.stacksize
    ensures Reaches(m, s, u) && u == t.(pc := b + 2, stack := t.stack + [t.top, t.lr])
  {
    hide Reaches, Step;
    u := DoPush(m, s, t, RTOP);
    u := DoPush(m, s, u, LR);
    assert u.stack == t.stack + [t.top, t.lr];
  }

  lemma AltDone(m: Machine, s: Cpu, t: Cpu, x: int, base: seq<int>, top: int, l: int) returns (u: Cpu)
    requires Reaches(m, s, t) && !t.abort && t.pc == x && AltDoneAt(m.code, x) && t.stack == base + [top, l]
    ensures Reaches(m, s, u)
    ensures u == t.(pc := l + 1, lr := l, r1 := top, r0 := t.top - top, z := t.top == top, n := t.top < top, stack := base)
  {
    hide Reaches, Step;
    u := DoPop(m, s, t, LR, base + [top], l);
    u := DoPop(m, s, u, R1, base, top);
    u := DoSubs(m, s, u, R0, RTOP, R1);
    u := DoBx(m, s, u);
  }

  lemma AltFail(m: Machine, s: Cpu, t: Cpu, x: int, base: seq<int>, top: int, l: int) returns (u: Cpu)
    requires Reaches(m, s, t) && !t.abort && t.pc == x && AltFailAt(m.code, x) && t.stack == base + [top, l]
    ensures Reaches(m, s, u) && u == t.(pc := l + 1, lr := l, top := top, r0 := -1, z := false, n := true, stack := base)
  {
    hide Reaches, Step;
    u := DoPop(m, s, t, LR, base + [top], l);
    u := DoPop(m, s, u, RTOP, base, top);
    u := DoMovi(m, s, u, R0, -1);
    u := DoBx(m, s, u);
  }

  /** Calling the subroutine of an expression. */
  lemma {:induction false} CallRuns(m: Machine, starts: seq<int>, f: nat, c: Core, s: Cpu, t: Cpu, sub: int) returns (u: Cpu)
    requires Linked(m.code, m.env.rules, starts) && SubAt(m.code, sub, c, starts) && Has(m.code, t.pc, BL(sub - t.pc))
    requires Reaches(m, s, t) && Ready(m, starts, t) && !CoreOutcome(m.env, f, c, t.top).NoFuel?
    requires |t.stack| + SubNeed(m.env.rules, f, c) < m.stacksize
    ensures Reaches(m, s, u) && u.pc == t.pc + 1 && After(m, starts, t, u, CoreOutcome(m.env, f, c, t.top))
    decreases f, c, 1, 0
  {
    hide Reaches, Step, CoreOutcome, SubAt, CacheOk, SubNeed, Linked;
    u := DoBl(m, s, t, sub - t.pc);
    assert Ready(m, starts, u);
    var v := u;
    u := SubRuns(m, starts, f, c, s, v);
  }

  lemma {:induction false} RepeatRuns(m: Machine, starts: seq<int>, f: nat, c: Core, s: Cpu, t: Cpu, a: int, sub: int) returns (u: Cpu)
    requires Linked(m.code, m.env.rules, starts) && SubAt(m.code, sub, c, starts) && RepeatAt(m.code, a, sub) && t.pc == a + 1
    requires Reaches(m, s, t) && Ready(m, starts, t) && !Loop(m.env, f, c, t.top).NoFuel?
    requires |t.stack| + SubNeed(m.env.rules, f, c) < m.stacksize
    ensures Reaches(m, s, u) && u.pc == a + 4 && Ready(m, starts, u) && u.stack == t.stack
    ensures u.top == Loop(m.env, f, c, t.top).top && Grown(m, t, u, Loop(m.env, f, c, t.top).recs)
    decreases f, c, 2, |m.env.input| - t.top
  {
    hide Reaches, Step, CoreOutcome, SubAt, CacheOk, SubNeed, Linked;
    var once := CoreOutcome(m.env, f, c, t.top);
    u := CallRuns(m, starts, f, c, s, t, sub);
    u := DoMovs(m, s, u, R0, R0);
    u := DoBgre(m, s, u, -2);
    assert Ready(m, starts, u);
    if once.Match? && once.top > t.top {
      var v := u;
      u := RepeatRuns(m, starts, f, c, s, v, a, sub);
      assert Grown(m, t, v, once.recs);
      GrownJoin(m, t, v, u, once.recs, Loop(m.env, f, c, v.top).recs);
    }
  }

  /** An optional call has returned. */
  lemma OptRuns(m: Machine, starts: seq<int>, o: Outcome, s: Cpu, t: Cpu, v: Cpu) returns (u: Cpu)
    requires Has(m.code, v.pc, MOVS(R0, R0)) && Has(m.code, v.pc + 1, BGRE(2)) && Has(m.code, v.pc + 2, MOVI(R0, 0))
    requires Reaches(m, s, v) && Ready(m, starts, t) && After(m, starts, t, v, o) && !o.NoFuel? && Sane(m.env, t.top, o)
    ensures Reaches(m, s, u) && u.pc == v.pc + 3 && After(m, starts, t, u, if o.Fail? then Match(t.top, []) else o)
  {
    hide Reaches, Step, CacheOk;
    u := DoMovs(m, s, v, R0, R0);
    u := DoBgre(m, s, u, 2);
    if u.pc == v.pc + 2 { u := DoMovi(m, s, u, R0, 0); }
  }

  lemma {:induction false} RefRuns(m: Machine, starts: seq<int>, f: nat, c: Core, q: Quant, s: Cpu, t: Cpu, sub: int) returns (u: Cpu)
    requires Linked(m.code, m.env.rules, starts) && SubAt(m.code, sub, c, starts) && RefAt(m.code, t.pc, q, sub)
    requires Reaches(m, s, t) && Ready(m, starts, t) && !ItemOutcome(m.env, f, Item(c, q), t.top).NoFuel?
    requires |t.stack| + ItemNeed(m.env.rules, f, Item(c, q)) < m.stacksize
    ensures Reaches(m, s, u) && u.pc == t.pc + RefSize(q) && After(m, starts, t, u, ItemOutcome(m.env, f, Item(c, q), t.top))
    decreases f, c, 4, 0
  {
    hide Reaches, Step, CoreOutcome, Loop, SubAt, SubNeed, Linked, Ready, After, Grown;
    match q
    case Nan =>
      u := CallRuns(m, starts, f, c, s, t, sub);
    case Opt =>
      var v := CallRuns(m, starts, f, c, s, t, sub);
      u := OptRuns(m, starts, CoreOutcome(m.env, f, c, t.top), s, t, v);
    case _ => u := ManyRuns(m, starts, f, c, q, Loop(m.env, f, c, t.top), s, t, sub);
  }

  lemma {:induction false} ManyRuns(m: Machine, starts: seq<int>, f: nat, c: Core, q: Quant, o: Outcome, s: Cpu, t: Cpu, sub: int) returns (u: Cpu)
    requires (q.Mul? || q.Mop?) && 0 <= t.top <= |m.env.input| && o == Loop(m.env, f, c, t.top) && o.Match?
    requires Linked(m.code, m.env.rules, starts) && SubAt(m.code, sub, c, starts)
    requires RepeatAt(m.code, t.pc, sub) && Has(m.code, t.pc + 7, MOVI(R0, if q.Mul? then -1 else 0))
    requires Reaches(m, s, t) && Ready(m, starts, t) && |t.stack| + SubNeed(m.env.rules, f, c) + 1 < m.stacksize
    ensures Reaches(m, s, u) && u.pc == t.pc + 8 && After(m, starts, t, u, if q.Mul? && o.top == t.top then Fail else o)
    decreases f, c, 3, 0
  {
    hide Reaches, Step, CoreOutcome, Loop, SubAt, CacheOk, SubNeed, Linked, RecsOk, Grown, After, Ready;
    var v := DoPush(m, s, t, RTOP);
    ReadyKept(m, starts, t, v);
    var w := RepeatRuns(m, starts, f, c, s, v, t.pc, sub);
    GrownFrom(m, t, v, w, o.recs);
    u := DoPop(m, s, w, R0, t.stack, t.top);
    u := DoSubs(m, s, u, R0, RTOP, R0);
    u := DoBgre(m, s, u, 2);
    if u.pc == t.pc + 7 {
      u := DoMovi(m, s, u, R0, if q.Mul? then -1 else 0);
    }
    if q.Mul? && o.top == t.top {
      SameTop(m, t, w, o);
      Failed(m, starts, t, w, u, []);
    } else {
      Succeeded(m, starts, t, w, u, o);
    }
  }

  lemma SameTop(m: Machine, s: Cpu, t: Cpu, o: Outcome)
    requires o.Match? && Sane(m.env, o.top, o) && Grown(m, s, t, o.recs)
    ensures t.rec == s.rec && Grown(m, s, t, [])
  {
  }

  lemma {:induction false} ItemRuns(m: Machine, starts: seq<int>, f: nat, e: Item, s: Cpu, t: Cpu) returns (u: Cpu)
    requires Linked(m.code, m.env.rules, starts) && ItemAt(m.code, t.pc, e, starts)
    requires Reaches(m, s, t) && Ready(m, starts, t) && !ItemOutcome(m.env, f, e, t.top).NoFuel?
    requires |t.stack| + ItemNeed(m.env.rules, f, e) < m.stacksize
    ensures Reaches(m, s, u) && u.pc == t.pc + ItemSize(e) && After(m, starts, t, u, ItemOutcome(m.env, f, e, t.top))
    decreases f, e, 0, 0
  {
    match e.core
    case Chr(wc) => u := MatchRuns(m, starts, f, e, TChr(wc), s, t);
    case Spc(wc) => u := MatchRuns(m, starts, f, e, TSpc(wc), s, t);
    case Ref(r) =>
      hide Reaches, Step, ItemOutcome, CacheOk, Linked, ItemNeed;
      u := RefRuns(m, starts, f, e.core, e.q, s, t, starts[r]);
    case _ => u := BlockRuns(m, starts, f, e, s, t);
  }

  lemma {:induction false} BlockRuns(m: Machine, starts: seq<int>, f: nat, e: Item, s: Cpu, t: Cpu) returns (u: Cpu)
    requires !e.core.Chr? && !e.core.Spc? && !e.core.Ref?
    requires Linked(m.code, m.env.rules, starts) && ItemAt(m.code, t.pc, e, starts)
    requires Reaches(m, s, t) && Ready(m, starts, t) && !ItemOutcome(m.env, f, e, t.top).NoFuel?
    requires |t.stack| + ItemNeed(m.env.rules, f, e) < m.stacksize
    ensures Reaches(m, s, u) && u.pc == t.pc + ItemSize(e) && After(m, starts, t, u, ItemOutcome(m.env, f, e, t.top))
    decreases f, e.core, 5, 0
  {
    hide Reaches, Step, ItemOutcome, CacheOk, Linked, ItemNeed, RecsOk, Grown, After, SubAt, SubSize, RefAt;
    var v := DoB(m, s, t, 1 + SubSize(e.core));
    ReadyKept(m, starts, t, v);
    u := RefRuns(m, starts, f, e.core, e.q, s, v, t.pc + 1);
    AfterFrom(m, starts, t, v, u, ItemOutcome(m.env, f, e, t.top));
  }

  lemma AfterFrom(m: Machine, starts: seq<int>, s: Cpu, t: Cpu, u: Cpu, o: Outcome)
    requires Grown(m, s, t, []) && t.top == s.top && t.stack == s.stack && After(m, starts, t, u, o) && !o.NoFuel?
    ensures After(m, starts, s, u, o)
  {
    hide CacheOk;
    GrownFrom(m, s, t, u, if o.Match? then o.recs else []);
  }

  /** The match instructions do their own repetition. */
  lemma {:induction false} CountIsLoop(env: Env, f: nat, c: Core, t: Test, top: nat)
    requires top <= |env.input| && ((c.Chr? && t == TChr(c.c)) || (c.Spc? && t == TSpc(c.c)))
    ensures Loop(env, f, c, top) == Match(top + Count(env, t, top), [])
    decreases |env.input| - top
  {
    if TestAt(env, t, top) { CountIsLoop(env, f, c, t, top + 1); }
  }

  lemma MatchRuns(m: Machine, starts: seq<int>, f: nat, e: Item, k: Test, s: Cpu, t: Cpu) returns (u: Cpu)
    requires Has(m.code, t.pc, MATCH(k, e.q)) && ((e.core.Chr? && k == TChr(e.core.c)) || (e.core.Spc? && k == TSpc(e.core.c)))
    requires Reaches(m, s, t) && Ready(m, starts, t)
    ensures Reaches(m, s, u) && u.pc == t.pc + 1 && After(m, starts, t, u, ItemOutcome(m.env, f, e, t.top))
  {
    hide Reaches, CacheOk;
    CountIsLoop(m.env, f, e.core, k, t.top);
    u := Next(m, s, t);
    CacheFurther(m.env, starts, t.cache, t.high, u.high);
  }

  lemma {:induction false} BodyRuns(m: Machine, starts: seq<int>, f: nat, b: Items, s: Cpu, t: Cpu, end: int) returns (u: Cpu, lost: seq<Record>)
    requires Linked(m.code, m.env.rules, starts) && BodyAt(m.code, t.pc, b, end, starts)
    requires Reaches(m, s, t) && Ready(m, starts, t) && !ItemsOutcome(m.env, f, b, t.top).NoFuel?
    requires |t.stack| + ItemsNeed(m.env.rules, f, b) < m.stacksize
    ensures Reaches(m, s, u) && Ready(m, starts, u) && u.stack == t.stack
    ensures var o := ItemsOutcome(m.env, f, b, t.top);
      if o.Match? then u.pc == t.pc + ItemsSize(b) && u.top == o.top && Grown(m, t, u, o.recs)
      else u.pc == end && Grown(m, t, u, lost)
    decreases f, b, 0, 0
  {
    hide Reaches, Step, ItemOutcome, ItemAt, ItemNeed, Linked, ItemSize, Ready, After, Grown, Has;
    lost := [];
    match b
    case Nil =>
      u := t;
      GrownNone(m, starts, t);
    case Cons(head, tail) =>
      var o := ItemOutcome(m.env, f, head, t.top);
      var v := ItemRuns(m, starts, f, head, s, t);
      AfterFacts(m, starts, t, v, o);
      var w := DoBles(m, s, v, end - v.pc);
      ReadyKept(m, starts, v, w);
      GrownOn(m, t, v, w, if o.Match? then o.recs else []);
      u := w;
      if o.Match? {
        u, lost := BodyRuns(m, starts, f, tail, s, w, end);
        var rest := ItemsOutcome(m.env, f, tail, w.top);
        GrownJoin(m, t, w, u, o.recs, if rest.Match? then rest.recs else lost);
        lost := o.recs + lost;
      }
  }

  lemma GrownNone(m: Machine, starts: seq<int>, t: Cpu)
    requires Ready(m, starts, t)
    ensures Grown(m, t, t, [])
  {
    hide CacheOk;
  }

  lemma {:induction false} BranchesRun(m: Machine, starts: seq<int>, f: nat, b: Items, s: Cpu, t: Cpu, end: int) returns (u: Cpu)
    requires Linked(m.code, m.env.rules, starts) && BranchesAt(m.code, t.pc, b, end, starts)
    requires Reaches(m, s, t) && Ready(m, starts, t) && !AltOutcome(m.env, f, b, t.top).NoFuel?
    requires |t.stack| + ItemsNeed(m.env.rules, f, b) < m.stacksize
    ensures Reaches(m, s, u) && Ready(m, starts, u) && u.stack == t.stack
    ensures var o := AltOutcome(m.env, f, b, t.top);
      if o.Match? then u.pc == end && u.top == o.top && Grown(m, t, u, o.recs)
      else u.pc == t.pc + ItemsSize(b) && u.top == t.top && Grown(m, t, u, [])
    decreases f, b, 0, 0
  {
    hide Reaches, Step, ItemOutcome, ItemAt, ItemNeed, Linked, ItemSize, Ready, After, Grown, Has;
    match b
    case Nil =>
      u := t;
      GrownNone(m, starts, t);
    case Cons(head, tail) =>
      var o := ItemOutcome(m.env, f, head, t.top);
      var v := ItemRuns(m, starts, f, head, s, t);
      AfterFacts(m, starts, t, v, o);
      var w := DoBgre(m, s, v, end - v.pc);
      ReadyKept(m, starts, v, w);
      GrownOn(m, t, v, w, if o.Match? then o.recs else []);
      u := w;
      if !(o.Match? && o.top > t.top) {
        u := BranchesRun(m, starts, f, tail, s, w, end);
        var rest := AltOutcome(m.env, f, tail, w.top);
        GrownFrom(m, t, w, u, if rest.Match? then rest.recs else []);
      }
  }

  lemma {:induction false} ExpRuns(m: Machine, starts: seq<int>, f: nat, body: Items, s: Cpu, t: Cpu) returns (u: Cpu)
    requires 0 <= t.top <= |m.env.input| && !ItemsOutcome(m.env, f, body, t.top).NoFuel?
    requires Linked(m.code, m.env.rules, starts) && Reaches(m, s, t) && Ready(m, starts, t)
    requires |t.stack| + 3 + ItemsNeed(m.env.rules, f, body) < m.stacksize
    requires var x := t.pc + 3 + ItemsSize(body);
      HeadAt(m.code, t.pc) && BodyAt(m.code, t.pc + 3, body, x + 5, starts) && DoneAt(m.code, x) && FailAt(m.code, x + 5)
    ensures Reaches(m, s, u) && u.pc == t.lr + 1 && After(m, starts, t, u, ItemsOutcome(m.env, f, body, t.top))
    decreases f, body, 1, 0
  {
    hide *;
    var x := t.pc + 3 + ItemsSize(body);
    var o := ItemsOutcome(m.env, f, body, t.top);
    var h := ExpHead(m, s, t, t.pc);
    ReadyKept(m, starts, t, h);
    var v, lost := BodyRuns(m, starts, f, body, s, h, x + 5);
    GrownFrom(m, t, h, v, if o.Match? then o.recs else lost);
    if o.Match? {
      u := ExpDone(m, s, v, x, t.stack, t.rec, t.top, t.lr);
      Succeeded(m, starts, t, v, u, o);
    } else {
      u := ExpFail(m, s, v, x + 5, t.stack, t.rec, t.top, t.lr);
      Failed(m, starts, t, v, u, lost);
    }
  }

  lemma {:induction false} AltRuns(m: Machine, starts: seq<int>, f: nat, b: Items, s: Cpu, t: Cpu) returns (u: Cpu)
    requires 0 <= t.top <= |m.env.input| && !AltOutcome(m.env, f, b, t.top).NoFuel?
    requires Linked(m.code, m.env.rules, starts) && Reaches(m, s, t) && Ready(m, starts, t)
    requires |t.stack| + 2 + ItemsNeed(m.env.rules, f, b) < m.stacksize
    requires var x := t.pc + 2 + ItemsSize(b);
      AltHeadAt(m.code, t.pc) && BranchesAt(m.code, t.pc + 2, b, x + 4, starts) && AltFailAt(m.code, x) && AltDoneAt(m.code, x + 4)
    ensures Reaches(m, s, u) && u.pc == t.lr + 1 && After(m, starts, t, u, AltOutcome(m.env, f, b, t.top))
    decreases f, b, 1, 0
  {
    hide *;
    var x := t.pc + 2 + ItemsSize(b);
    var o := AltOutcome(m.env, f, b, t.top);
    var h := AltHead(m, s, t, t.pc);
    ReadyKept(m, starts, t, h);
    var v := BranchesRun(m, starts, f, b, s, h, x + 4);
    GrownFrom(m, t, h, v, if o.Match? then o.recs else []);
    if o.Match? {
      u := AltDone(m, s, v, x + 4, t.stack, t.top, t.lr);
      Succeeded(m, starts, t, v, u, o);
    } else {
      u := AltFail(m, s, v, x, t.stack, t.top, t.lr);
      Failed(m, starts, t, v, u, []);
    }
  }

  lemma MemberInside(env: Env, top: nat, k: Member)
    requires MemberAt(env, top, k)
    ensures top < |env.input|
  {
  }

  predicate SomeMember(env: Env, top: nat, ms: seq<Member>, k: nat) {
    exists i :: k <= i < |ms| && MemberAt(env, top, ms[i])
  }

  lemma MemberFirst(env: Env, top: nat, ms: seq<Member>, k: nat)
    requires k < |ms|
    ensures SomeMember(env, top, ms, k) <==> MemberAt(env, top, ms[k]) || SomeMember(env, top, ms, k + 1)
  {
    hide MemberAt;
  }

  lemma MemberNone(env: Env, top: nat, ms: seq<Member>)
    ensures !SomeMember(env, top, ms, |ms|)
    ensures SomeMember(env, top, ms, 0) <==> exists m :: m in ms && MemberAt(env, top, m)
  {
    hide MemberAt;
  }

  /** Running the members of a class from member `k` on. */
  lemma {:induction false} MembersRun(m: Machine, starts: seq<int>, ms: seq<Member>, k: nat, a: int, s: Cpu, t: Cpu, end: int) returns (u: Cpu)
    requires MembersAt(m.code, a, ms, end) && k <= |ms| && t.pc == a + 2 * k && Reaches(m, s, t) && Ready(m, starts, t)
    ensures Reaches(m, s, u) && Ready(m, starts, u) && u.stack == t.stack && u.rec == t.rec && u.records == t.records && u.lr == t.lr && t.high <= u.high
    ensures if SomeMember(m.env, t.top, ms, k) then u.pc == end && u.top == t.top + 1
      else u.pc == a + 2 * |ms| && u.top == t.top
    decreases |ms| - k
  {
    hide Reaches, CacheOk, Step, MemberAt, SomeMember;
    MemberNone(m.env, t.top, ms);
    if k == |ms| { u := t; }
    else {
      assert MemberAtCode(m.code, a + 2 * k, ms[k], end);
      MemberFirst(m.env, t.top, ms, k);
      var v := MemberRuns(m, s, t, ms[k]);
      CacheFurther(m.env, starts, t.cache, t.high, v.high);
      if MemberAt(m.env, t.top, ms[k]) { MemberInside(m.env, t.top, ms[k]); }
      u := DoBgre(m, s, v, end - v.pc);
      if !MemberAt(m.env, t.top, ms[k]) { u := MembersRun(m, starts, ms, k + 1, a, s, u, end); }
    }
  }

  lemma MemberRuns(m: Machine, s: Cpu, t: Cpu, k: Member) returns (u: Cpu)
    requires Has(m.code, t.pc, MATCH(MemberTest(k), Nan)) && Reaches(m, s, t) && !t.abort && 0 <= t.top <= |m.env.input| && t.top <= t.high
    ensures Reaches(m, s, u)
    ensures var hit := MemberAt(m.env, t.top, k);
      var top := if hit then t.top + 1 else t.top;
      u == t.(pc := t.pc + 1, top := top, high := Further(t.high, top), r0 := if hit then 1 else -1, n := !hit, z := false)
  {
    hide Reaches;
    u := Next(m, s, t);
  }

  lemma {:induction false} ClsRuns(m: Machine, starts: seq<int>, f: nat, c: Core, s: Cpu, t: Cpu) returns (u: Cpu)
    requires c.Cls?
    requires Linked(m.code, m.env.rules, starts) && SubAt(m.code, t.pc, c, starts)
    requires Reaches(m, s, t) && Ready(m, starts, t) && !CoreOutcome(m.env, f, c, t.top).NoFuel?
    requires |t.stack| + SubNeed(m.env.rules, f, c) < m.stacksize
    ensures Reaches(m, s, u) && u.pc == t.lr + 1 && After(m, starts, t, u, CoreOutcome(m.env, f, c, t.top))
  {
    hide Reaches, Step, CacheOk, Linked, MembersAt;
    var x := t.pc + 2 + 2 * |c.members|;
    var h := AltHead(m, s, t, t.pc);
    assert Ready(m, starts, h);
    var v := MembersRun(m, starts, c.members, 0, t.pc + 2, s, h, x + 4);
    MemberNone(m.env, t.top, c.members);
    if SomeMember(m.env, t.top, c.members, 0) {
      u := AltDone(m, s, v, x + 4, t.stack, t.top, t.lr);
    } else {
      u := AltFail(m, s, v, x, t.stack, t.top, t.lr);
    }
    assert Ready(m, starts, u);
  }

  lemma {:induction false} MinusRuns(m: Machine, starts: seq<int>, f: nat, c: Core, nor: Item, req: Item, s: Cpu, t: Cpu) returns (u: Cpu)
    requires c == Minus(nor, req) && 0 <= t.top <= |m.env.input|
    requires !ItemOutcome(m.env, f, nor, t.top).NoFuel?
    requires var o := ItemOutcome(m.env, f, nor, t.top);
      (o.Match? && o.top > t.top) || !ItemOutcome(m.env, f, req, t.top).NoFuel?
    requires Linked(m.code, m.env.rules, starts) && Reaches(m, s, t) && Ready(m, starts, t)
    requires |t.stack| + 3 + ItemNeed(m.env.rules, f, nor) < m.stacksize && |t.stack| + 3 + ItemNeed(m.env.rules, f, req) < m.stacksize
    requires var y := t.pc + 4 + ItemSize(nor);
      var x := y + 1 + ItemSize(req);
      HeadAt(m.code, t.pc) && ItemAt(m.code, t.pc + 3, nor, starts) && Has(m.code, y - 1, BGRE(x + 5 - (y - 1)))
      && ItemAt(m.code, y, req, starts) && Has(m.code, x - 1, BLES(x + 5 - (x - 1))) && DoneAt(m.code, x) && FailAt(m.code, x + 5)
    ensures Reaches(m, s, u) && u.pc == t.lr + 1
    ensures var o := ItemOutcome(m.env, f, nor, t.top);
      After(m, starts, t, u, if o.Match? && o.top > t.top then Fail else ItemOutcome(m.env, f, req, t.top))
    decreases f, c, 0, 0
  {
    hide *;
    var y := t.pc + 4 + ItemSize(nor);
    var x := y + 1 + ItemSize(req);
    var o := ItemOutcome(m.env, f, nor, t.top);
    var h := ExpHead(m, s, t, t.pc);
    ReadyKept(m, starts, t, h);
    var v := ItemRuns(m, starts, f, nor, s, h);
    AfterFacts(m, starts, h, v, o);
    GrownFrom(m, t, h, v, if o.Match? then o.recs else []);
    var v' := DoBgre(m, s, v, x + 5 - v.pc);
    ReadyKept(m, starts, v, v');
    if o.Match? && o.top > t.top {
      u := ExpFail(m, s, v', x + 5, t.stack, t.rec, t.top, t.lr);
      Failed(m, starts, t, v, u, o.recs);
    } else {
      GrownFrom(m, t, v, v', []);
      var p := ItemOutcome(m.env, f, req, t.top);
      var w := ItemRuns(m, starts, f, req, s, v');
      AfterFacts(m, starts, v', w, p);
      GrownFrom(m, t, v', w, if p.Match? then p.recs else []);
      var w' := DoBles(m, s, w, x + 5 - w.pc);
      if p.Match? {
        u := ExpDone(m, s, w', x, t.stack, t.rec, t.top, t.lr);
        Succeeded(m, starts, t, w, u, p);
      } else {
        u := ExpFail(m, s, w', x + 5, t.stack, t.rec, t.top, t.lr);
        Failed(m, starts, t, w, u, []);
      }
    }
  }

  /** Where the operand of a negation fails, the machine is back where it started and consumes a symbol. */
  lemma ExpSkip(m: Machine, s: Cpu, t: Cpu, x: int, base: seq<int>, rec: int, top: int, l: int) returns (u: Cpu)
    requires Reaches(m, s, t) && !t.abort && t.pc == x && SkipAt(m.code, x) && t.stack == base + [rec, top, l] && 0 <= top <= |m.env.input| && top <= t.high
    ensures Reaches(m, s, u)
    ensures var hit := top < |m.env.input|;
      var next := if hit then top + 1 else top;
      u == t.(pc := l + 1, lr := l, top := next, high := Further(t.high, next), r0 := if hit then 1 else -1, z := false, n := !hit, stack := base)
  {
    hide Reaches, Step;
    u := DoPop(m, s, t, LR, base + [rec, top], l);
    u := DoPop(m, s, u, RTOP, base + [rec], top);
    u := DoPop(m, s, u, R0, base, rec);
    u := MemberRuns(m, s, u, Special('.' as int));
    u := DoBx(m, s, u);
  }

  lemma Skipped(m: Machine, starts: seq<int>, s: Cpu, t: Cpu, u: Cpu)
    requires Ready(m, starts, s) && Ready(m, starts, t) && Grown(m, s, t, [])
    requires u.rec == t.rec && u.records == t.records && u.cache == t.cache && u.stack == s.stack && !u.abort && u.error == E_NONE
    requires u.high == Further(t.high, u.top)
    requires var hit := s.top < |m.env.input|;
      u.top == (if hit then s.top + 1 else s.top) && u.r0 == (if hit then 1 else -1) && u.n == !hit && !u.z
    ensures After(m, starts, s, u, One(s.top, s.top < |m.env.input|))
  {
    CacheFurther(m.env, starts, t.cache, t.high, u.high);
    hide CacheOk;
  }

  lemma {:induction false} NotRuns(m: Machine, starts: seq<int>, f: nat, c: Core, item: Item, s: Cpu, t: Cpu) returns (u: Cpu)
    requires c == Not(item) && 0 <= t.top <= |m.env.input| && !ItemOutcome(m.env, f, item, t.top).NoFuel?
    requires Linked(m.code, m.env.rules, starts) && Reaches(m, s, t) && Ready(m, starts, t)
    requires |t.stack| + 3 + ItemNeed(m.env.rules, f, item) < m.stacksize
    requires var x := t.pc + 4 + ItemSize(item);
      HeadAt(m.code, t.pc) && ItemAt(m.code, t.pc + 3, item, starts) && Has(m.code, x - 1, BLES(x + 5 - (x - 1))) && FailAt(m.code, x)
      && SkipAt(m.code, x + 5)
    ensures Reaches(m, s, u) && u.pc == t.lr + 1
    ensures After(m, starts, t, u, if ItemOutcome(m.env, f, item, t.top).Fail? then One(t.top, t.top < |m.env.input|) else Fail)
    decreases f, c, 0, 0
  {
    hide *;
    var x := t.pc + 4 + ItemSize(item);
    var o := ItemOutcome(m.env, f, item, t.top);
    var h := ExpHead(m, s, t, t.pc);
    ReadyKept(m, starts, t, h);
    var v := ItemRuns(m, starts, f, item, s, h);
    AfterFacts(m, starts, h, v, o);
    GrownFrom(m, t, h, v, if o.Match? then o.recs else []);
    var v' := DoBles(m, s, v, x + 5 - v.pc);
    if o.Match? {
      u := ExpFail(m, s, v', x, t.stack, t.rec, t.top, t.lr);
      Failed(m, starts, t, v, u, o.recs);
    } else {
      u := ExpSkip(m, s, v', x + 5, t.stack, t.rec, t.top, t.lr);
      Skipped(m, starts, t, v, u);
    }
  }

  lemma {:induction false} SubRuns(m: Machine, starts: seq<int>, f: nat, c: Core, s: Cpu, t: Cpu) returns (u: Cpu)
    requires Linked(m.code, m.env.rules, starts) && SubAt(m.code, t.pc, c, starts)
    requires Reaches(m, s, t) && Ready(m, starts, t) && !CoreOutcome(m.env, f, c, t.top).NoFuel?
    requires |t.stack| + SubNeed(m.env.rules, f, c) < m.stacksize
    ensures Reaches(m, s, u) && u.pc == t.lr + 1 && After(m, starts, t, u, CoreOutcome(m.env, f, c, t.top))
    decreases f, c, 0, 1
  {
    hide Reaches, Ready, Linked, After, ItemsOutcome, AltOutcome, ItemOutcome, BodyAt, BranchesAt, ItemAt, ItemsNeed, ItemNeed, ItemsSize, ItemSize, Has;
    match c
    case Chr(_) => assert false;
    case Spc(_) => assert false;
    case Cls(_) => u := ClsRuns(m, starts, f, c, s, t);
    case Exp(body) => u := ExpRuns(m, starts, f, body, s, t);
    case Alt(branches) => u := AltRuns(m, starts, f, branches, s, t);
    case Minus(nor, req) => u := MinusRuns(m, starts, f, c, nor, req, s, t);
    case Not(item) => u := NotRuns(m, starts, f, c, item, s, t);
    case Ref(r) => u := RuleRuns(m, starts, f - 1, r, m.env.rules[r].body, CoreOutcome(m.env, f, c, t.top), s, t);
  }

  lemma LinkedRule(m: Machine, starts: seq<int>, r: nat)
    requires Linked(m.code, m.env.rules, starts) && r < |m.env.rules|
    ensures RuleAt(m.code, starts[r], r, m.env.rules[r], starts)
  {
    hide RuleAt;
  }

  /** A result stored under its own key keeps the cache consistent. */
  lemma StoredOk(env: Env, starts: seq<int>, c: Cache, high: int, r: nat, top: nat, ret: int, recs: seq<Record>)
    requires ret > 0 ==> top + ret <= high
    requires CacheOk(env, starts, c, high) && r < |starts| && starts[r] >= 0 && top <= |env.input| && Agrees(env, r, top, ret, recs)
    requires forall i, j :: 0 <= i < j < |starts| ==> starts[i] != starts[j]
    ensures CacheOk(env, starts, Stored(c, top, starts[r], ret, recs), high)
  {
    hide Agrees, Bucket, Find, Stored, Keeps;
    var c' := Stored(c, top, starts[r], ret, recs);
    forall r': nat, top': nat | r' < |starts| && top' <= |env.input| && starts[r'] >= 0 && Find(c', top', starts[r']).Hit?
      ensures Agrees(env, r', top', Find(c', top', starts[r']).ret, Find(c', top', starts[r']).records)
        && (Find(c', top', starts[r']).ret > 0 ==> top' + Find(c', top', starts[r']).ret <= high)
    {
      FindStored(c, top, starts[r], ret, recs, top', starts[r']);
    }
  }

  /** The cache answers with the outcome of the call. */
  lemma Answer(env: Env, starts: seq<int>, c: Cache, high: int, f: nat, r: nat, top: nat)
    requires CacheOk(env, starts, c, high) && r < |starts| && starts[r] >= 0 && top <= |env.input|
    requires !CallOutcome(env, f, r, top).NoFuel? && Find(c, top, starts[r]).Hit?
    ensures ReturnOf(CallOutcome(env, f, r, top), top) == (Find(c, top, starts[r]).ret, Find(c, top, starts[r]).records)
    ensures Find(c, top, starts[r]).ret > 0 ==> top + Find(c, top, starts[r]).ret <= high
  {
    hide Find, CallOutcome;
    var h := Find(c, top, starts[r]);
    var g: nat :| !CallOutcome(env, g, r, top).NoFuel? && ReturnOf(CallOutcome(env, g, r, top), top) == (h.ret, h.records);
    CallDetermined(env, f, g, r, top);
  }

  lemma CheckMiss(m: Machine, s: Cpu, t: Cpu, id: nat) returns (u: Cpu)
    requires Has(m.code, t.pc, CHECKCACHE(id)) && Has(m.code, t.pc + 1, BXNEQ(LR))
    requires Reaches(m, s, t) && !t.abort && t.top >= 0 && Valid(t.cache) && Find(t.cache, t.top, id).Miss?
    ensures Reaches(m, s, u) && u == t.(pc := t.pc + 2, r0 := 0, z := true, n := false)
  {
    hide Reaches, Find;
    u := Next(m, s, t);
    u := Next(m, s, u);
  }

  lemma CheckHit(m: Machine, s: Cpu, t: Cpu, id: nat) returns (u: Cpu)
    requires Has(m.code, t.pc, CHECKCACHE(id)) && Has(m.code, t.pc + 1, BXNEQ(LR))
    requires Reaches(m, s, t) && !t.abort && t.top >= 0 && Valid(t.cache) && Find(t.cache, t.top, id).Hit? && Find(t.cache, t.top, id).ret != 0
    ensures Reaches(m, s, u) && u.pc == t.lr + 1 && u.stack == t.stack && u.cache == t.cache && u.high == t.high && !u.abort && u.error == t.error
    ensures var h := Find(t.cache, t.top, id);
      u.r0 == h.ret && u.n == (h.ret < 0) && !u.z && u.top == (if h.ret > 0 then t.top + h.ret else t.top)
      && if h.ret > 0 && m.env.keep && h.records != []
         then u.records == Truncated(t.records, t.rec + 1) + h.records && u.rec == |u.records| - 1
         else u.records == t.records && u.rec == t.rec
  {
    hide Reaches, Find;
    var v := Next(m, s, t);
    u := Next(m, s, v);
  }

  /** A hit reproduces the call: its return value, R_TOP and records. */
  lemma HitRuns(m: Machine, starts: seq<int>, f: nat, r: nat, s: Cpu, t: Cpu) returns (u: Cpu)
    requires Reaches(m, s, t) && Ready(m, starts, t) && r < |starts| && t.pc == starts[r] >= 0
    requires Has(m.code, t.pc, CHECKCACHE(starts[r])) && Has(m.code, t.pc + 1, BXNEQ(LR))
    requires Find(t.cache, t.top, starts[r]).Hit? && !CallOutcome(m.env, f, r, t.top).NoFuel?
    ensures Reaches(m, s, u) && u.pc == t.lr + 1 && After(m, starts, t, u, CallOutcome(m.env, f, r, t.top))
  {
    hide Reaches, Find, CallOutcome;
    var o := CallOutcome(m.env, f, r, t.top);
    Answer(m.env, starts, t.cache, t.high, f, r, t.top);
    if o.Match? { CallAdvances(m.env, f, r, t.top); }
    u := CheckHit(m, s, t, starts[r]);
    assert CacheOk(m.env, starts, u.cache, u.high);
    hide CacheOk;
    if o.Match? && m.env.keep {
      assert u.records[..u.rec + 1] == t.records[..t.rec + 1] + o.recs;
    }
  }

  lemma CallAdvances(env: Env, f: nat, r: nat, top: nat)
    requires r < |env.rules| && top <= |env.input| && CallOutcome(env, f, r, top).Match?
    ensures CallOutcome(env, f, r, top).top > top
  {
  }

  /** The start record of a call that is still open. */
  function Opening(env: Env, r: nat, top: nat): seq<Record>
    requires r < |env.rules|
  {
    if env.rules[r].emit && env.keep then [Record(Start, r, top, 0)] else []
  }

  lemma RuleHead(m: Machine, starts: seq<int>, r: nat, s: Cpu, t: Cpu, b: int) returns (u: Cpu)
    requires r < |m.env.rules| && RuleHeadAt(m.code, b, r, m.env.rules[r]) && t.pc == b + 2 && |t.stack| + 3 < m.stacksize
    requires Reaches(m, s, t) && Ready(m, starts, t)
    ensures Reaches(m, s, u) && Ready(m, starts, u) && u.pc == b + 5 + EmitSize(m.env.rules[r])
    ensures u.stack == t.stack + [t.rec, t.top, t.lr] && u.top == t.top && Grown(m, t, u, Opening(m.env, r, t.top))
  {
    hide Reaches, CacheOk, Step;
    u := ExpHead(m, s, t, b + 2);
    if m.env.rules[r].emit {
      var v := u;
      u := EmitsStart(m, s, v, r);
      assert m.env.keep ==> u.records[..u.rec + 1] == t.records[..t.rec + 1] + [Record(Start, r, t.top, 0)];
    }
  }

  lemma EmitsStart(m: Machine, s: Cpu, t: Cpu, r: nat) returns (u: Cpu)
    requires Reaches(m, s, t) && !t.abort && Has(m.code, t.pc, EMITSTART(r))
    ensures Reaches(m, s, u) && u == ExecEmitStart(m.env, r, t).(pc := t.pc + 1)
  {
    hide Reaches;
    u := Next(m, s, t);
  }

  lemma EmitsEnd(m: Machine, s: Cpu, t: Cpu, r: nat) returns (u: Cpu)
    requires Reaches(m, s, t) && !t.abort && Has(m.code, t.pc, EMITEND(r))
    ensures Reaches(m, s, u) && u == ExecEmitEnd(m.env, r, t).(pc := t.pc + 1)
  {
    hide Reaches;
    u := Next(m, s, t);
  }

  lemma DoSetCache(m: Machine, s: Cpu, t: Cpu, id: nat, a: Reg, b: Reg) returns (u: Cpu)
    requires Reaches(m, s, t) && !t.abort && Has(m.code, t.pc, SETCACHE(id, a, b)) && t.otp >= 0 && Valid(t.cache)
    ensures Reaches(m, s, u) && u == ExecSetCache(id, Get(t, a), Get(t, b), t).(pc := t.pc + 1)
  {
    hide Reaches;
    u := Next(m, s, t);
  }

  /** The end record closes the block, and its size goes into the start record. */
  lemma Closing(m: Machine, r: nat, s: Cpu, t: Cpu, recs: seq<Record>)
    requires r < |m.env.rules| && m.env.rules[r].emit && s.top >= 0 && Grown(m, s, t, Opening(m.env, r, s.top) + recs)
    requires t.otp == s.top && t.r1 == s.rec && t.r0 == t.top - s.top > 0 && (!m.env.keep ==> recs == [])
    ensures var u := ExecEmitEnd(m.env, r, t);
      Grown(m, s, u, if m.env.keep then [Record(Start, r, s.top, t.r0)] + recs + [Record(End, r, s.top, t.r0)] else recs)
  {
    if m.env.keep {
      var u := ExecEmitEnd(m.env, r, t);
      var before := s.records[..s.rec + 1] + ([Record(Start, r, s.top, 0)] + recs);
      assert t.records[..t.rec + 1] == before && before[s.rec + 1] == Record(Start, r, s.top, 0);
      assert u.records[..u.rec + 1] == s.records[..s.rec + 1] + ([Record(Start, r, s.top, t.r0)] + recs + [Record(End, r, s.top, t.r0)]);
    }
  }

  lemma GrownOn(m: Machine, s: Cpu, t: Cpu, u: Cpu, recs: seq<Record>)
    requires Grown(m, s, t, recs) && u.rec == t.rec && u.records == t.records && u.high == t.high
    ensures Grown(m, s, u, recs)
  {
  }

  lemma NoOpening(env: Env, r: nat, top: nat, recs: seq<Record>)
    requires r < |env.rules| && !env.rules[r].emit
    ensures Opening(env, r, top) + recs == recs
  {
  }

  /** Only the records have changed. */
  lemma Emitted(m: Machine, starts: seq<int>, s: Cpu, t: Cpu, u: Cpu, o: Outcome)
    requires Ready(m, starts, t) && u.cache == t.cache && u.top == t.top && u.high == t.high && !u.abort && u.error == E_NONE && o.Match? && Grown(m, s, u, o.recs)
    ensures Ready(m, starts, u)
  {
    hide CacheOk;
  }

  /** Only the cache has changed. */
  lemma Recached(m: Machine, starts: seq<int>, t: Cpu, u: Cpu)
    requires Ready(m, starts, t) && CacheOk(m.env, starts, u.cache, t.high) && u.top == t.top && u.high == t.high && !u.abort && u.error == E_NONE && u.rec == t.rec && u.records == t.records
    ensures Ready(m, starts, u)
  {
    hide CacheOk;
  }

  /** Storing `o`, the outcome of calling `r` at `top`, in the cache. */
  lemma CacheKept(m: Machine, starts: seq<int>, f: nat, r: nat, top: nat, o: Outcome, c: Cache, high: int)
    requires r < |m.env.rules| && top <= |m.env.input| && o == CallOutcome(m.env, f, r, top) && !o.NoFuel?
    requires o.Match? ==> o.top <= high
    requires CacheOk(m.env, starts, c, high) && r < |starts| && starts[r] >= 0 && forall i, j :: 0 <= i < j < |starts| ==> starts[i] != starts[j]
    ensures CacheOk(m.env, starts, Stored(c, top, starts[r], ReturnOf(o, top).0, ReturnOf(o, top).1), high)
  {
    hide CallOutcome, CacheOk, Stored;
    assert Agrees(m.env, r, top, ReturnOf(o, top).0, ReturnOf(o, top).1);
    StoredOk(m.env, starts, c, high, r, top, ReturnOf(o, top).0, ReturnOf(o, top).1);
  }

  /** SETCACHE stores the records between R1 and R_REC, which are those of the call. */
  lemma SetsDone(m: Machine, starts: seq<int>, f: nat, r: nat, o: Outcome, s: Cpu, t: Cpu)
    requires 0 <= s.top <= |m.env.input| && r < |m.env.rules| && o == CallOutcome(m.env, f, r, s.top) && o.Match?
    requires Ready(m, starts, s) && r < |starts| && starts[r] >= 0 && forall i, j :: 0 <= i < j < |starts| ==> starts[i] != starts[j]
    requires Ready(m, starts, t) && Grown(m, s, t, o.recs) && t.otp == s.top && t.r0 == o.top - s.top > 0 && t.r1 == s.rec && t.top == o.top
    ensures ExecSetCache(starts[r], t.r1, t.rec, t) == t.(cache := Stored(t.cache, s.top, starts[r], t.r0, if m.env.keep then o.recs else []))
    ensures m.env.keep || o.recs == []
    ensures CacheOk(m.env, starts, ExecSetCache(starts[r], t.r1, t.rec, t).cache, t.high)
  {
    hide CallOutcome, CacheOk, Stored, Bucket;
    CacheKept(m, starts, f, r, s.top, o, t.cache, t.high);
    if m.env.keep {
      assert t.records[t.r1 + 1..t.rec + 1] == t.records[..t.rec + 1][s.rec + 1..] == o.recs;
    }
  }

  /** The end of a rule up to the test for an empty match. */
  lemma RuleMeasure(m: Machine, r: nat, s: Cpu, t: Cpu, v: Cpu, b: int, x: int) returns (u: Cpu)
    requires r < |m.env.rules| && RuleDoneAt(m.code, b, x, r, m.env.rules[r]) && v.pc == x && !v.abort
    requires Reaches(m, s, v) && v.stack == t.stack + [t.rec, t.top, t.lr]
    ensures Reaches(m, s, u)
    ensures u == v.(pc := x + 4 + (if v.top == t.top then 3 + EmitSize(m.env.rules[r]) else 1), lr := t.lr, otp := t.top, r1 := t.rec,
      r0 := v.top - t.top, z := v.top == t.top, n := v.top < t.top, stack := t.stack)
  {
    hide Reaches, Step;
    u := DoPop(m, s, v, LR, t.stack + [t.rec, t.top], t.lr);
    u := DoPop(m, s, u, ROTP, t.stack + [t.rec], t.top);
    u := DoPop(m, s, u, R1, t.stack, t.rec);
    u := DoSubs(m, s, u, R0, RTOP, ROTP);
    u := DoBeq(m, s, u, 3 + EmitSize(m.env.rules[r]));
  }

  /** Closing the records of the call. */
  lemma RuleClose(m: Machine, r: nat, o: Outcome, inner: Outcome, s: Cpu, t: Cpu, w: Cpu, x: int) returns (u: Cpu)
    requires 0 <= t.top <= |m.env.input| && r < |m.env.rules| && inner.Match? && inner.top > t.top && Sane(m.env, t.top, inner)
    requires o == RuleOutcome(m.env, r, t.top, inner)
    requires w.top == inner.top && Grown(m, t, w, Opening(m.env, r, t.top) + inner.recs)
    requires Reaches(m, s, w) && !w.abort && w.otp == t.top && w.r1 == t.rec && w.r0 == w.top - t.top
    requires w.pc == x && (m.env.rules[r].emit ==> Has(m.code, x, EMITEND(r)))
    ensures Reaches(m, s, u) && Grown(m, t, u, o.recs) && u == w.(pc := x + EmitSize(m.env.rules[r]), records := u.records, rec := u.rec)
  {
    hide Reaches, Step, Grown, Opening;
    if m.env.rules[r].emit {
      u := EmitsEnd(m, s, w, r);
      Closing(m, r, t, w, inner.recs);
      GrownOn(m, t, ExecEmitEnd(m.env, r, w), u, o.recs);
    } else {
      u := w;
      NoOpening(m.env, r, t.top, inner.recs);
    }
  }

  /** A rule that has matched something: the records are closed, the result is cached. */
  lemma RuleDone(m: Machine, starts: seq<int>, f: nat, r: nat, o: Outcome, inner: Outcome, s: Cpu, t: Cpu, v: Cpu, b: int, x: int) returns (u: Cpu)
    requires 0 <= t.top <= |m.env.input| && r < |m.env.rules| && o == CallOutcome(m.env, f, r, t.top)
    requires inner == ItemsOutcome(m.env, f, m.env.rules[r].body, t.top) && inner.Match? && inner.top > t.top
    requires v.top == inner.top && Grown(m, t, v, Opening(m.env, r, t.top) + inner.recs)
    requires Reaches(m, s, v) && Ready(m, starts, t) && Ready(m, starts, v) && r < |starts| && starts[r] == b
    requires RuleDoneAt(m.code, b, x, r, m.env.rules[r]) && v.pc == x && v.stack == t.stack + [t.rec, t.top, t.lr]
    requires forall i, j :: 0 <= i < j < |starts| ==> starts[i] != starts[j]
    ensures Reaches(m, s, u) && u.pc == t.lr + 1 && After(m, starts, t, u, o)
  {
    hide Reaches, Ready, CacheOk, Step, Grown, After, ItemsOutcome, Opening, Stored, Sane, RecsOk, ExecEmitEnd;
    var w := RuleMeasure(m, r, s, t, v, b, x);
    ReadyKept(m, starts, v, w);
    GrownOn(m, t, v, w, Opening(m.env, r, t.top) + inner.recs);
    var e := RuleClose(m, r, o, inner, s, t, w, x + 5);
    Emitted(m, starts, t, w, e, o);
    u := RuleStore(m, starts, f, r, o, s, t, e);
  }

  lemma RuleStore(m: Machine, starts: seq<int>, f: nat, r: nat, o: Outcome, s: Cpu, t: Cpu, e: Cpu) returns (u: Cpu)
    requires 0 <= t.top <= |m.env.input| && r < |m.env.rules| && o == CallOutcome(m.env, f, r, t.top) && o.Match?
    requires Ready(m, starts, t) && r < |starts| && starts[r] >= 0 && forall i, j :: 0 <= i < j < |starts| ==> starts[i] != starts[j]
    requires Ready(m, starts, e) && Grown(m, t, e, o.recs) && e.otp == t.top && e.r0 == e.top - t.top > 0 && e.top == o.top && e.r1 == t.rec
    requires Reaches(m, s, e) && e.lr == t.lr && e.stack == t.stack && !e.n && !e.z
    requires Has(m.code, e.pc, SETCACHE(starts[r], R1, RREC)) && Has(m.code, e.pc + 1, BX(LR))
    ensures Reaches(m, s, u) && u.pc == t.lr + 1 && After(m, starts, t, u, o)
  {
    hide Reaches, Ready, CacheOk, Step, Grown, After, CallOutcome, Stored, RecsOk, ExecSetCache;
    SetsDone(m, starts, f, r, o, t, e);
    var g := DoSetCache(m, s, e, starts[r], R1, RREC);
    Recached(m, starts, e, g);
    GrownOn(m, t, e, g, o.recs);
    u := DoBx(m, s, g);
    Succeeded(m, starts, t, g, u, o);
  }

  /** A rule that has matched nothing fails and is not cached. */
  lemma RuleEmpty(m: Machine, starts: seq<int>, r: nat, s: Cpu, t: Cpu, v: Cpu, b: int, x: int, lost: seq<Record>) returns (u: Cpu)
    requires Reaches(m, s, v) && Ready(m, starts, t) && Ready(m, starts, v) && r < |m.env.rules|
    requires RuleDoneAt(m.code, b, x, r, m.env.rules[r]) && v.pc == x && v.stack == t.stack + [t.rec, t.top, t.lr]
    requires v.top == t.top && Grown(m, t, v, lost)
    ensures Reaches(m, s, u) && u.pc == t.lr + 1 && After(m, starts, t, u, Fail)
  {
    hide Reaches, Ready, CacheOk, Step, Grown, After;
    u := RuleMeasure(m, r, s, t, v, b, x);
    u := DoMov(m, s, u, RREC, R1);
    u := DoMovi(m, s, u, R0, -1);
    u := DoBx(m, s, u);
    Failed(m, starts, t, v, u, lost);
  }

  /** A rule whose body has failed: everything is restored and the failure is cached. */
  lemma RuleFail(m: Machine, starts: seq<int>, f: nat, r: nat, s: Cpu, t: Cpu, v: Cpu, b: int, x: int, lost: seq<Record>) returns (u: Cpu)
    requires r < |m.env.rules| && 0 <= t.top <= |m.env.input| && ItemsOutcome(m.env, f, m.env.rules[r].body, t.top).Fail?
    requires Reaches(m, s, v) && Ready(m, starts, t) && Ready(m, starts, v) && r < |starts| && starts[r] == b
    requires RuleFailAt(m.code, b, x) && v.pc == x && v.stack == t.stack + [t.rec, t.top, t.lr] && Grown(m, t, v, lost)
    requires forall i, j :: 0 <= i < j < |starts| ==> starts[i] != starts[j]
    ensures Reaches(m, s, u) && u.pc == t.lr + 1 && After(m, starts, t, u, Fail)
  {
    hide Reaches, Ready, CacheOk, Step, Grown, After, ItemsOutcome, Stored;
    var w := DoPop(m, s, v, LR, t.stack + [t.rec, t.top], t.lr);
    w := DoPop(m, s, w, RTOP, t.stack + [t.rec], t.top);
    w := DoPop(m, s, w, RREC, t.stack, t.rec);
    w := DoMov(m, s, w, ROTP, RTOP);
    w := DoMovi(m, s, w, R0, -1);
    var g := DoSetCache(m, s, w, b, RREC, RREC);
    u := DoBx(m, s, g);
    CacheKept(m, starts, f, r, t.top, Fail, v.cache, v.high);
    Recached(m, starts, v, v.(cache := u.cache));
    GrownOn(m, t, v, v.(cache := u.cache), lost);
    Failed(m, starts, t, v.(cache := u.cache), u, lost);
  }

  lemma {:induction false} RuleRuns(m: Machine, starts: seq<int>, f: nat, r: nat, body: Items, o: Outcome, s: Cpu, t: Cpu) returns (u: Cpu)
    requires r < |m.env.rules| && 0 <= t.top <= |m.env.input| && body == m.env.rules[r].body && o == CallOutcome(m.env, f, r, t.top)
    requires !o.NoFuel? && |t.stack| + 3 + ItemsNeed(m.env.rules, f, body) < m.stacksize
    requires r < |starts| && t.pc == starts[r] && Linked(m.code, m.env.rules, starts)
    requires Reaches(m, s, t) && Ready(m, starts, t)
    ensures Reaches(m, s, u) && u.pc == t.lr + 1 && After(m, starts, t, u, o)
    decreases f, body, 2, 0
  {
    hide Reaches, Find, ItemsOutcome, BodyAt, ItemsSize, ItemsNeed, Ready, Linked, RuleDoneAt, RuleFailAt, After, Has, HeadAt;
    LinkedRule(m, starts, r);
    if Find(t.cache, t.top, starts[r]).Hit? {
      u := HitRuns(m, starts, f, r, s, t);
    } else {
      var p := CheckMiss(m, s, t, starts[r]);
      u := MissRuns(m, starts, f, r, body, o, ItemsOutcome(m.env, f, body, t.top), s, t, p, starts[r]);
    }
  }

  lemma {:induction false} MissRuns(m: Machine, starts: seq<int>, f: nat, r: nat, body: Items, o: Outcome, inner: Outcome, s: Cpu, t: Cpu, p: Cpu, b: int) returns (u: Cpu)
    requires r < |m.env.rules| && 0 <= t.top <= |m.env.input| && body == m.env.rules[r].body
    requires inner == ItemsOutcome(m.env, f, body, t.top)
    requires !inner.NoFuel? && o == CallOutcome(m.env, f, r, t.top)
    requires |t.stack| + 3 + ItemsNeed(m.env.rules, f, body) < m.stacksize
    requires |starts| == |m.env.rules| && starts[r] == b && RuleAt(m.code, b, r, m.env.rules[r], starts)
    requires Linked(m.code, m.env.rules, starts) && forall i, j :: 0 <= i < j < |starts| ==> starts[i] != starts[j]
    requires Reaches(m, s, p) && Ready(m, starts, t) && p == t.(pc := b + 2, r0 := 0, z := true, n := false)
    ensures Reaches(m, s, u) && u.pc == t.lr + 1 && After(m, starts, t, u, o)
    decreases f, body, 1, 0
  {
    hide Reaches, ItemsOutcome, BodyAt, ItemsSize, ItemsNeed, Ready, Linked, RuleHeadAt, RuleDoneAt, RuleFailAt, Grown, After, Opening, Sane;
    var rule := m.env.rules[r];
    var x := b + 5 + EmitSize(rule) + ItemsSize(rule.body);
    var opening := Opening(m.env, r, t.top);
    ReadyKept(m, starts, t, p);
    var h := RuleHead(m, starts, r, s, p, b);
    GrownFrom(m, t, p, h, opening);
    var v, lost := BodyRuns(m, starts, f, rule.body, s, h, x + 10 + EmitSize(rule));
    var recs := if inner.Match? then inner.recs else lost;
    GrownJoin(m, t, h, v, opening, recs);
    if inner.Fail? {
      u := RuleFail(m, starts, f, r, s, t, v, b, x + 10 + EmitSize(rule), opening + lost);
    } else if inner.top == t.top {
      u := RuleEmpty(m, starts, r, s, t, v, b, x, opening + inner.recs);
    } else {
      BodyAdvances(m.env, t.top, inner);
      u := RuleDone(m, starts, f, r, o, inner, s, t, v, b, x);
    }
  }

  lemma BodyAdvances(env: Env, top: int, o: Outcome)
    requires o.Match? && top >= 0 && Sane(env, top, o)
    ensures o.top >= top
  {
  }
}
