/** The virtual machine the pattern analyzer runs on (rvm/rvmcpu.c, rpa/rpavm.c) as a step function. */
module RvmCpu {
  import opened Automata
  import opened RpaGrammar
  import opened RpaCache

  datatype Reg = R0 | R1 | RREC | ROTP | RTOP | LR

  datatype Test = TChr(c: Sym) | TSpc(c: Sym) | TRng(lo: Sym, hi: Sym)

  /** Instructions. Where the operand is the register DA the value it is loaded with stands in its place:
      MOVI is MOVS from DA, and MATCH stands for the twelve instructions RPA_MATCHCHR_NAN to
      RPA_MATCHSPCHR_MOP. */
  datatype Ins =
    | B(w: int) | BEQ(w: int) | BLES(w: int) | BGRE(w: int) | BL(w: int) | BX(r: Reg) | BXNEQ(r: Reg) | EXT
    | MOV(d: Reg, s: Reg) | MOVS(d: Reg, s: Reg) | MOVI(d: Reg, v: int) | SUBS(d: Reg, a: Reg, b: Reg)
    | PUSH(r: Reg) | POP(r: Reg)
    | MATCH(t: Test, q: Quant) | SHIFT
    | EMITSTART(rule: nat) | EMITEND(rule: nat) | EMITTAIL
    | SETCACHE(ruleid: nat, prevrec: Reg, endrec: Reg) | CHECKCACHE(ruleid: nat)

  const E_NONE := 0
  const E_NOMEM := 7

  /** Not an error the machine reports: the program does what the machine does not check, such as popping
      from an empty stack, leaving the code, or looking at an input symbol it has not moved to. */
  const UNDEFINED := -1

  /** `stack` holds the entries 1..SP, so that SP is its length; `z` and `n` are the two status bits the
      branches look at. R_REC is the index of the last valid record. `high` is the position up to which
      the input stack is filled. */
  datatype Cpu = Cpu(pc: int, r0: int, r1: int, rec: int, otp: int, top: int, lr: int, z: bool, n: bool,
    stack: seq<int>, records: seq<Record>, cache: Cache, high: int, abort: bool, error: int)

  datatype Machine = Machine(code: seq<Ins>, env: Env, stacksize: nat)

  function Get(s: Cpu, r: Reg): int {
    match r
    case R0 => s.r0
    case R1 => s.r1
    case RREC => s.rec
    case ROTP => s.otp
    case RTOP => s.top
    case LR => s.lr
  }

  function Put(s: Cpu, r: Reg, v: int): Cpu {
    match r
    case R0 => s.(r0 := v)
    case R1 => s.(r1 := v)
    case RREC => s.(rec := v)
    case ROTP => s.(otp := v)
    case RTOP => s.(top := v)
    case LR => s.(lr := v)
  }

  function Flags(s: Cpu, v: int): Cpu {
    s.(z := v == 0, n := v < 0)
  }

  predicate TestAt(env: Env, t: Test, top: int) {
    top >= 0 &&
    match t
    case TChr(c) => ChrAt(env, top, c)
    case TSpc(c) => SpcAt(env, top, c)
    case TRng(lo, hi) => RngAt(env, top, lo, hi)
  }

  /** How many symbols in a row pass the test. */
  function Count(env: Env, t: Test, top: int): nat
    decreases |env.input| - top
  {
    if TestAt(env, t, top) then 1 + Count(env, t, top + 1) else 0
  }

  function Matched(env: Env, t: Test, q: Quant, top: int): nat {
    if q.Mul? || q.Mop? then Count(env, t, top) else if TestAt(env, t, top) then 1 else 0
  }

  function Abort(s: Cpu, error: int): Cpu {
    s.(abort := true, error := error)
  }

  function Further(a: int, b: int): int {
    if a < b then b else a
  }

  function ExecMatch(env: Env, t: Test, q: Quant, s: Cpu): Cpu {
    var matched := Matched(env, t, q, s.top);
    var fails := matched == 0 && (q.Nan? || q.Mul?);
    s.(top := s.top + matched, high := Further(s.high, s.top + matched),
      r0 := if fails then -1 else matched, n := fails, z := matched == 0 && !fails)
  }

  function ExecShift(env: Env, s: Cpu): Cpu {
    if s.top < |env.input| then s.(top := s.top + 1, high := Further(s.high, s.top + 1))
    else s
  }

  /** Writes a record after R_REC and moves R_REC to it; what lay behind stays. */
  function Emit(records: seq<Record>, index: int, x: Record): seq<Record> {
    if 0 <= index < |records| then records[index := x] else records + [x]
  }

  function ExecEmitStart(env: Env, rule: nat, s: Cpu): Cpu {
    if !env.keep || s.top < 0 then s
    else s.(records := Emit(s.records, s.rec + 1, Record(Start, rule, s.top, 0)), rec := s.rec + 1)
  }

  /** The size goes into the end record and back into the start record, which is the one after R1. */
  function ExecEmitEnd(env: Env, rule: nat, s: Cpu): Cpu {
    if !env.keep || s.otp < 0 || s.r0 < 0 then s
    else
      var recs := Emit(s.records, s.rec + 1, Record(End, rule, s.otp, s.r0));
      var recs' := if 0 <= s.r1 + 1 < |recs| then recs[s.r1 + 1 := recs[s.r1 + 1].(size := s.r0)] else recs;
      s.(records := recs', rec := s.rec + 1)
  }

  function Truncated(records: seq<Record>, len: int): seq<Record> {
    if 0 <= len <= |records| then records[..len] else records
  }

  function ExecEmitTail(env: Env, s: Cpu): Cpu {
    if env.keep then s.(records := Truncated(s.records, s.rec + 1)) else s
  }

  function ExecSetCache(ruleid: nat, prevrec: int, endrec: int, s: Cpu): Cpu {
    if s.otp < 0 || !Valid(s.cache) then s
    else if s.r0 > 0 && 0 <= prevrec + 1 <= endrec < |s.records|
    then s.(cache := Stored(s.cache, s.otp, ruleid, s.r0, s.records[prevrec + 1..endrec + 1]))
    else s.(cache := Stored(s.cache, s.otp, ruleid, s.r0, []))
  }

  function ExecCheckCache(env: Env, ruleid: nat, s: Cpu): Cpu {
    if s.top < 0 || !Valid(s.cache) then s
    else
      match Find(s.cache, s.top, ruleid)
      case Miss => Flags(s.(r0 := 0), 0)
      case Hit(ret, recs) =>
        var u := Flags(s.(r0 := ret), ret);
        if ret <= 0 then u
        else if recs == [] || !env.keep then u.(top := s.top + ret)
        else
          var records := Truncated(s.records, s.rec + 1) + recs;
          u.(top := s.top + ret, records := records, rec := |records| - 1)
  }

  /** The effect of one instruction; the caller then moves PC on by one. */
  function Exec(m: Machine, i: Ins, s: Cpu): Cpu {
    match i
    case B(w) => s.(pc := s.pc + w - 1)
    case BEQ(w) => if s.z then s.(pc := s.pc + w - 1) else s
    case BLES(w) => if s.n then s.(pc := s.pc + w - 1) else s
    case BGRE(w) => if !s.n && !s.z then s.(pc := s.pc + w - 1) else s
    case BL(w) => s.(lr := s.pc, pc := s.pc + w - 1)
    case BX(r) => s.(pc := Get(s, r))
    case BXNEQ(r) => if !s.z then s.(pc := Get(s, r)) else s
    case EXT => s.(abort := true)
    case MOV(d, r) => Put(s, d, Get(s, r))
    case MOVS(d, r) => Flags(Put(s, d, Get(s, r)), Get(s, r))
    case MOVI(d, v) => Flags(Put(s, d, v), v)
    case SUBS(d, a, b) => Flags(Put(s, d, Get(s, a) - Get(s, b)), Get(s, a) - Get(s, b))
    case PUSH(r) => if |s.stack| + 1 < m.stacksize then s.(stack := s.stack + [Get(s, r)]) else Abort(s, E_NOMEM)
    case POP(r) => if s.stack == [] then s else Put(s, r, s.stack[|s.stack| - 1]).(stack := s.stack[..|s.stack| - 1])
    case MATCH(t, q) => ExecMatch(m.env, t, q, s)
    case SHIFT => ExecShift(m.env, s)
    case EMITSTART(rule) => ExecEmitStart(m.env, rule, s)
    case EMITEND(rule) => ExecEmitEnd(m.env, rule, s)
    case EMITTAIL => ExecEmitTail(m.env, s)
    case SETCACHE(id, prevrec, endrec) => ExecSetCache(id, Get(s, prevrec), Get(s, endrec), s)
    case CHECKCACHE(id) => ExecCheckCache(m.env, id, s)
  }

  /** What the machine takes for granted. */
  predicate Defined(i: Ins, s: Cpu) {
    match i
    case POP(_) => s.stack != []
    case MATCH(_, _) => 0 <= s.top <= s.high
    case SHIFT => -1 <= s.top <= s.high
    case SETCACHE(_, _, _) => s.otp >= 0 && Valid(s.cache)
    case CHECKCACHE(_) => s.top >= 0 && Valid(s.cache)
    case _ => true
  }

  lemma ExecError(m: Machine, i: Ins, s: Cpu)
    ensures Exec(m, i, s).error == s.error || Exec(m, i, s).error == E_NOMEM
  {
    hide Get, Count, Matched, Find, Stored, Truncated, Emit, TestAt;
  }

  function Step(m: Machine, s: Cpu): Cpu {
    if 0 <= s.pc < |m.code| && Defined(m.code[s.pc], s) then var t := Exec(m, m.code[s.pc], s); t.(pc := t.pc + 1)
    else Abort(s, UNDEFINED)
  }

  function Run(m: Machine, s: Cpu, n: nat): Cpu
    decreases n
  {
    if n == 0 || s.abort then s else Run(m, Step(m, s), n - 1)
  }

  ghost predicate Reaches(m: Machine, s: Cpu, t: Cpu) {
    exists n: nat :: Run(m, s, n) == t
  }

  lemma Here(m: Machine, s: Cpu)
    ensures Reaches(m, s, s)
  {
    assert Run(m, s, 0) == s;
  }

  lemma {:induction false} RunJoin(m: Machine, s: Cpu, n: nat, k: nat)
    ensures Run(m, Run(m, s, n), k) == Run(m, s, n + k)
    decreases n
  {
    hide Step;
    if s.abort {
      assert Run(m, s, n) == Run(m, s, k) == Run(m, s, n + k) == s;
    } else if n != 0 {
      RunJoin(m, Step(m, s), n - 1, k);
    }
  }

  lemma Onward(m: Machine, s: Cpu, t: Cpu, u: Cpu)
    requires Reaches(m, s, t) && Reaches(m, t, u)
    ensures Reaches(m, s, u)
  {
    var n :| Run(m, s, n) == t;
    var k :| Run(m, t, k) == u;
    RunJoin(m, s, n, k);
  }

  /** One more step. */
  lemma Next(m: Machine, s: Cpu, t: Cpu) returns (u: Cpu)
    requires Reaches(m, s, t) && !t.abort && 0 <= t.pc < |m.code|
    ensures u == Step(m, t) && Reaches(m, s, u)
  {
    hide Step;
    u := Step(m, t);
    assert Run(m, t, 1) == Run(m, u, 0) == u;
    Onward(m, s, t, u);
  }

  // ---- stacks of different sizes ---------------------------------------------------------------

  predicate Overflown(s: Cpu) {
    s.abort && s.error == E_NOMEM
  }

  lemma StepWider(m: Machine, size: nat, s: Cpu)
    requires m.stacksize <= size
    ensures Step(m, s) == Step(m.(stacksize := size), s) || Overflown(Step(m, s))
  {
    hide ExecMatch, ExecShift, ExecEmitStart, ExecEmitEnd, ExecEmitTail, ExecSetCache, ExecCheckCache, Get, Put, Flags, Defined;
  }

  /** On a smaller stack a run is the same, or stops for want of room. */
  lemma {:induction false} RunWider(m: Machine, size: nat, s: Cpu, n: nat)
    requires m.stacksize <= size
    ensures Run(m, s, n) == Run(m.(stacksize := size), s, n) || Overflown(Run(m, s, n))
    decreases n
  {
    hide Step;
    if n > 0 && !s.abort {
      StepWider(m, size, s);
      RunWider(m, size, Step(m, s), n - 1);
    }
  }

  /** For a caller that does not want records there are none. */
  lemma {:induction false} RunNoRecords(m: Machine, s: Cpu, n: nat)
    requires !m.env.keep
    ensures Run(m, s, n).records == s.records
    decreases n
  {
    hide Step;
    if n > 0 && !s.abort {
      StepNoRecords(m, s);
      RunNoRecords(m, Step(m, s), n - 1);
    }
  }

  lemma StepNoRecords(m: Machine, s: Cpu)
    requires !m.env.keep
    ensures Step(m, s).records == s.records
  {
    hide Get, Count, Matched, Find, Stored, Truncated, Emit, TestAt;
  }

  /** A machine stops in one state only. */
  lemma StopsOnce(m: Machine, s: Cpu, t: Cpu, u: Cpu)
    requires Reaches(m, s, t) && Reaches(m, s, u) && t.abort && u.abort
    ensures t == u
  {
    var n: nat :| Run(m, s, n) == t;
    var k: nat :| Run(m, s, k) == u;
    if n <= k {
      RunJoin(m, s, n, k - n);
    } else {
      RunJoin(m, s, k, n - k);
    }
  }

  /** Results keep the date of the cache they are stored in. */
  lemma {:induction false} RunDated(m: Machine, s: Cpu, n: nat)
    requires Dated(s.cache)
    ensures Dated(Run(m, s, n).cache)
    decreases n
  {
    hide Step;
    if n > 0 && !s.abort {
      StepDated(m, s);
      RunDated(m, Step(m, s), n - 1);
    }
  }

  lemma StepDated(m: Machine, s: Cpu)
    requires Dated(s.cache)
    ensures Dated(Step(m, s).cache)
  {
    hide Exec, Defined, Dated;
    if 0 <= s.pc < |m.code| {
      var i := m.code[s.pc];
      if i.SETCACHE? {
        SetDated(i.ruleid, Get(s, i.prevrec), Get(s, i.endrec), s);
        ExecSets(m, i, s);
      } else {
        ExecKeepsCache(m, i, s);
      }
    }
  }

  lemma ExecSets(m: Machine, i: Ins, s: Cpu)
    requires i.SETCACHE?
    ensures Exec(m, i, s) == ExecSetCache(i.ruleid, Get(s, i.prevrec), Get(s, i.endrec), s)
  {
  }

  lemma SetDated(ruleid: nat, prevrec: int, endrec: int, s: Cpu)
    requires Dated(s.cache)
    ensures Dated(ExecSetCache(ruleid, prevrec, endrec, s).cache)
  {
    hide Bucket;
  }

  lemma ExecKeepsCache(m: Machine, i: Ins, s: Cpu)
    requires !i.SETCACHE?
    ensures Exec(m, i, s).cache == s.cache
  {
    hide Get, Count, Matched, Find, Truncated, Emit, TestAt;
  }
}
