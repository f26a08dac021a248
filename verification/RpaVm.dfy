/** The virtual machine as it runs (rvm/rvmcpu.c, rpa/rpavm.c), against its step function, and the parse
    that starts it (rpa/rpastat.c). */
module RpaVm {
  import opened Arithmetic
  import opened Symbols
  import opened RpaGrammar
  import opened RpaInput
  import opened RpaCache
  import opened RvmCpu
  import opened RpaCode
  import opened RpaParse
  import opened RpaRanks
  import opened RpaRecords
  import opened RpaCodegen
  import opened RpaCompiler

  lemma InInput(env: Env, t: Test, top: int)
    requires TestAt(env, t, top)
    ensures 0 <= top < |env.input|
  {
  }

  /** Where a run meets something undefined, it stops with that. */
  lemma StepUndefined(m: Machine, s: Cpu)
    requires s.error != UNDEFINED
    ensures Step(m, s).error != UNDEFINED <==> 0 <= s.pc < |m.code| && Defined(m.code[s.pc], s)
    ensures Step(m, s).error == UNDEFINED ==> Step(m, s).abort
  {
    hide Exec, Defined;
    if 0 <= s.pc < |m.code| { ExecError(m, m.code[s.pc], s); }
  }

  class Vm {
    ghost const m: Machine
    const prog: seq<Ins>
    const keep: bool
    const stack: array<int>
    const cache: RpaCache
    const input: InputStack
    var pc: int
    var r0: int
    var r1: int
    var rec: int
    var otp: int
    var top: int
    var lr: int
    var z: bool
    var n: bool
    var sp: nat
    var records: seq<Record>
    ghost var high: int
    var abort: bool
    var error: int

    ghost predicate Valid()
      reads this, stack, cache, cache.entry, input, input.buffer
    {
      cache.Valid() && sp < stack.Length == m.stacksize && prog == m.code && keep == m.env.keep && InputOk()
    }

    /** The input stack is filled up to `high` with the symbols of the machine's input. */
    ghost predicate InputOk()
      reads this`high, input, input.buffer
    {
      input.Valid() && m.env.input == Glyphs(input.code, input.b) && m.env.icase == input.code.icase
      && -1 <= high && forall k :: -1 <= k <= high ==> input.Reached(k)
    }

    ghost function Entries(): (s: seq<int>)
      reads this`sp, stack
      requires sp < stack.Length
      ensures |s| == sp
    {
      stack[1..sp + 1]
    }

    ghost function Value(): Cpu
      reads this, stack, cache, cache.entry
      requires sp < stack.Length
    {
      Cpu(pc, r0, r1, rec, otp, top, lr, z, n, Entries(), records, cache.Value(), high, abort, error)
    }

    constructor (ghost env: Env, prog: seq<Ins>, keep: bool, stacksize: nat, code: Coding, b: seq<byte>)
      requires stacksize > 0 && env.input == Glyphs(code, b) && env.icase == code.icase && env.keep == keep
      ensures Valid() && m == Machine(prog, env, stacksize) && input.code == code && input.b == b && Dated(cache.Value()) && records == []
      ensures fresh(stack) && fresh(cache) && fresh(cache.entry) && fresh(input) && fresh(input.buffer)
    {
      m := Machine(prog, env, stacksize);
      this.prog, this.keep := prog, keep;
      stack := new int[stacksize];
      cache := new RpaCache();
      input := new InputStack(code, b);
      pc, r0, r1, rec, otp, top, lr, z, n := 0, 0, 0, 0, 0, 0, 0, false, false;
      sp, records, high, abort, error := 0, [], -1, false, E_NONE;
    }

    function Reg(r: Reg): (v: int)
      reads this
      ensures sp < stack.Length ==> v == Get(Value(), r)
    {
      match r
      case R0 => r0
      case R1 => r1
      case RREC => rec
      case ROTP => otp
      case RTOP => top
      case LR => lr
    }

    method SetReg(r: Reg, v: int)
      requires Valid()
      modifies this`r0, this`r1, this`rec, this`otp, this`top, this`lr
      ensures Valid() && Value() == Put(old(Value()), r, v)
    {
      hide Entries, InputOk;
      match r
      case R0 => r0 := v;
      case R1 => r1 := v;
      case RREC => rec := v;
      case ROTP => otp := v;
      case RTOP => top := v;
      case LR => lr := v;
    }

    method SetFlags(v: int)
      requires Valid()
      modifies this`z, this`n
      ensures Valid() && Value() == Flags(old(Value()), v)
    {
      hide Entries, InputOk;
      z := v == 0;
      n := v < 0;
    }

    method Store(v: int)
      requires sp + 1 < stack.Length
      modifies this`sp, stack
      ensures sp == old(sp) + 1 && Entries() == old(Entries()) + [v]
    {
      stack[sp + 1] := v;
      sp := sp + 1;
      assert stack[1..sp + 1] == old(stack[1..sp + 1]) + [v];
    }

    method OpPush(r: Reg)
      requires Valid()
      modifies this, stack
      ensures Valid() && Value() == Exec(m, PUSH(r), old(Value()))
    {
      hide Entries, InputOk;
      if sp + 1 >= stack.Length {
        error := E_NOMEM;
        abort := true;
        return;
      }
      Store(Reg(r));
    }

    method Unstore() returns (v: int)
      requires 0 < sp < stack.Length
      modifies this`sp
      ensures sp == old(sp) - 1 && old(Entries()) == Entries() + [v]
    {
      v := stack[sp];
      sp := sp - 1;
    }

    /** Nothing is checked: there must be an entry. */
    method OpPop(r: Reg)
      requires Valid() && sp > 0
      modifies this
      ensures Valid() && Value() == Exec(m, POP(r), old(Value()))
    {
      hide Entries, InputOk;
      var v := Unstore();
      SetReg(r, v);
    }

    /** The entry of the input stack at R_TOP. */
    lemma AtTop()
      requires InputOk() && 0 <= top <= high
      ensures top + 1 < input.buffer.Length
      ensures var x := input.buffer[top + 1];
        x.eof == (top >= |m.env.input|)
        && (!x.eof ==> x.wc == m.env.input[top].wc && (m.env.icase ==> x.iwc == m.env.input[top].iwc))
    {
      hide Text, Place;
      assert input.Reached(top);
      assert input.Decoded(top);
    }

    method Matches(t: Test) returns (hit: bool)
      requires Valid() && 0 <= top <= high
      ensures hit == TestAt(m.env, t, top)
      ensures top >= |m.env.input| ==> !hit
      ensures top < |m.env.input| ==>
        var x, icase := m.env.input[top], m.env.icase;
        match t
        case TChr(c) => hit <==> x.wc == c || (icase && x.iwc == c)
        case TSpc(c) => hit <==> Escaped(x.wc, c)
        case TRng(lo, hi) => hit <==> lo <= x.wc <= hi || (icase && lo <= x.iwc <= hi)
    {
      AtTop();
      var x, icase := input.buffer[top + 1], input.code.icase;
      if x.eof { return false; }
      match t
      case TChr(c) => return x.wc == c || (icase && x.iwc == c);
      case TSpc(c) => return SpecialChar(c) == '.' as int || x.wc == SpecialChar(c);
      case TRng(lo, hi) => return lo <= x.wc <= hi || (icase && lo <= x.iwc <= hi);
    }

    /** Not beyond the end of the input. */
    method OpShift()
      requires Valid() && -1 <= top <= high
      modifies this`top, this`high, input, input.buffer
      ensures Valid() && Value() == Exec(m, SHIFT, old(Value()))
    {
      hide Text, Place, Entries;
      assert input.Reached(top);
      var r := input.Shift(top);
      if r >= 0 {
        top := r;
        high := Further(high, r);
      }
    }

    /** Over a symbol that has passed the test. */
    method Consume(ghost t: Test)
      requires Valid() && 0 <= top <= high && TestAt(m.env, t, top)
      modifies this`top, this`high, input, input.buffer
      ensures Valid() && old(top) < |m.env.input|
      ensures top == old(top) + 1 && high == Further(old(high), old(top) + 1)
    {
      hide TestAt, InputOk, Entries;
      InInput(m.env, t, top);
      OpShift();
    }

    /** As many symbols as pass the test. */
    method Repeat(t: Test) returns (matched: nat)
      requires Valid() && 0 <= top <= high
      modifies this`top, this`high, input, input.buffer
      ensures Valid() && matched == Count(m.env, t, old(top))
      ensures Value() == old(Value()).(top := old(top) + matched, high := Further(old(high), old(top) + matched))
    {
      hide TestAt, InputOk, Exec, Entries;
      matched := 0;
      var hit := Matches(t);
      while hit
        invariant Valid() && 0 <= top <= high && hit == TestAt(m.env, t, top)
        invariant top == old(top) + matched && high == Further(old(high), old(top) + matched)
        invariant matched + Count(m.env, t, top) == Count(m.env, t, old(top))
        decreases |m.env.input| - top, hit
      {
        Consume(t);
        matched := matched + 1;
        hit := Matches(t);
      }
    }

    method Once(t: Test) returns (matched: nat)
      requires Valid() && 0 <= top <= high
      modifies this`top, this`high, input, input.buffer
      ensures Valid() && matched == if TestAt(m.env, t, old(top)) then 1 else 0
      ensures Value() == old(Value()).(top := old(top) + matched, high := Further(old(high), old(top) + matched))
    {
      hide TestAt, InputOk, Entries;
      matched := 0;
      var hit := Matches(t);
      if hit {
        Consume(t);
        matched := 1;
      }
    }

    method OpMatch(t: Test, q: Quant)
      requires Valid() && 0 <= top <= high
      modifies this, input, input.buffer
      ensures Valid() && Value() == ExecMatch(m.env, t, q, old(Value()))
    {
      hide TestAt, Count, InputOk, Entries;
      var matched := 0;
      if q.Mul? || q.Mop? {
        matched := Repeat(t);
      } else {
        matched := Once(t);
      }
      Result(q, matched);
    }

    /** R0 and the status after a match instruction. */
    method Result(q: Quant, matched: nat)
      requires Valid()
      modifies this`r0, this`n, this`z
      ensures Valid()
      ensures var fails := matched == 0 && (q.Nan? || q.Mul?);
        Value() == old(Value()).(r0 := if fails then -1 else matched, n := fails, z := matched == 0 && !fails)
    {
      hide Entries, InputOk;
      if q.Nan? || q.Mul? {
        n, z := matched == 0, false;
        r0 := if matched != 0 then matched else -1;
      } else {
        n, z := false, matched == 0;
        r0 := matched;
      }
    }

    method OpEmitStart(rule: nat)
      requires Valid()
      modifies this
      ensures Valid() && Value() == ExecEmitStart(m.env, rule, old(Value()))
    {
      hide Entries, InputOk;
      if !keep || top < 0 { return; }
      records := Emit(records, rec + 1, Record(Start, rule, top, 0));
      rec := rec + 1;
    }

    method OpEmitEnd(rule: nat)
      requires Valid()
      modifies this
      ensures Valid() && Value() == ExecEmitEnd(m.env, rule, old(Value()))
    {
      hide Entries, InputOk;
      var startindex := r1 + 1;
      if !keep || otp < 0 || r0 < 0 { return; }
      records := Emit(records, rec + 1, Record(End, rule, otp, r0));
      rec := rec + 1;
      if 0 <= startindex < |records| { records := records[startindex := records[startindex].(size := r0)]; }
    }

    method OpEmitTail()
      requires Valid()
      modifies this
      ensures Valid() && Value() == ExecEmitTail(m.env, old(Value()))
    {
      hide Entries, InputOk;
      if keep { records := Truncated(records, rec + 1); }
    }

    method OpSetCache(ruleid: nat, a: Reg, b: Reg)
      requires Valid() && otp >= 0
      modifies this, cache.entry
      ensures Valid() && Value() == ExecSetCache(ruleid, old(Reg(a)), old(Reg(b)), old(Value()))
    {
      hide Entries, InputOk;
      var prevrec, endrec := Reg(a), Reg(b);
      if r0 > 0 && 0 <= prevrec + 1 <= endrec < |records| {
        cache.Set(otp, ruleid, r0, records, prevrec + 1, endrec - prevrec);
      } else {
        cache.Set(otp, ruleid, r0, records, 0, 0);
      }
    }

    method AppendRecords(recs: seq<Record>)
      requires Valid()
      modifies this`records, this`rec
      ensures Valid() && records == Truncated(old(records), old(rec) + 1) + recs && rec == |records| - 1
      ensures Value() == old(Value()).(records := records, rec := rec)
    {
      hide Entries, InputOk;
      records := Truncated(records, rec + 1);
      ghost var kept := records;
      var i := 0;
      while i < |recs|
        invariant i <= |recs| && Valid() && records == kept + recs[..i]
        invariant Value() == old(Value()).(records := records)
      {
        records := records + [recs[i]];
        i := i + 1;
      }
      rec := |records| - 1;
    }

    method OpCheckCache(ruleid: nat)
      requires Valid() && top >= 0
      modifies this
      ensures Valid() && Value() == ExecCheckCache(m.env, ruleid, old(Value()))
    {
      hide Find, Truncated, Entries, InputOk;
      var found := cache.Search(top, ruleid);
      match found
      case Miss =>
        r0 := 0;
        SetFlags(0);
      case Hit(ret, recs) =>
        if ret > 0 {
          if recs != [] && keep { AppendRecords(recs); }
          top := top + ret;
        }
        r0 := ret;
        SetFlags(ret);
    }

    /** Branches: the program counter is moved on by one afterwards. */
    method OpBranch(taken: bool, w: int)
      requires Valid()
      modifies this`pc
      ensures Valid() && Value() == if taken then old(Value()).(pc := old(pc) + w - 1) else old(Value())
    {
      hide Entries, InputOk;
      if taken { pc := pc + w - 1; }
    }

    method OpMovs(d: Reg, v: int)
      requires Valid()
      modifies this
      ensures Valid() && Value() == Flags(Put(old(Value()), d, v), v)
    {
      hide Entries, InputOk;
      SetReg(d, v);
      SetFlags(v);
    }

    /** The instructions of the pattern analyzer (the table of rpa/rpavm.c). */
    method Interrupt(i: Ins)
      requires Valid() && (i.MATCH? || i.SHIFT? || i.EMITSTART? || i.EMITEND? || i.EMITTAIL? || i.SETCACHE? || i.CHECKCACHE?)
      requires Defined(i, Value())
      modifies this, stack, cache.entry, input, input.buffer
      ensures Valid() && Value() == Exec(m, i, old(Value()))
    {
      hide InputOk, Put, Flags, ExecMatch, ExecEmitStart, ExecEmitEnd, ExecEmitTail, ExecSetCache, ExecCheckCache, Get, Entries;
      match i
      case MATCH(t, q) => OpMatch(t, q);
      case SHIFT => OpShift();
      case EMITSTART(rule) => OpEmitStart(rule);
      case EMITEND(rule) => OpEmitEnd(rule);
      case EMITTAIL => OpEmitTail();
      case SETCACHE(id, a, b) => OpSetCache(id, a, b);
      case CHECKCACHE(id) => OpCheckCache(id);
    }

    /** Branches and the end of the program. */
    method Jump(i: Ins)
      requires Valid() && (i.B? || i.BEQ? || i.BLES? || i.BGRE? || i.BL? || i.BX? || i.BXNEQ? || i.EXT?)
      modifies this
      ensures Valid() && Value() == Exec(m, i, old(Value()))
    {
      hide Get, Entries, InputOk;
      match i
      case B(w) => OpBranch(true, w);
      case BEQ(w) => OpBranch(z, w);
      case BLES(w) => OpBranch(n, w);
      case BGRE(w) => OpBranch(!n && !z, w);
      case BL(w) => lr := pc; OpBranch(true, w);
      case BX(r) => pc := Reg(r);
      case BXNEQ(r) => if !z { pc := Reg(r); }
      case EXT => abort := true;
    }

    /** One instruction, which must find what it takes for granted. */
    method Perform(i: Ins)
      requires Valid() && Defined(i, Value())
      modifies this, stack, cache.entry, input, input.buffer
      ensures Valid() && Value() == Exec(m, i, old(Value()))
    {
      hide InputOk, Put, Flags, Get, Entries;
      if i.MATCH? || i.SHIFT? || i.EMITSTART? || i.EMITEND? || i.EMITTAIL? || i.SETCACHE? || i.CHECKCACHE? {
        Interrupt(i);
      } else if i.MOV? {
        SetReg(i.d, Reg(i.s));
      } else if i.MOVS? {
        OpMovs(i.d, Reg(i.s));
      } else if i.MOVI? {
        OpMovs(i.d, i.v);
      } else if i.SUBS? {
        OpMovs(i.d, Reg(i.a) - Reg(i.b));
      } else if i.PUSH? {
        OpPush(i.r);
      } else if i.POP? {
        OpPop(i.r);
      } else {
        Jump(i);
      }
    }

    /** Executes until the program stops, without any check of its own; `steps` is a bound on the number of
        instructions it takes. */
    method Execute(ghost steps: nat)
      requires Valid() && error != UNDEFINED
      requires Run(m, Value(), steps).abort && Run(m, Value(), steps).error != UNDEFINED
      modifies this, stack, cache.entry, input, input.buffer
      ensures Valid() && Value() == Run(m, old(Value()), steps)
    {
      hide Exec, InputOk, Defined, Entries;
      ghost var k := steps;
      while !abort
        invariant Valid() && error != UNDEFINED && Run(m, Value(), k) == Run(m, old(Value()), steps)
        decreases k
      {
        ghost var s := Value();
        assert k > 0 && Run(m, s, k) == Run(m, Step(m, s), k - 1);
        StepUndefined(m, s);
        Perform(prog[pc]);
        pc := pc + 1;
        assert Value() == Step(m, s);
        assert Run(m, Step(m, s), k - 1).error != UNDEFINED;
        assert Step(m, s).abort ==> Run(m, Step(m, s), k - 1) == Step(m, s);
        k := k - 1;
      }
    }

    /** The input is to be read from its start. */
    method ResetInput()
      requires Valid()
      modifies this`high, input
      ensures Valid() && high == -1
    {
      hide Entries, Text, Place, Glyphs;
      input.Rewind();
      high := -1;
    }

    /** rpa_stat_init: forgets the cached results and sets up the registers and the input. */
    method Restart(off: nat)
      requires Valid() && Dated(cache.Value())
      modifies this, cache, input
      ensures Valid() && !abort && error == E_NONE && pc == off && records == old(records)
      ensures Initial(m, Value()) && Fresh(cache.Value()) && Dated(cache.Value())
    {
      hide Find, Bucket, InputOk, Dated, Entries, Text, Place, Glyphs;
      cache.Invalidate();
      ResetInput();
      rec := if keep then |records| - 1 else 0;
      sp := 0;
      top := -1;
      pc := off;
      abort := false;
      error := E_NONE;
    }

    /** rpa_stat_cachedisable */
    method CacheDisable(disable: bool)
      requires Valid()
      modifies cache
      ensures Valid() && cache.Value() == old(cache.Value()).(disabled := disable)
    {
      hide InputOk;
      cache.Disable(disable);
    }

    /** rpa_stat_exec: runs the program at `off`; a failed match is reported as 0 symbols, a stack that is too
        small as -1. */
    method Parse(off: nat, ghost starts: seq<int>, ghost f: nat, ghost r: nat) returns (ret: int)
      requires Valid() && Dated(cache.Value()) && r < |m.env.rules| && !CallOutcome(m.env, f, r, 0).NoFuel?
      requires Linked(m.code, m.env.rules, starts) && EntryAt(m.code, off) && |starts| == |m.env.rules| && starts[r] == off + 4
      modifies this, stack, cache, cache.entry, input, input.buffer
      ensures Valid() && Dated(cache.Value()) && -1 <= ret <= high
      ensures EntryNeed(m.env.rules, f, r) < m.stacksize ==> ret >= 0
      ensures var o := CallOutcome(m.env, f, r, 0);
        ret >= 0 ==> ret == (if o.Match? then o.top else 0) && (keep ==> records == old(records) + if o.Match? then o.recs else [])
      ensures !keep ==> records == old(records)
      ensures ret < 0 <==> error == E_NOMEM
    {
      hide Linked, CallOutcome, EntryNeed, Run, Step, EntryAt, InputOk, Initial, Fresh, Entries, Dated;
      ghost var o := CallOutcome(m.env, f, r, 0);
      Restart(off);
      ghost var s := Value();
      ghost var t := RunsRule(m, starts, f, r, o, s);
      ghost var steps: nat :| Run(m, s, steps) == t;
      RunDated(m, s, steps);
      if !keep { RunNoRecords(m, s, steps); }
      Execute(steps);
      if error != E_NONE {
        HighKept();
        return -1;
      }
      ret := r0;
      if ret < 0 { ret := 0; }
    }

    lemma HighKept()
      requires InputOk()
      ensures -1 <= high
    {
    }

    /** rpa_stat_exec_rid: the number of bytes up to where the match ended. */
    method ParseBytes(off: nat, ghost starts: seq<int>, ghost f: nat, ghost r: nat) returns (ret: int)
      requires Valid() && Dated(cache.Value()) && r < |m.env.rules| && !CallOutcome(m.env, f, r, 0).NoFuel?
      requires Linked(m.code, m.env.rules, starts) && EntryAt(m.code, off) && |starts| == |m.env.rules| && starts[r] == off + 4
      modifies this, stack, cache, cache.entry, input, input.buffer
      ensures Valid() && Dated(cache.Value()) && ret >= -1
      ensures EntryNeed(m.env.rules, f, r) < m.stacksize ==> ret >= 0
      ensures var o := CallOutcome(m.env, f, r, 0);
        ret >= 0 ==>
          ret == (if o.Match? then Place(input.code.enc, input.b, o.top) else 0)
          && (keep ==> records == old(records) + if o.Match? then o.recs else [])
      ensures !keep ==> records == old(records)
      ensures ret < 0 <==> error == E_NOMEM
    {
      hide Linked, CallOutcome, EntryNeed, EntryAt, Glyphs, Dated;
      var topsiz := Parse(off, starts, f, r);
      if topsiz < 0 {
        return -1;
      }
      if topsiz <= 0 {
        assert Place(input.code.enc, input.b, 0) == 0;
        return 0;
      }
      assert input.Reached(topsiz);
      ret := input.buffer[topsiz + 1].input;
    }
  }

  /** Compiling a grammar without left recursion and parsing a buffer with one of its rules, with or without
      the cache and on a stack of any size: the byte at which the match ends and the records of the match,
      which nest; or -1 if a rule that is referred to or the one to start with does not exist, or for want of
      stack. Of a grammar nested `deepest` levels deep every call takes four entries a level at most. */
  method CompileAndParse(rules: seq<Rule>, r: nat, code: Coding, b: seq<byte>, keep: bool, uncached: bool, stacksize: nat,
                         ghost ranks: seq<nat>, ghost most: nat, ghost deepest: nat)
      returns (ok: bool, ret: int, records: seq<Record>)
    requires forall k, d :: 0 <= k < |rules| && InsideAny(rules[k].body, d) ==> Shaped(d)
    requires forall k :: 0 <= k < |rules| ==> Depth(rules[k].body) <= deepest
    requires Ranked(rules, ranks, most) && stacksize > 0
    ensures ok <==> forall k, q: nat :: 0 <= k < |rules| && InsideAny(rules[k].body, Ref(q)) ==> q < |rules|
    ensures !ok || r >= |rules| ==> ret == -1 && records == []
    ensures ok && r < |rules| ==>
      var env := Env(rules, Glyphs(code, b), code.icase, keep);
      var o := CallOutcome(env, Calls(env, most), r, 0);
      !o.NoFuel?
      && (ret >= 0 ==>
        ret == (if o.Match? then Place(code.enc, b, o.top) else 0)
        && (keep ==> records == (if o.Match? then o.recs else []) && Nested(records, 0, if o.Match? then o.top else 0)))
      && (3 + 4 * ((most + 1) * (|env.input| + 1) * deepest) < stacksize ==> ret >= 0)
    ensures ret >= -1 && (!keep ==> records == [])
  {
    hide Linked, CallOutcome, EntryNeed, EntryAt, RefsExist, AllWellFormed, Nested, Room, Ranked, Glyphs, Place, Dated, Shaped, InsideAny;
    ghost var env := Env(rules, Glyphs(code, b), code.icase, keep);
    ghost var f := Calls(env, most);
    forall k | 0 <= k < |rules| ensures AllWellFormed(rules[k].body) { WellFormedIff(rules[k].body); }
    RefsExistIff(rules);
    var co := new RpaCompiler();
    ok := co.Compile(rules);
    ret, records := -1, [];
    var off := EntryOffset(rules, r);
    if ok && off >= 0 {
      CallDefined(env, ranks, most, r, 0);
      EnoughStack(env, most, r, deepest);
      var vm := new Vm(env, co.code, keep, stacksize, code, b);
      ghost var before := vm.cache.Value();
      vm.CacheDisable(uncached);
      DatedSwitch(before, uncached);
      ret := vm.ParseBytes(off, StartsOf(rules), f, r);
      records := vm.records;
      NestedNone(0);
      if CallOutcome(env, f, r, 0).Match? { ParseNested(env, f, r); }
    }
  }

  lemma EnoughStack(env: Env, most: nat, r: nat, deepest: nat)
    requires r < |env.rules| && forall k :: 0 <= k < |env.rules| ==> Depth(env.rules[k].body) <= deepest
    ensures EntryNeed(env.rules, Calls(env, most), r) <= 3 + 4 * ((most + 1) * (|env.input| + 1) * deepest)
  {
    hide EntryNeed;
    RoomIs(env, most, 0);
    var n := |env.input|;
    MulDist(n, 1, most + 1);
    assert Calls(env, most) + 1 == (most + 1) * (n + 1);
    EntryNeedIs(env.rules, Calls(env, most), r, deepest);
  }

  lemma DatedSwitch(c: Cache, disabled: bool)
    requires Dated(c)
    ensures Dated(c.(disabled := disabled))
  {
  }

  /** info->codeoff of a rule, -1 if there is no such rule. */
  method EntryOffset(rules: seq<Rule>, r: nat) returns (off: int)
    ensures off == if r < |rules| then EntryOf(rules, r) else -1
  {
    if r >= |rules| {
      return -1;
    }
    off := 0;
    var k := 0;
    while k < r
      invariant k <= r && off == EntryOf(rules, k)
    {
      off := off + 4 + RuleSize(rules[k]);
      k := k + 1;
    }
  }
}
