/** Parsing with a rule (rpa/rpastat.c): what a whole run of the machine returns and leaves behind. */
module RpaParse {
  import opened Arithmetic
  import opened RpaGrammar
  import opened RpaCache
  import opened RvmCpu
  import opened RpaCode
  import opened RpaRuns
  import opened RpaRecords

  /** The registers as rpa_stat_init leaves them, and a cache that knows nothing of this input. */
  predicate Initial(m: Machine, s: Cpu) {
    s.top == -1 && s.high == -1 && s.stack == [] && !s.abort && s.error == E_NONE && (m.env.keep ==> s.rec == |s.records| - 1) && Valid(s.cache)
  }

  ghost predicate Fresh(c: Cache) {
    Valid(c) && forall top: nat, ruleid: nat :: Find(c, top, ruleid).Miss?
  }

  /** The machine has stopped without an error and `o` is what it found. */
  predicate Finished(m: Machine, s: Cpu, t: Cpu, o: Outcome) {
    t.abort && t.error == E_NONE && t.stack == [] && t.r0 == ReturnOf(o, 0).0 && t.top == (if o.Match? then o.top else 0) <= t.high
    && (m.env.keep ==> t.records == s.records + ReturnOf(o, 0).1)
  }

  lemma ShiftIn(m: Machine, s: Cpu) returns (u: Cpu)
    requires EntryAt(m.code, s.pc) && s.top == -1 && s.high == -1 && !s.abort
    ensures Reaches(m, s, u) && u == s.(pc := s.pc + 1, top := 0, high := 0)
  {
    hide Reaches;
    Here(m, s);
    u := Next(m, s, s);
  }

  lemma Leave(m: Machine, s: Cpu, t: Cpu) returns (u: Cpu)
    requires Reaches(m, s, t) && Has(m.code, t.pc, EMITTAIL) && Has(m.code, t.pc + 1, EXT) && !t.abort
    ensures Reaches(m, s, u)
    ensures u == t.(pc := t.pc + 2, abort := true, records := if m.env.keep then Truncated(t.records, t.rec + 1) else t.records)
  {
    hide Reaches;
    u := Next(m, s, t);
    u := Next(m, s, u);
  }

  lemma FreshOk(env: Env, starts: seq<int>, c: Cache, high: int)
    requires Fresh(c) && |starts| == |env.rules|
    ensures CacheOk(env, starts, c, high)
  {
    hide Find;
  }

  /** Stack entries that are enough for calling rule `r` from its entry with `f` nested calls. */
  function EntryNeed(rules: seq<Rule>, f: nat, r: nat): nat
    requires r < |rules|
  {
    3 + ItemsNeed(rules, f, rules[r].body)
  }

  lemma EntryNeedIs(rules: seq<Rule>, f: nat, r: nat, deepest: nat)
    requires r < |rules| && forall k :: 0 <= k < |rules| ==> Depth(rules[k].body) <= deepest
    ensures EntryNeed(rules, f, r) <= 3 + 4 * ((f + 1) * deepest)
  {
    NeedOfItems(rules, f, rules[r].body, deepest);
    MulDist(f, 1, deepest);
  }

  /** A run on a stack that is large enough. */
  lemma RunsInside(m: Machine, starts: seq<int>, f: nat, r: nat, o: Outcome, s: Cpu) returns (u: Cpu)
    requires r < |m.env.rules| && o == CallOutcome(m.env, f, r, 0) && !o.NoFuel?
    requires EntryNeed(m.env.rules, f, r) < m.stacksize
    requires Linked(m.code, m.env.rules, starts) && Initial(m, s) && Fresh(s.cache)
    requires EntryAt(m.code, s.pc) && |starts| == |m.env.rules| && starts[r] == s.pc + 4
    ensures Reaches(m, s, u) && Finished(m, s, u, o)
  {
    hide Reaches, Linked, CacheOk, CallOutcome, ItemsNeed, Fresh;
    var t := ShiftIn(m, s);
    var c := DoBl(m, s, t, 3);
    FreshOk(m.env, starts, s.cache, 0);
    assert Ready(m, starts, c);
    var v := RuleRuns(m, starts, f, r, m.env.rules[r].body, o, s, c);
    u := Leave(m, s, v);
    if m.env.keep {
      assert c.records[..c.rec + 1] == s.records;
      assert v.records[..v.rec + 1] == s.records + ReturnOf(o, 0).1;
    }
  }

  /** Running the program of rule `r` from its entry, on a stack of any size, stops: with the outcome of
      calling the rule at the start of the input and the records of that call behind those that were there,
      or for want of stack, which does not happen if there is enough. */
  lemma RunsRule(m: Machine, starts: seq<int>, f: nat, r: nat, o: Outcome, s: Cpu) returns (u: Cpu)
    requires r < |m.env.rules| && o == CallOutcome(m.env, f, r, 0) && !o.NoFuel?
    requires Linked(m.code, m.env.rules, starts) && Initial(m, s) && Fresh(s.cache)
    requires EntryAt(m.code, s.pc) && |starts| == |m.env.rules| && starts[r] == s.pc + 4
    ensures Reaches(m, s, u) && u.abort && (Overflown(u) || Finished(m, s, u, o))
    ensures EntryNeed(m.env.rules, f, r) < m.stacksize ==> Finished(m, s, u, o)
  {
    hide Linked, CallOutcome, EntryNeed, Fresh, Run;
    if EntryNeed(m.env.rules, f, r) < m.stacksize {
      u := RunsInside(m, starts, f, r, o, s);
    } else {
      var size := m.stacksize + EntryNeed(m.env.rules, f, r) + 1;
      var big := m.(stacksize := size);
      var t := RunsInside(big, starts, f, r, o, s);
      var n :| Run(big, s, n) == t;
      u := Run(m, s, n);
      RunWider(m, size, s, n);
    }
  }

  /** The cache changes nothing: of two runs from the same registers, one of them with the cache switched off,
      and on stacks of any two sizes, that do not stop for want of stack, both stop with the same return value,
      at the same position, with the same stack and records. */
  lemma CacheTransparent(m: Machine, size: nat, starts: seq<int>, f: nat, r: nat, s: Cpu, u: Cpu, u': Cpu)
    requires r < |m.env.rules| && !CallOutcome(m.env, f, r, 0).NoFuel?
    requires Linked(m.code, m.env.rules, starts) && Initial(m, s) && Fresh(s.cache)
    requires EntryAt(m.code, s.pc) && |starts| == |m.env.rules| && starts[r] == s.pc + 4
    requires Reaches(m, s, u) && u.abort && !Overflown(u)
    requires Reaches(m.(stacksize := size), s.(cache := s.cache.(disabled := true)), u') && u'.abort && !Overflown(u')
    ensures u.r0 == u'.r0 && u.top == u'.top && u.error == u'.error && u.stack == u'.stack && (m.env.keep ==> u.records == u'.records)
  {
    hide Reaches, Linked, CallOutcome, EntryNeed;
    var o := CallOutcome(m.env, f, r, 0);
    var off, narrow := s.(cache := s.cache.(disabled := true)), m.(stacksize := size);
    var t := RunsRule(m, starts, f, r, o, s);
    StopsOnce(m, s, t, u);
    var t' := RunsRule(narrow, starts, f, r, o, off);
    StopsOnce(narrow, off, t', u');
  }

  /** The records a parse adds are one well-nested block of the size of the match, or none. */
  lemma ParseNested(env: Env, f: nat, r: nat)
    requires r < |env.rules| && CallOutcome(env, f, r, 0).Match?
    ensures var o := CallOutcome(env, f, r, 0);
      Nested(o.recs, 0, o.top) && (env.rules[r].emit && env.keep ==> |o.recs| >= 2 && BlockAt(o.recs, |o.recs| - 1) && o.recs[0] == Record(Start, r, 0, o.top))
  {
    ItemsNested(env, f, env.rules[r].body, 0);
    NestedRule(env, r, 0, ItemsOutcome(env, f, env.rules[r].body, 0));
  }
}
