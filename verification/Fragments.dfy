/** Thompson construction over fragments with open ends (rex/rexfragment.c). */
module Fragments {
  import opened Automata
  import opened Transitions
  import opened Database
  import opened Languages

  /** One transition of one state; the open ones are the ends of a fragment. */
  datatype Slot = TransSlot(uid: nat, index: nat) | EpsSlot(uid: nat, index: nat)

  datatype Fragment = Fragment(start: nat, dangling: seq<Slot>)

  predicate ValidSlot(s: seq<State>, slot: Slot) {
    match slot
    case TransSlot(uid, index) => uid < |s| && index < |s[uid].trans|
    case EpsSlot(uid, index) => uid < |s| && index < |s[uid].etrans|
  }

  function SlotDst(s: seq<State>, slot: Slot): int
    requires ValidSlot(s, slot)
  {
    match slot
    case TransSlot(uid, index) => s[uid].trans[index].dst
    case EpsSlot(uid, index) => s[uid].etrans[index]
  }

  predicate OpenSlot(s: seq<State>, slot: Slot) {
    ValidSlot(s, slot) && SlotDst(s, slot) == DANGLING
  }

  predicate InsideOrOpen(q: int, lo: nat, hi: nat) {
    q == DANGLING || lo <= q < hi
  }

  ghost predicate Confined(state: State, lo: nat, hi: nat) {
    && Proper(state.trans)
    && (forall k :: 0 <= k < |state.trans| ==> InsideOrOpen(state.trans[k].dst, lo, hi))
    && (forall k :: 0 <= k < |state.etrans| ==> InsideOrOpen(state.etrans[k], lo, hi))
  }

  /** The states from `lo` up to `hi` lead only to one another and to open ends. */
  ghost predicate Region(s: seq<State>, lo: nat, hi: nat) {
    lo <= hi <= |s| && forall p :: lo <= p < hi ==> Confined(s[p], lo, hi)
  }

  /** The dangling list names exactly the open ends of the region. */
  ghost predicate IsFragment(s: seq<State>, lo: nat, hi: nat, f: Fragment) {
    && Region(s, lo, hi) && lo <= f.start < hi
    && forall slot :: slot in f.dangling <==> OpenSlot(s, slot) && lo <= slot.uid < hi
  }

  /** The words from a state to an open end. */
  ghost function FragLang(s: seq<State>, start: nat): Language {
    iset w: Word | Path(s, start, w, DANGLING)
  }

  // ---- edges after patching --------------------------------------------------------------------

  /** In `t` the open ends of [lo, hi) lead to `target`, everything else there is as in `s`. */
  ghost predicate Redirected(s: seq<State>, t: seq<State>, lo: nat, hi: nat, target: nat) {
    && hi <= |s| && hi <= |t|
    && (forall p, q: int :: lo <= p < hi ==>
          (EpsEdge(t, p, q) <==> (q != DANGLING && EpsEdge(s, p, q)) || (q == target && EpsEdge(s, p, DANGLING))))
    && (forall p, c: Sym, q: int :: lo <= p < hi ==>
          (SymEdge(t, p, c, q) <==> (q != DANGLING && SymEdge(s, p, c, q)) || (q == target && SymEdge(s, p, c, DANGLING))))
  }

  lemma EdgesInside(s: seq<State>, lo: nat, hi: nat, p: int)
    requires Region(s, lo, hi) && lo <= p < hi
    ensures forall q: int :: EpsEdge(s, p, q) ==> InsideOrOpen(q, lo, hi)
    ensures forall c: Sym, q: int :: SymEdge(s, p, c, q) ==> InsideOrOpen(q, lo, hi)
  {
  }

  lemma {:induction false} NothingBehindOpenEnd(s: seq<State>, w: Word, q: int, n: nat)
    requires PathN(s, DANGLING, w, q, n)
    ensures n == 0 && q == DANGLING && w == []
  {
  }

  lemma EpsRedirected(s: seq<State>, t: seq<State>, lo: nat, hi: nat, target: nat, p: int, r: int)
    requires Region(s, lo, hi) && Redirected(s, t, lo, hi, target) && lo <= p < hi && EpsEdge(t, p, r)
    ensures (r == target && EpsEdge(s, p, DANGLING)) || (lo <= r < hi && EpsEdge(s, p, r))
  {
    EdgesInside(s, lo, hi, p);
  }

  lemma SymRedirected(s: seq<State>, t: seq<State>, lo: nat, hi: nat, target: nat, p: int, c: Sym, r: int)
    requires Region(s, lo, hi) && Redirected(s, t, lo, hi, target) && lo <= p < hi && SymEdge(t, p, c, r)
    ensures (r == target && SymEdge(s, p, c, DANGLING)) || (lo <= r < hi && SymEdge(s, p, c, r))
  {
    EdgesInside(s, lo, hi, p);
  }

  /** A path that leaves the redirected region leaves it through the target. */
  lemma {:induction false} LeaveRegion(s: seq<State>, t: seq<State>, lo: nat, hi: nat, target: nat, p: int, w: Word, q: int, n: nat)
      returns (i: nat, k: nat)
    requires Region(s, lo, hi) && Redirected(s, t, lo, hi, target) && !(lo <= target < hi)
    requires lo <= p < hi && !(lo <= q < hi) && PathN(t, p, w, q, n)
    ensures i <= |w| && k < n && Path(s, p, w[..i], DANGLING) && PathN(t, target, w[i..], q, k)
    decreases n
  {
    hide Region, Redirected, Path, EpsEdge, SymEdge;
    PathRefl(s, DANGLING);
    if r: int :| EpsEdge(t, p, r) && PathN(t, r, w, q, n - 1) {
      EpsRedirected(s, t, lo, hi, target, p, r);
      if r == target {
        i, k := 0, n - 1;
        PathEps(s, p, DANGLING, [], DANGLING);
        assert w[..0] == [] && w[0..] == w;
      } else {
        i, k := LeaveRegion(s, t, lo, hi, target, r, w, q, n - 1);
        PathEps(s, p, r, w[..i], DANGLING);
      }
    } else {
      var r: int :| SymEdge(t, p, w[0], r) && PathN(t, r, w[1..], q, n - 1);
      SymRedirected(s, t, lo, hi, target, p, w[0], r);
      if r == target {
        i, k := 1, n - 1;
        PathSym(s, p, w[0], DANGLING, [], DANGLING);
        assert w[..1] == [w[0]] + [];
      } else {
        i, k := LeaveRegion(s, t, lo, hi, target, r, w[1..], q, n - 1);
        PathSym(s, p, w[0], r, w[1..][..i], DANGLING);
        assert [w[0]] + w[1..][..i] == w[..i + 1];
        assert w[1..][i..] == w[i + 1..];
        i := i + 1;
      }
    }
  }

  lemma PathSym(s: seq<State>, p: int, c: Sym, r: int, w: Word, q: int)
    requires SymEdge(s, p, c, r) && Path(s, r, w, q)
    ensures Path(s, p, [c] + w, q)
  {
    var n: nat :| PathN(s, r, w, q, n);
    assert ([c] + w)[0] == c && ([c] + w)[1..] == w;
    assert PathN(s, p, [c] + w, q, n + 1);
  }

  /** A path to an open end becomes a path to the target. */
  lemma {:induction false} ReachTarget(s: seq<State>, t: seq<State>, lo: nat, hi: nat, target: nat, p: int, w: Word, n: nat)
    requires Region(s, lo, hi) && Redirected(s, t, lo, hi, target)
    requires lo <= p < hi && PathN(s, p, w, DANGLING, n)
    ensures Path(t, p, w, target)
    decreases n
  {
    EdgesInside(s, lo, hi, p);
    PathRefl(t, target);
    if r: int :| EpsEdge(s, p, r) && PathN(s, r, w, DANGLING, n - 1) {
      if r == DANGLING {
        NothingBehindOpenEnd(s, w, DANGLING, n - 1);
        PathEps(t, p, target, [], target);
      } else {
        ReachTarget(s, t, lo, hi, target, r, w, n - 1);
        PathEps(t, p, r, w, target);
      }
    } else {
      var r: int :| SymEdge(s, p, w[0], r) && PathN(s, r, w[1..], DANGLING, n - 1);
      if r == DANGLING {
        NothingBehindOpenEnd(s, w[1..], DANGLING, n - 1);
        PathSym(t, p, w[0], target, [], target);
        assert w == [w[0]] + [];
      } else {
        ReachTarget(s, t, lo, hi, target, r, w[1..], n - 1);
        PathSym(t, p, w[0], r, w[1..], target);
        assert w == [w[0]] + w[1..];
      }
    }
  }

  /** Paths inside a region depend on the region alone. */
  lemma {:induction false} RegionLocal(s: seq<State>, t: seq<State>, lo: nat, hi: nat, p: int, w: Word, n: nat)
    requires Region(s, lo, hi) && hi <= |t| && s[lo..hi] == t[lo..hi] && InsideOrOpen(p, lo, hi)
    requires PathN(s, p, w, DANGLING, n)
    ensures PathN(t, p, w, DANGLING, n)
    decreases n
  {
    if p == DANGLING {
      NothingBehindOpenEnd(s, w, DANGLING, n);
    } else {
      EdgesInside(s, lo, hi, p);
      assert s[p] == s[lo..hi][p - lo] == t[lo..hi][p - lo] == t[p];
      if r: int :| EpsEdge(s, p, r) && PathN(s, r, w, DANGLING, n - 1) {
        RegionLocal(s, t, lo, hi, r, w, n - 1);
        assert EpsEdge(t, p, r);
      } else {
        var r: int :| SymEdge(s, p, w[0], r) && PathN(s, r, w[1..], DANGLING, n - 1);
        RegionLocal(s, t, lo, hi, r, w[1..], n - 1);
        assert SymEdge(t, p, w[0], r);
      }
    }
  }

  lemma SameRegion(s: seq<State>, t: seq<State>, lo: nat, hi: nat)
    requires Region(s, lo, hi) && hi <= |t| && s[lo..hi] == t[lo..hi]
    ensures Region(t, lo, hi)
    ensures forall p: nat :: lo <= p < hi ==> FragLang(s, p) == FragLang(t, p)
  {
    forall p | lo <= p < hi
      ensures s[p] == t[p]
    {
      assert s[p] == s[lo..hi][p - lo];
    }
    forall p: nat, w: Word | lo <= p < hi
      ensures w in FragLang(s, p) <==> w in FragLang(t, p)
    {
      if n: nat :| PathN(s, p, w, DANGLING, n) {
        RegionLocal(s, t, lo, hi, p, w, n);
      }
      if n: nat :| PathN(t, p, w, DANGLING, n) {
        RegionLocal(t, s, lo, hi, p, w, n);
      }
    }
  }

  // ---- what the combinators do to the language -------------------------------------------------

  lemma CatLang(s: seq<State>, t: seq<State>, lo: nat, mid: nat, hi: nat, first: nat, second: nat)
    requires Region(s, lo, mid) && Region(s, mid, hi) && lo <= first < mid <= second < hi
    requires Redirected(s, t, lo, mid, second) && hi <= |t| && s[mid..hi] == t[mid..hi]
    ensures FragLang(t, first) == Concat(FragLang(s, first), FragLang(s, second))
  {
    SameRegion(s, t, mid, hi);
    forall w: Word
      ensures w in FragLang(t, first) <==> w in Concat(FragLang(s, first), FragLang(s, second))
    {
      if n: nat :| PathN(t, first, w, DANGLING, n) {
        var i, k := LeaveRegion(s, t, lo, mid, second, first, w, DANGLING, n);
        assert w[i..] in FragLang(t, second);
        assert w[..i] in FragLang(s, first);
      }
      if w in Concat(FragLang(s, first), FragLang(s, second)) {
        var u, v := ConcatSplit(FragLang(s, first), FragLang(s, second), w);
        var n: nat :| PathN(s, first, u, DANGLING, n);
        ReachTarget(s, t, lo, mid, second, first, u, n);
        assert v in FragLang(t, second);
        PathConcat(t, first, u, second, v, DANGLING);
      }
    }
  }

  /** A state with empty transitions to `a` and `b` and nothing else. */
  ghost predicate Fork(t: seq<State>, m: nat, a: int, b: int) {
    m < |t| && t[m].trans == [] && forall q: int :: q in t[m].etrans <==> q == a || q == b
  }

  lemma ForkPath(t: seq<State>, m: nat, a: int, b: int, w: Word)
    requires Fork(t, m, a, b)
    ensures Path(t, m, w, DANGLING) <==> Path(t, a, w, DANGLING) || Path(t, b, w, DANGLING)
  {
    if n: nat :| PathN(t, m, w, DANGLING, n) {
      var r: int :| EpsEdge(t, m, r) && PathN(t, r, w, DANGLING, n - 1);
      assert Path(t, r, w, DANGLING);
    }
    assert EpsEdge(t, m, a) && EpsEdge(t, m, b);
    if Path(t, a, w, DANGLING) {
      PathEps(t, m, a, w, DANGLING);
    }
    if Path(t, b, w, DANGLING) {
      PathEps(t, m, b, w, DANGLING);
    }
  }

  lemma OpenEndPath(t: seq<State>, w: Word)
    ensures Path(t, DANGLING, w, DANGLING) <==> w == []
  {
    PathRefl(t, DANGLING);
    if n: nat :| PathN(t, DANGLING, w, DANGLING, n) {
      NothingBehindOpenEnd(t, w, DANGLING, n);
    }
  }

  lemma OptLang(s: seq<State>, t: seq<State>, lo: nat, hi: nat, start: nat)
    requires Region(s, lo, hi) && lo <= start < hi < |t| && s[lo..hi] == t[lo..hi] && Fork(t, hi, DANGLING, start)
    ensures FragLang(t, hi) == Maybe(FragLang(s, start))
  {
    SameRegion(s, t, lo, hi);
    forall w: Word
      ensures w in FragLang(t, hi) <==> w in Maybe(FragLang(s, start))
    {
      ForkPath(t, hi, DANGLING, start, w);
      OpenEndPath(t, w);
      assert w in FragLang(t, start) <==> w in FragLang(s, start);
    }
  }

  lemma AltLang(s: seq<State>, t: seq<State>, lo: nat, mid: nat, hi: nat, first: nat, second: nat)
    requires Region(s, lo, mid) && Region(s, mid, hi) && lo <= first < mid <= second < hi < |t|
    requires s[lo..hi] == t[lo..hi] && Fork(t, hi, first, second)
    ensures FragLang(t, hi) == FragLang(s, first) + FragLang(s, second)
  {
    assert s[lo..mid] == s[lo..hi][..mid - lo] && t[lo..mid] == t[lo..hi][..mid - lo];
    assert s[mid..hi] == s[lo..hi][mid - lo..] && t[mid..hi] == t[lo..hi][mid - lo..];
    SameRegion(s, t, lo, mid);
    SameRegion(s, t, mid, hi);
    forall w: Word
      ensures w in FragLang(t, hi) <==> w in FragLang(s, first) + FragLang(s, second)
    {
      ForkPath(t, hi, first, second, w);
      assert w in FragLang(t, first) <==> w in FragLang(s, first);
      assert w in FragLang(t, second) <==> w in FragLang(s, second);
    }
  }

  /** Every way round the loop is one more copy. */
  lemma {:induction false} LoopCopies(s: seq<State>, t: seq<State>, lo: nat, hi: nat, start: nat, w: Word, n: nat) returns (k: nat)
    requires Region(s, lo, hi) && lo <= start < hi < |t| && Redirected(s, t, lo, hi, hi) && Fork(t, hi, DANGLING, start)
    requires PathN(t, hi, w, DANGLING, n)
    ensures w in Power(FragLang(s, start), k)
    decreases n
  {
    hide Power;
    var r: int :| EpsEdge(t, hi, r) && PathN(t, r, w, DANGLING, n - 1);
    if r == DANGLING {
      NothingBehindOpenEnd(t, w, DANGLING, n - 1);
      PowerZero(FragLang(s, start));
      k := 0;
    } else {
      var i, m := LeaveRegion(s, t, lo, hi, hi, start, w, DANGLING, n - 1);
      k := LoopCopies(s, t, lo, hi, start, w[i..], m);
      assert w[..i] in FragLang(s, start);
      PowerCons(FragLang(s, start), k, w[..i], w[i..]);
      assert w[..i] + w[i..] == w;
      k := k + 1;
    }
  }

  lemma {:induction false} CopiesLoop(s: seq<State>, t: seq<State>, lo: nat, hi: nat, start: nat, w: Word, k: nat)
    requires Region(s, lo, hi) && lo <= start < hi < |t| && Redirected(s, t, lo, hi, hi) && Fork(t, hi, DANGLING, start)
    requires w in Power(FragLang(s, start), k)
    ensures Path(t, hi, w, DANGLING)
    decreases k
  {
    ForkPath(t, hi, DANGLING, start, w);
    OpenEndPath(t, w);
    if k > 0 {
      var u, v := ConcatSplit(FragLang(s, start), Power(FragLang(s, start), k - 1), w);
      CopiesLoop(s, t, lo, hi, start, v, k - 1);
      var n: nat :| PathN(s, start, u, DANGLING, n);
      ReachTarget(s, t, lo, hi, hi, start, u, n);
      PathConcat(t, start, u, hi, v, DANGLING);
    }
  }

  lemma StarLang(s: seq<State>, t: seq<State>, lo: nat, hi: nat, start: nat)
    requires Region(s, lo, hi) && lo <= start < hi < |t| && Redirected(s, t, lo, hi, hi) && Fork(t, hi, DANGLING, start)
    ensures FragLang(t, hi) == Powers(FragLang(s, start), 0, None)
  {
    var a := FragLang(s, start);
    forall w: Word
      ensures w in FragLang(t, hi) <==> w in Powers(a, 0, None)
    {
      if n: nat :| PathN(t, hi, w, DANGLING, n) {
        var k := LoopCopies(s, t, lo, hi, start, w, n);
        assert InRange(k, 0, None);
      }
      if w in Powers(a, 0, None) {
        var k: nat :| InRange(k, 0, None) && w in Power(a, k);
        CopiesLoop(s, t, lo, hi, start, w, k);
      }
    }
  }

  /** One pass through the region, then the loop state. */
  lemma PassThenLoop(s: seq<State>, t: seq<State>, lo: nat, hi: nat, start: nat)
    requires Region(s, lo, hi) && lo <= start < hi < |t| && Redirected(s, t, lo, hi, hi)
    ensures FragLang(t, start) == Concat(FragLang(s, start), FragLang(t, hi))
  {
    var a := FragLang(s, start);
    forall w: Word
      ensures w in FragLang(t, start) <==> w in Concat(a, FragLang(t, hi))
    {
      if n: nat :| PathN(t, start, w, DANGLING, n) {
        var i, k := LeaveRegion(s, t, lo, hi, hi, start, w, DANGLING, n);
        assert w[..i] in a && w[i..] in FragLang(t, hi);
      }
      if w in Concat(a, FragLang(t, hi)) {
        var u, v := ConcatSplit(a, FragLang(t, hi), w);
        var n: nat :| PathN(s, start, u, DANGLING, n);
        ReachTarget(s, t, lo, hi, hi, start, u, n);
        PathConcat(t, start, u, hi, v, DANGLING);
      }
    }
  }

  lemma PlusLang(s: seq<State>, t: seq<State>, lo: nat, hi: nat, start: nat)
    requires Region(s, lo, hi) && lo <= start < hi < |t| && Redirected(s, t, lo, hi, hi) && Fork(t, hi, DANGLING, start)
    ensures FragLang(t, start) == Powers(FragLang(s, start), 1, None)
  {
    hide FragLang, Power, Powers, Concat;
    StarLang(s, t, lo, hi, start);
    PassThenLoop(s, t, lo, hi, start);
    var a := FragLang(s, start);
    PowersExact(a, 1);
    PowerOne(a);
    PowersThenStar(a, 1, 1);
  }

  // ---- the operations --------------------------------------------------------------------------

  /** `state` with the listed ends of state number `p` set to `uid`. */
  ghost function PatchedState(state: State, p: nat, dangling: seq<Slot>, uid: nat): State {
    state.(trans := seq(|state.trans|, k requires 0 <= k < |state.trans| =>
                          if TransSlot(p, k) in dangling then state.trans[k].(dst := uid) else state.trans[k]),
           etrans := seq(|state.etrans|, k requires 0 <= k < |state.etrans| =>
                           if EpsSlot(p, k) in dangling then uid else state.etrans[k]))
  }

  ghost function Patched(s: seq<State>, dangling: seq<Slot>, uid: nat): seq<State> {
    seq(|s|, p requires 0 <= p < |s| => PatchedState(s[p], p, dangling, uid))
  }

  lemma PatchNone(s: seq<State>, uid: nat)
    ensures Patched(s, [], uid) == s
  {
    forall p | 0 <= p < |s|
      ensures PatchedState(s[p], p, [], uid) == s[p]
    {
    }
  }

  lemma PatchStays(s: seq<State>, p: nat, dangling: seq<Slot>, uid: nat)
    requires p < |s| && forall slot :: slot in dangling ==> slot.uid != p
    ensures Patched(s, dangling, uid)[p] == s[p]
  {
    assert PatchedState(s[p], p, dangling, uid).trans == s[p].trans;
    assert PatchedState(s[p], p, dangling, uid).etrans == s[p].etrans;
  }

  /** Sets the destination of every listed end. */
  method Patch(db: RexDb, dangling: seq<Slot>, uid: nat)
    requires forall i :: 0 <= i < |dangling| ==> ValidSlot(db.states, dangling[i])
    modifies db`states
    ensures db.states == Patched(old(db.states), dangling, uid)
  {
    ghost var s := db.states;
    PatchNone(s, uid);
    for i := 0 to |dangling|
      invariant db.states == Patched(s, dangling[..i], uid)
    {
      assert dangling[..i + 1] == dangling[..i] + [dangling[i]];
      PatchOne(s, dangling[..i], dangling[i], uid);
      assert ValidSlot(s, dangling[i]);
      match dangling[i] {
        case TransSlot(p, k) =>
          var state := db.states[p];
          db.states := db.states[p := state.(trans := state.trans[k := state.trans[k].(dst := uid)])];
        case EpsSlot(p, k) =>
          var state := db.states[p];
          db.states := db.states[p := state.(etrans := state.etrans[k := uid])];
      }
    }
    assert dangling[..|dangling|] == dangling;
  }

  ghost function PatchSlot(s: seq<State>, slot: Slot, uid: nat): seq<State>
    requires ValidSlot(s, slot)
  {
    match slot
    case TransSlot(p, k) => s[p := s[p].(trans := s[p].trans[k := s[p].trans[k].(dst := uid)])]
    case EpsSlot(p, k) => s[p := s[p].(etrans := s[p].etrans[k := uid])]
  }

  lemma PatchOne(s: seq<State>, dangling: seq<Slot>, slot: Slot, uid: nat)
    requires ValidSlot(s, slot)
    ensures ValidSlot(Patched(s, dangling, uid), slot)
    ensures PatchSlot(Patched(s, dangling, uid), slot, uid) == Patched(s, dangling + [slot], uid)
  {
    var a, b := PatchSlot(Patched(s, dangling, uid), slot, uid), Patched(s, dangling + [slot], uid);
    forall p | 0 <= p < |s|
      ensures a[p] == b[p]
    {
      assert a[p].trans == b[p].trans;
      assert a[p].etrans == b[p].etrans;
    }
  }

  /** Patching the ends of a fragment redirects its open edges to `uid`. */
  lemma PatchRedirects(s: seq<State>, lo: nat, hi: nat, f: Fragment, uid: nat)
    requires IsFragment(s, lo, hi, f)
    ensures Redirected(s, Patched(s, f.dangling, uid), lo, hi, uid)
    ensures forall p :: 0 <= p < |s| && !(lo <= p < hi) ==> Patched(s, f.dangling, uid)[p] == s[p]
  {
    var t := Patched(s, f.dangling, uid);
    forall p | 0 <= p < |s| && !(lo <= p < hi)
      ensures t[p] == s[p]
    {
      PatchStays(s, p, f.dangling, uid);
    }
    forall p, q: int | lo <= p < hi
      ensures EpsEdge(t, p, q) <==> (q != DANGLING && EpsEdge(s, p, q)) || (q == uid && EpsEdge(s, p, DANGLING))
    {
      PatchedEps(s, lo, hi, f, uid, p, q);
    }
    forall p, c: Sym, q: int | lo <= p < hi
      ensures SymEdge(t, p, c, q) <==> (q != DANGLING && SymEdge(s, p, c, q)) || (q == uid && SymEdge(s, p, c, DANGLING))
    {
      PatchedSym(s, lo, hi, f, uid, p, c, q);
    }
  }

  lemma PatchedEps(s: seq<State>, lo: nat, hi: nat, f: Fragment, uid: nat, p: nat, q: int)
    requires IsFragment(s, lo, hi, f) && lo <= p < hi
    ensures var t := Patched(s, f.dangling, uid);
      EpsEdge(t, p, q) <==> (q != DANGLING && EpsEdge(s, p, q)) || (q == uid && EpsEdge(s, p, DANGLING))
  {
    var t := Patched(s, f.dangling, uid);
    forall k | 0 <= k < |s[p].etrans|
      ensures t[p].etrans[k] == if s[p].etrans[k] == DANGLING then uid else s[p].etrans[k]
    {
      assert EpsSlot(p, k) in f.dangling <==> OpenSlot(s, EpsSlot(p, k));
    }
    if k :| 0 <= k < |s[p].etrans| && s[p].etrans[k] == q {
      assert t[p].etrans[k] in t[p].etrans;
    }
    if k :| 0 <= k < |s[p].etrans| && s[p].etrans[k] == DANGLING {
      assert t[p].etrans[k] in t[p].etrans;
    }
  }

  lemma PatchedSym(s: seq<State>, lo: nat, hi: nat, f: Fragment, uid: nat, p: nat, c: Sym, q: int)
    requires IsFragment(s, lo, hi, f) && lo <= p < hi
    ensures var t := Patched(s, f.dangling, uid);
      SymEdge(t, p, c, q) <==> (q != DANGLING && SymEdge(s, p, c, q)) || (q == uid && SymEdge(s, p, c, DANGLING))
  {
    var t := Patched(s, f.dangling, uid);
    forall k | 0 <= k < |s[p].trans|
      ensures t[p].trans[k] == if s[p].trans[k].dst == DANGLING then s[p].trans[k].(dst := uid) else s[p].trans[k]
    {
      assert TransSlot(p, k) in f.dangling <==> OpenSlot(s, TransSlot(p, k));
    }
    if k :| 0 <= k < |s[p].trans| && Fires(s[p].trans[k], c) && s[p].trans[k].dst == q {
      assert Fires(t[p].trans[k], c);
    }
    if k :| 0 <= k < |s[p].trans| && Fires(s[p].trans[k], c) && s[p].trans[k].dst == DANGLING {
      assert Fires(t[p].trans[k], c);
    }
  }

  /** Patching the region [lo, mid) of [lo, hi) to a state of [lo, hi): only the ends of the other part
      stay open. */
  lemma PatchedRegion(s: seq<State>, lo: nat, mid: nat, hi: nat, f: Fragment, uid: nat)
    requires IsFragment(s, lo, mid, f) && mid <= hi <= |s| && lo <= uid < hi
    requires forall p :: mid <= p < hi ==> Confined(s[p], lo, hi)
    ensures Region(Patched(s, f.dangling, uid), lo, hi)
    ensures forall slot: Slot :: lo <= slot.uid < hi ==>
              (OpenSlot(Patched(s, f.dangling, uid), slot) <==> OpenSlot(s, slot) && mid <= slot.uid)
  {
    var t := Patched(s, f.dangling, uid);
    PatchRedirects(s, lo, mid, f, uid);
    forall p | lo <= p < mid
      ensures Confined(t[p], lo, hi)
      ensures forall k :: 0 <= k < |t[p].trans| ==> t[p].trans[k].dst != DANGLING
      ensures forall k :: 0 <= k < |t[p].etrans| ==> t[p].etrans[k] != DANGLING
    {
      assert Confined(s[p], lo, mid);
      forall k | 0 <= k < |t[p].trans|
        ensures lo <= t[p].trans[k].dst < hi && t[p].trans[k].lowin <= t[p].trans[k].highin
      {
        assert TransSlot(p, k) in f.dangling <==> OpenSlot(s, TransSlot(p, k));
      }
      forall k | 0 <= k < |t[p].etrans|
        ensures lo <= t[p].etrans[k] < hi
      {
        assert EpsSlot(p, k) in f.dangling <==> OpenSlot(s, EpsSlot(p, k));
      }
    }
    forall slot: Slot | lo <= slot.uid < hi
      ensures OpenSlot(t, slot) <==> OpenSlot(s, slot) && mid <= slot.uid
    {
    }
  }

  // Every operation works on fragments at the end of the array of states and leaves one there.

  /** A fragment of one state, its open transitions the ends. */
  method Create(db: RexDb, uid: nat) returns (frag: Fragment)
    requires uid < |db.states|
    ensures frag.start == uid
    ensures forall slot :: slot in frag.dangling <==> OpenSlot(db.states, slot) && slot.uid == uid
  {
    var dangling := StateDangling(db, uid);
    frag := Fragment(uid, dangling);
  }

  method StateDangling(db: RexDb, uid: nat) returns (dangling: seq<Slot>)
    requires uid < |db.states|
    ensures forall slot :: slot in dangling <==> OpenSlot(db.states, slot) && slot.uid == uid
  {
    dangling := [];
    var state := db.states[uid];
    for i := 0 to |state.trans|
      invariant forall slot :: slot in dangling <==>
                  OpenSlot(db.states, slot) && slot.uid == uid && slot.TransSlot? && slot.index < i
    {
      if state.trans[i].dst == DANGLING {
        dangling := dangling + [TransSlot(uid, i)];
      }
    }
    for i := 0 to |state.etrans|
      invariant forall slot :: slot in dangling <==>
                  OpenSlot(db.states, slot) && slot.uid == uid && (slot.TransSlot? || slot.index < i)
    {
      if state.etrans[i] == DANGLING {
        dangling := dangling + [EpsSlot(uid, i)];
      }
    }
  }

  /** The ends of `frag1` lead to the start of `frag2`. */
  method CatFragments(db: RexDb, frag1: Fragment, frag2: Fragment, ghost lo: nat, ghost mid: nat) returns (frag: Fragment)
    requires IsFragment(db.states, lo, mid, frag1) && IsFragment(db.states, mid, |db.states|, frag2)
    modifies db`states
    ensures IsFragment(db.states, lo, |db.states|, frag) && Extends(old(db.states), db.states, lo)
    ensures |db.states| == |old(db.states)|
    ensures FragLang(db.states, frag.start) == Concat(FragLang(old(db.states), frag1.start), FragLang(old(db.states), frag2.start))
    ensures frag == Fragment(frag1.start, frag2.dangling) && db.states[mid..] == old(db.states)[mid..]
    ensures Redirected(old(db.states), db.states, lo, mid, frag2.start)
  {
    ghost var s := db.states;
    PatchRedirects(s, lo, mid, frag1, frag2.start);
    PatchedRegion(s, lo, mid, |s|, frag1, frag2.start) by {
      forall p | mid <= p < |s|
        ensures Confined(s[p], lo, |s|)
      {
        assert Confined(s[p], mid, |s|);
      }
    }
    Patch(db, frag1.dangling, frag2.start);
    frag := frag2.(start := frag1.start);
    assert s[mid..|s|] == db.states[mid..|s|];
    CatLang(s, db.states, lo, mid, |s|, frag1.start, frag2.start);
  }

  /** States below `lo` are untouched, others keep their kind, new ones have none. */
  ghost predicate Extends(s: seq<State>, t: seq<State>, lo: nat) {
    && lo <= |s| <= |t| && t[..lo] == s[..lo]
    && (forall p :: 0 <= p < |s| ==> t[p].kind == s[p].kind && t[p].userdata == s[p].userdata)
    && (forall p :: |s| <= p < |t| ==> t[p].kind == NoKind)
  }

  lemma WiderRegion(s: seq<State>, lo: nat, mid: nat, hi: nat, p: nat)
    requires Region(s, lo, mid) && mid <= hi && lo <= p < mid
    ensures Confined(s[p], lo, hi)
  {
    assert Confined(s[p], lo, mid);
  }

  /** Appends a state with empty transitions to `a` and then to `b`. */
  method AddFork(db: RexDb, a: int, b: int, ghost lo: nat) returns (uid: nat)
    requires lo <= |db.states|
    modifies db`states
    ensures uid == |old(db.states)| && |db.states| == uid + 1 && db.states[..uid] == old(db.states)
    ensures db.states[uid] == NewState(NoKind).(etrans := [a, b]) && Fork(db.states, uid, a, b)
    ensures Extends(old(db.states), db.states, lo)
  {
    uid := db.CreateState(NoKind);
    db.AddTransitionE(uid, a);
    db.AddTransitionE(uid, b);
    assert db.states[..uid] == old(db.states);
  }

  /** A fork in front of a region that leads into it: the region and the fork are a region. */
  lemma ForkRegion(s: seq<State>, t: seq<State>, lo: nat, hi: nat)
    requires Region(s, lo, hi) && |s| == hi && |t| == hi + 1 && t[..hi] == s && Confined(t[hi], lo, hi + 1)
    ensures Region(t, lo, hi + 1)
    ensures forall slot: Slot :: slot.uid < hi ==> (OpenSlot(t, slot) <==> OpenSlot(s, slot))
  {
    forall p | lo <= p < hi + 1
      ensures Confined(t[p], lo, hi + 1)
    {
      if p < hi {
        WiderRegion(s, lo, hi, hi + 1, p);
        assert t[p] == s[p];
      }
    }
    forall p | 0 <= p < hi
      ensures t[p] == s[p]
    {
    }
  }

  /** An empty transition round the fragment. */
  method OptFragment(db: RexDb, frag1: Fragment, ghost lo: nat) returns (frag: Fragment)
    requires IsFragment(db.states, lo, |db.states|, frag1)
    modifies db`states
    ensures IsFragment(db.states, lo, |db.states|, frag) && Extends(old(db.states), db.states, lo)
    ensures FragLang(db.states, frag.start) == Maybe(FragLang(old(db.states), frag1.start))
  {
    ghost var s := db.states;
    var state2 := AddFork(db, DANGLING, frag1.start, lo);
    ForkRegion(s, db.states, lo, |s|);
    OptLang(s, db.states, lo, |s|, frag1.start);
    var ends := StateDangling(db, state2);
    frag := Fragment(state2, frag1.dangling + ends);
  }

  /** A fork in front, and the ends lead back to it. */
  method MopFragment(db: RexDb, frag1: Fragment, ghost lo: nat) returns (frag: Fragment)
    requires IsFragment(db.states, lo, |db.states|, frag1)
    modifies db`states
    ensures IsFragment(db.states, lo, |db.states|, frag) && Extends(old(db.states), db.states, lo)
    ensures FragLang(db.states, frag.start) == Powers(FragLang(old(db.states), frag1.start), 0, None)
  {
    ghost var s := db.states;
    var state2 := AddFork(db, DANGLING, frag1.start, lo);
    frag := Create(db, state2);
    ghost var t := db.states;
    LoopReady(s, t, lo, frag1);
    Patch(db, frag1.dangling, frag.start);
    StarLang(s, db.states, lo, |s|, frag1.start);
  }

  /** A fork behind: the ends lead to it, and it leads back or on. */
  method MulFragment(db: RexDb, frag1: Fragment, ghost lo: nat) returns (frag: Fragment)
    requires IsFragment(db.states, lo, |db.states|, frag1)
    modifies db`states
    ensures IsFragment(db.states, lo, |db.states|, frag) && Extends(old(db.states), db.states, lo)
    ensures FragLang(db.states, frag.start) == Powers(FragLang(old(db.states), frag1.start), 1, None)
  {
    ghost var s := db.states;
    var state2 := AddFork(db, frag1.start, DANGLING, lo);
    var frag2 := Create(db, state2);
    ghost var t := db.states;
    LoopReady(s, t, lo, frag1);
    Patch(db, frag1.dangling, frag2.start);
    frag := frag2.(start := frag1.start);
    PlusLang(s, db.states, lo, |s|, frag1.start);
  }

  /** Patching the ends to a fork that was appended for them. */
  lemma LoopReady(s: seq<State>, t: seq<State>, lo: nat, f: Fragment)
    requires IsFragment(s, lo, |s|, f) && |t| == |s| + 1 && t[..|s|] == s
    requires Fork(t, |s|, DANGLING, f.start)
    ensures IsFragment(t, lo, |s|, f)
    ensures var u := Patched(t, f.dangling, |s|);
      && Redirected(s, u, lo, |s|, |s|) && Region(u, lo, |u|) && Fork(u, |s|, DANGLING, f.start) && u[..lo] == s[..lo]
      && forall slot: Slot :: lo <= slot.uid <= |s| ==> (OpenSlot(u, slot) <==> OpenSlot(t, slot) && slot.uid == |s|)
  {
    assert s[lo..|s|] == t[lo..|s|];
    SameRegion(s, t, lo, |s|);
    forall p | 0 <= p < |s|
      ensures t[p] == s[p]
    {
    }
    PatchRedirects(t, lo, |s|, f, |s|);
    forall k | 0 <= k < |t[|s|].etrans|
      ensures InsideOrOpen(t[|s|].etrans[k], lo, |s| + 1)
    {
      assert t[|s|].etrans[k] in t[|s|].etrans;
    }
    PatchedRegion(t, lo, |s|, |s| + 1, f, |s|);
  }

  method AltFragments(db: RexDb, frag1: Fragment, frag2: Fragment, ghost lo: nat, ghost mid: nat) returns (frag: Fragment)
    requires IsFragment(db.states, lo, mid, frag1) && IsFragment(db.states, mid, |db.states|, frag2)
    modifies db`states
    ensures IsFragment(db.states, lo, |db.states|, frag) && Extends(old(db.states), db.states, lo)
    ensures FragLang(db.states, frag.start) == FragLang(old(db.states), frag1.start) + FragLang(old(db.states), frag2.start)
  {
    ghost var s := db.states;
    var state2 := AddFork(db, frag1.start, frag2.start, lo);
    forall p | lo <= p < |s|
      ensures Confined(s[p], lo, |s|)
    {
      if p < mid {
        WiderRegion(s, lo, mid, |s|, p);
      } else {
        assert Confined(s[p], mid, |s|);
      }
    }
    ForkRegion(s, db.states, lo, |s|);
    assert s[lo..|s|] == db.states[lo..|s|];
    AltLang(s, db.states, lo, mid, |s|, frag1.start, frag2.start);
    frag := Fragment(state2, frag1.dangling + frag2.dangling);
  }
}
