/** The NFA of several expressions: one start state in front of closed regions, each with its accepting
    state at the end. */
module Expressions {
  import opened Automata
  import opened Transitions
  import opened Reachability
  import opened Languages
  import opened Fragments

  /** The states of one expression, from `lo` to its accepting state. */
  datatype Expr = Expr(lo: nat, start: nat, accept: nat)

  /** The expressions added so far, the words each of them accepts and its user data. */
  datatype Union = Union(exprs: seq<Expr>, langs: seq<Language>, data: seq<nat>)

  ghost predicate Closed(s: seq<State>, lo: nat, hi: nat) {
    && lo <= hi <= |s|
    && forall p :: lo <= p < hi ==>
         && Proper(s[p].trans)
         && (forall k :: 0 <= k < |s[p].trans| ==> lo <= s[p].trans[k].dst < hi)
         && (forall k :: 0 <= k < |s[p].etrans| ==> lo <= s[p].etrans[k] < hi)
  }

  ghost predicate IsExpression(s: seq<State>, e: Expr, lang: Language, data: nat) {
    && Closed(s, e.lo, e.accept + 1) && e.lo <= e.start < e.accept
    && s[e.accept].kind == AcceptKind && s[e.accept].userdata == data
    && (forall p :: e.lo <= p < e.accept ==> s[p].kind != AcceptKind)
    && forall w: Word :: Path(s, e.start, w, e.accept) <==> w in lang
  }

  ghost predicate UnionOf(s: seq<State>, u: Union) {
    && 0 < |u.exprs| == |u.langs| == |u.data|
    && |s| > 0 && s[0].trans == [] && s[0].kind == StartKind
    && |s[0].etrans| == |u.exprs|
    && u.exprs[0].lo == 1 && u.exprs[|u.exprs| - 1].accept + 1 == |s|
    && (forall i :: 0 <= i < |u.exprs| ==>
          IsExpression(s, u.exprs[i], u.langs[i], u.data[i]) && s[0].etrans[i] == u.exprs[i].start)
    && forall i :: 0 <= i < |u.exprs| - 1 ==> u.exprs[i].accept + 1 == u.exprs[i + 1].lo
  }

  lemma {:induction false} ClosedPath(s: seq<State>, t: seq<State>, lo: nat, hi: nat, p: int, w: Word, q: int, n: nat)
    requires Closed(s, lo, hi) && hi <= |t| && s[lo..hi] == t[lo..hi] && lo <= p < hi
    requires PathN(s, p, w, q, n)
    ensures lo <= q < hi && PathN(t, p, w, q, n)
    decreases n
  {
    assert s[p] == s[lo..hi][p - lo] == t[lo..hi][p - lo] == t[p];
    if n > 0 {
      if r: int :| EpsEdge(s, p, r) && PathN(s, r, w, q, n - 1) {
        ClosedPath(s, t, lo, hi, r, w, q, n - 1);
        assert EpsEdge(t, p, r);
      } else {
        var r: int :| SymEdge(s, p, w[0], r) && PathN(s, r, w[1..], q, n - 1);
        ClosedPath(s, t, lo, hi, r, w[1..], q, n - 1);
        assert SymEdge(t, p, w[0], r);
      }
    }
  }

  lemma ExpressionKept(s: seq<State>, t: seq<State>, e: Expr, lang: Language, data: nat)
    requires IsExpression(s, e, lang, data) && e.accept + 1 <= |t| && s[e.lo..e.accept + 1] == t[e.lo..e.accept + 1]
    ensures IsExpression(t, e, lang, data)
  {
    forall p | e.lo <= p < e.accept + 1
      ensures t[p] == s[p]
    {
      assert s[p] == s[e.lo..e.accept + 1][p - e.lo];
    }
    forall w: Word
      ensures Path(t, e.start, w, e.accept) <==> Path(s, e.start, w, e.accept)
    {
      if n: nat :| PathN(s, e.start, w, e.accept, n) {
        ClosedPath(s, t, e.lo, e.accept + 1, e.start, w, e.accept, n);
      }
      if n: nat :| PathN(t, e.start, w, e.accept, n) {
        ClosedPath(t, s, e.lo, e.accept + 1, e.start, w, e.accept, n);
      }
    }
  }

  lemma {:induction false} ExprOrder(s: seq<State>, u: Union, i: nat, j: nat)
    requires UnionOf(s, u) && i < j < |u.exprs|
    ensures u.exprs[i].accept < u.exprs[j].lo
    decreases j
  {
    if i < j - 1 {
      ExprOrder(s, u, i, j - 1);
      assert IsExpression(s, u.exprs[j - 1], u.langs[j - 1], u.data[j - 1]);
    }
  }

  lemma {:induction false} ExprOf(s: seq<State>, u: Union, q: nat, j: nat) returns (i: nat)
    requires UnionOf(s, u) && j < |u.exprs| && 1 <= q <= u.exprs[j].accept
    ensures i <= j && u.exprs[i].lo <= q <= u.exprs[i].accept
    decreases j
  {
    if u.exprs[j].lo <= q {
      i := j;
    } else {
      i := ExprOf(s, u, q, j - 1);
    }
  }

  lemma ExprAt(s: seq<State>, u: Union, i: nat)
    requires UnionOf(s, u) && i < |u.exprs|
    ensures |u.langs| == |u.exprs| == |u.data| == |s[0].etrans|
    ensures IsExpression(s, u.exprs[i], u.langs[i], u.data[i]) && s[0].etrans[i] == u.exprs[i].start
    ensures 1 <= u.exprs[i].lo <= u.exprs[i].start < u.exprs[i].accept < |s|
  {
    InsideStates(s, u, i);
  }

  /** A path from the start state goes through the start of one expression and stays inside it. */
  lemma StartPath(s: seq<State>, u: Union, w: Word, q: int, n: nat) returns (j: nat)
    requires UnionOf(s, u) && PathN(s, 0, w, q, n) && q != 0
    ensures j < |u.exprs| && u.exprs[j].lo <= q <= u.exprs[j].accept && Path(s, u.exprs[j].start, w, q)
  {
    hide PathN;
    var r := FirstStep(s, w, q, n);
    j :| 0 <= j < |s[0].etrans| && s[0].etrans[j] == r;
    ExprAt(s, u, j);
    ClosedPath(s, s, u.exprs[j].lo, u.exprs[j].accept + 1, r, w, q, n - 1);
  }

  lemma FirstStep(s: seq<State>, w: Word, q: int, n: nat) returns (r: int)
    requires |s| > 0 && s[0].trans == [] && PathN(s, 0, w, q, n) && q != 0
    ensures n > 0 && r in s[0].etrans && PathN(s, r, w, q, n - 1)
  {
    r :| EpsEdge(s, 0, r) && PathN(s, r, w, q, n - 1);
  }

  /** After a word the accepting state of an expression is among the NFA's states exactly when the word
      is in the language of that expression. */
  lemma UnionReach(s: seq<State>, u: Union, w: Word, i: nat)
    requires UnionOf(s, u) && i < |u.exprs| == |u.langs|
    ensures u.exprs[i].accept in Reach(s, 0, w) <==> w in u.langs[i]
  {
    hide UnionOf, PathN, Closed;
    ExprAt(s, u, i);
    var e := u.exprs[i];
    if Path(s, 0, w, e.accept) {
      var n: nat :| PathN(s, 0, w, e.accept, n);
      var j := StartPath(s, u, w, e.accept, n);
      ExprAt(s, u, j);
      if i < j {
        ExprOrder(s, u, i, j);
      } else if j < i {
        ExprOrder(s, u, j, i);
      }
    }
    if w in u.langs[i] {
      assert EpsEdge(s, 0, s[0].etrans[i]);
      PathEps(s, 0, e.start, w, e.accept);
    }
  }

  /** The accepting states of a union are those of its expressions. */
  lemma AcceptingState(s: seq<State>, u: Union, q: nat) returns (i: nat)
    requires UnionOf(s, u) && q < |s| && s[q].kind == AcceptKind
    ensures i < |u.exprs| && q == u.exprs[i].accept
  {
    i := ExprOf(s, u, q, |u.exprs| - 1);
    ExprAt(s, u, i);
  }

  /** The union accepts what one of its expressions accepts. */
  lemma UnionAccepts(s: seq<State>, u: Union, w: Word)
    requires UnionOf(s, u) && |u.exprs| == |u.langs|
    ensures Accepts(s, 0, w) <==> exists i :: 0 <= i < |u.langs| && w in u.langs[i]
  {
    hide UnionOf, IsExpression, Reach;
    if Accepts(s, 0, w) {
      var q: nat :| q in Reach(s, 0, w) && q < |s| && s[q].kind == AcceptKind;
      var i := AcceptingState(s, u, q);
      UnionReach(s, u, w, i);
    }
    if i :| 0 <= i < |u.langs| && w in u.langs[i] {
      UnionReach(s, u, w, i);
      AcceptKindAt(s, u, i);
      assert HasAccept(s, Reach(s, 0, w));
    }
  }

  lemma AcceptKindAt(s: seq<State>, u: Union, i: nat)
    requires UnionOf(s, u) && i < |u.exprs|
    ensures u.exprs[i].accept < |s| && s[u.exprs[i].accept].kind == AcceptKind && s[u.exprs[i].accept].userdata == u.data[i]
  {
    ExprAt(s, u, i);
  }

  /** Every destination exists and no transition leads to the start state. */
  lemma UnionValid(s: seq<State>, u: Union)
    requires UnionOf(s, u)
    ensures ValidNfa(s) && NoEdgeInto(s, 0)
  {
    forall p | 0 <= p < |s|
      ensures Proper(s[p].trans)
      ensures forall k :: 0 <= k < |s[p].trans| ==> 1 <= s[p].trans[k].dst < |s|
      ensures forall q :: q in s[p].etrans ==> 1 <= q < |s|
    {
      if p > 0 {
        var i := ExprOf(s, u, p, |u.exprs| - 1);
        InsideStates(s, u, i);
        assert IsExpression(s, u.exprs[i], u.langs[i], u.data[i]);
      } else {
        forall q | q in s[0].etrans
          ensures 1 <= q < |s|
        {
          var i :| 0 <= i < |s[0].etrans| && s[0].etrans[i] == q;
          InsideStates(s, u, i);
          assert IsExpression(s, u.exprs[i], u.langs[i], u.data[i]);
        }
      }
    }
  }

  lemma InsideStates(s: seq<State>, u: Union, i: nat)
    requires UnionOf(s, u) && i < |u.exprs|
    ensures 1 <= u.exprs[i].lo && u.exprs[i].accept < |s|
  {
    if i > 0 {
      ExprOrder(s, u, 0, i);
      assert IsExpression(s, u.exprs[0], u.langs[0], u.data[0]);
    }
    if i < |u.exprs| - 1 {
      ExprOrder(s, u, i, |u.exprs| - 1);
      assert IsExpression(s, u.exprs[|u.exprs| - 1], u.langs[|u.exprs| - 1], u.data[|u.exprs| - 1]);
    }
  }

  function Added(u: Union, e: Expr, lang: Language, data: nat): Union {
    Union(u.exprs + [e], u.langs + [lang], u.data + [data])
  }

  lemma EarlierExpression(s: seq<State>, t: seq<State>, u: Union, i: nat)
    requires UnionOf(s, u) && i < |u.exprs| && |s| <= |t| && t[1..|s|] == s[1..]
    ensures IsExpression(t, u.exprs[i], u.langs[i], u.data[i])
  {
    hide Closed, IsExpression;
    ExprAt(s, u, i);
    var f := u.exprs[i];
    forall p | f.lo <= p < f.accept + 1
      ensures t[p] == s[p]
    {
      assert t[p] == t[1..|s|][p - 1] && s[p] == s[1..][p - 1];
    }
    assert t[f.lo..f.accept + 1] == s[f.lo..f.accept + 1];
    ExpressionKept(s, t, f, u.langs[i], u.data[i]);
  }

  /** A closed expression behind the others, and one more empty transition from the start state. */
  lemma UnionAdd(s: seq<State>, t: seq<State>, u: Union, e: Expr, lang: Language, data: nat)
    requires UnionOf(s, u) && IsExpression(t, e, lang, data) && e.lo == |s| && e.accept + 1 == |t|
    requires t[0] == s[0].(etrans := s[0].etrans + [e.start]) && t[1..|s|] == s[1..]
    ensures UnionOf(t, Added(u, e, lang, data))
  {
    assert |s| <= |t|;
    hide Closed, IsExpression;
    var v := Added(u, e, lang, data);
    forall i | 0 <= i < |v.exprs|
      ensures IsExpression(t, v.exprs[i], v.langs[i], v.data[i]) && t[0].etrans[i] == v.exprs[i].start
    {
      if i < |u.exprs| { EarlierExpression(s, t, u, i); }
    }
  }

  /** A finished fragment whose ends were patched to an accepting state appended for them. */
  lemma FinishedExpression(s: seq<State>, t: seq<State>, lo: nat, start: nat, data: nat)
    requires Region(s, lo, |s|) && lo <= start < |s| && |t| == |s| + 1 && Redirected(s, t, lo, |s|, |s|)
    requires Region(t, lo, |t|) && (forall slot: Slot :: lo <= slot.uid < |t| ==> !OpenSlot(t, slot))
    requires t[|s|].trans == [] && t[|s|].etrans == [] && t[|s|].kind == AcceptKind && t[|s|].userdata == data
    requires forall p :: lo <= p < |s| ==> t[p].kind != AcceptKind
    ensures IsExpression(t, Expr(lo, start, |s|), FragLang(s, start), data)
  {
    forall p | lo <= p < |t|
      ensures Proper(t[p].trans)
      ensures forall k :: 0 <= k < |t[p].trans| ==> lo <= t[p].trans[k].dst < |t|
      ensures forall k :: 0 <= k < |t[p].etrans| ==> lo <= t[p].etrans[k] < |t|
    {
      assert Confined(t[p], lo, |t|);
      forall k | 0 <= k < |t[p].trans|
        ensures t[p].trans[k].dst != DANGLING
      {
        assert !OpenSlot(t, TransSlot(p, k));
      }
      forall k | 0 <= k < |t[p].etrans|
        ensures t[p].etrans[k] != DANGLING
      {
        assert !OpenSlot(t, EpsSlot(p, k));
      }
    }
    forall w: Word
      ensures Path(t, start, w, |s|) <==> w in FragLang(s, start)
    {
      if n: nat :| PathN(t, start, w, |s|, n) {
        var i, k := LeaveRegion(s, t, lo, |s|, |s|, start, w, |s|, n);
        NothingBehindAccept(t, |s|, w[i..], |s|, k);
        assert w[..i] == w;
      }
      if n: nat :| PathN(s, start, w, DANGLING, n) {
        ReachTarget(s, t, lo, |s|, |s|, start, w, n);
      }
    }
  }

  lemma {:induction false} SameEdgesPath(s: seq<State>, t: seq<State>, p: int, w: Word, q: int, n: nat)
    requires |s| == |t| && forall k :: 0 <= k < |s| ==> s[k].trans == t[k].trans && s[k].etrans == t[k].etrans
    requires PathN(s, p, w, q, n)
    ensures PathN(t, p, w, q, n)
    decreases n
  {
    if n > 0 {
      if r: int :| EpsEdge(s, p, r) && PathN(s, r, w, q, n - 1) {
        SameEdgesPath(s, t, r, w, q, n - 1);
        assert EpsEdge(t, p, r);
      } else {
        var r: int :| SymEdge(s, p, w[0], r) && PathN(s, r, w[1..], q, n - 1);
        SameEdgesPath(s, t, r, w[1..], q, n - 1);
        assert SymEdge(t, p, w[0], r);
      }
    }
  }

  /** The kind of a state that does not accept may change to another such kind. */
  lemma KindChanged(s: seq<State>, t: seq<State>, e: Expr, lang: Language, data: nat, p: nat, kind: StateKind)
    requires IsExpression(s, e, lang, data) && e.lo <= p < e.accept && kind != AcceptKind
    requires t == s[p := s[p].(kind := kind)]
    ensures IsExpression(t, e, lang, data)
  {
    forall w: Word
      ensures Path(t, e.start, w, e.accept) <==> Path(s, e.start, w, e.accept)
    {
      if n: nat :| PathN(s, e.start, w, e.accept, n) {
        SameEdgesPath(s, t, e.start, w, e.accept, n);
      }
      if n: nat :| PathN(t, e.start, w, e.accept, n) {
        SameEdgesPath(t, s, e.start, w, e.accept, n);
      }
    }
  }

  lemma NothingBehindAccept(t: seq<State>, p: nat, w: Word, q: int, n: nat)
    requires p < |t| && t[p].trans == [] && t[p].etrans == [] && PathN(t, p, w, q, n)
    ensures w == []
  {
  }
}
