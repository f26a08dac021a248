/** Finding one's way in the array of records (rpa/rparecord.c): the array of a parse, read as a forest. */
module RpaRecordTree {
  import opened RpaGrammar
  import opened RpaRecords

  /** Blocks open before record `i`. */
  function Level(recs: seq<Record>, i: nat): int
    requires i <= |recs|
  {
    if i == 0 then 0 else Level(recs, i - 1) + if recs[i - 1].mark.Start? then 1 else -1
  }

  predicate Balanced(recs: seq<Record>) {
    (forall i :: 0 <= i <= |recs| ==> Level(recs, i) >= 0) && Level(recs, |recs|) == 0
  }

  /** The block that record `a` opens is closed by record `b`. */
  predicate Closes(recs: seq<Record>, a: int, b: int) {
    0 <= a < b < |recs| && Level(recs, b + 1) == Level(recs, a) && forall i :: a < i <= b ==> Level(recs, i) > Level(recs, a)
  }

  lemma ClosesMarks(recs: seq<Record>, a: int, b: int)
    requires Closes(recs, a, b)
    ensures recs[a].mark.Start? && recs[b].mark.End? && Level(recs, b) == Level(recs, a) + 1
  {
    assert Level(recs, a + 1) > Level(recs, a);
    assert Level(recs, b) > Level(recs, a);
  }

  lemma Above(recs: seq<Record>, a: int, b: int, i: int)
    requires Closes(recs, a, b)
    ensures a < i <= b ==> Level(recs, i) > Level(recs, a)
  {
  }

  lemma ClosesOnce(recs: seq<Record>, a: int, b: int, b': int)
    requires Closes(recs, a, b) && Closes(recs, a, b')
    ensures b == b'
  {
    Above(recs, a, b', b + 1);
    Above(recs, a, b, b' + 1);
  }

  lemma OpensOnce(recs: seq<Record>, a: int, a': int, b: int)
    requires Closes(recs, a, b) && Closes(recs, a', b)
    ensures a == a'
  {
    Above(recs, a, b, a');
    Above(recs, a', b, a);
  }

  /** rpa_recordtree_get: the record at the other end of the block, on any array. */
  method Get(recs: seq<Record>, rec: int, mark: Mark) returns (r: int)
    ensures !(0 <= rec < |recs|) ==> r == -1
    ensures 0 <= rec < |recs| && recs[rec].mark == mark ==> r == rec
    ensures 0 <= rec < |recs| && recs[rec].mark.Start? && mark.End? ==>
      if exists b :: Closes(recs, rec, b) then Closes(recs, rec, r) else r == -1
    ensures 0 <= rec < |recs| && recs[rec].mark.End? && mark.Start? ==>
      if exists a :: Closes(recs, a, rec) then Closes(recs, r, rec) else r == -1
  {
    if rec < 0 || rec >= |recs| { return -1; }
    if recs[rec].mark == mark { return rec; }
    var s, i := 0, rec;
    if recs[rec].mark.Start? {
      while i < |recs|
        invariant rec <= i <= |recs| && s == Level(recs, i) - Level(recs, rec)
        invariant forall j :: rec < j <= i ==> Level(recs, j) > Level(recs, rec)
      {
        s := s + if recs[i].mark.Start? then 1 else -1;
        assert s == Level(recs, i + 1) - Level(recs, rec);
        if s == 0 {
          assert Closes(recs, rec, i);
          return i;
        }
        if i > rec { LevelStep(recs, i); }
        i := i + 1;
      }
      forall b ensures !Closes(recs, rec, b) {
        if Closes(recs, rec, b) { Reached(recs, rec, b + 1, i); }
      }
    } else {
      while i >= 0
        invariant -1 <= i <= rec && s == Level(recs, rec + 1) - Level(recs, i + 1)
        invariant forall j :: i < j <= rec ==> Level(recs, j) > Level(recs, rec + 1)
        decreases i
      {
        s := s + if recs[i].mark.Start? then 1 else -1;
        assert s == Level(recs, rec + 1) - Level(recs, i);
        if s == 0 {
          assert Closes(recs, i, rec);
          return i;
        }
        LevelStep(recs, i);
        i := i - 1;
      }
      forall a ensures !Closes(recs, a, rec) {
        if Closes(recs, a, rec) { ReachedDown(recs, rec, a); }
      }
    }
    return -1;
  }

  lemma Reached(recs: seq<Record>, rec: int, i: int, to: int)
    requires 0 <= rec < to <= |recs| && forall j :: rec < j <= to ==> Level(recs, j) > Level(recs, rec)
    ensures rec < i <= to ==> Level(recs, i) > Level(recs, rec)
  {
  }

  lemma ReachedDown(recs: seq<Record>, rec: int, i: int)
    requires 0 <= rec < |recs| && forall j :: 0 <= j <= rec ==> Level(recs, j) > Level(recs, rec + 1)
    ensures 0 <= i <= rec ==> Level(recs, i) > Level(recs, rec + 1)
  {
  }

  lemma LevelStep(recs: seq<Record>, i: int)
    requires 0 <= i < |recs|
    ensures -1 <= Level(recs, i + 1) - Level(recs, i) <= 1
  {
  }

  /** The end of the block that opens at `a`, looked for from `i` on. */
  function EndFrom(recs: seq<Record>, a: nat, i: nat): (b: int)
    requires Balanced(recs) && a < i <= |recs| && recs[a].mark.Start? && forall j :: a < j <= i ==> Level(recs, j) > Level(recs, a)
    ensures Closes(recs, a, b)
    decreases |recs| - i
  {
    LevelStep(recs, i);
    if Level(recs, i + 1) == Level(recs, a) then i else EndFrom(recs, a, i + 1)
  }

  function EndOf(recs: seq<Record>, a: nat): (b: int)
    requires Balanced(recs) && a < |recs| && recs[a].mark.Start?
    ensures Closes(recs, a, b)
  {
    EndFrom(recs, a, a + 1)
  }

  function StartFrom(recs: seq<Record>, b: nat, i: nat): (a: int)
    requires Balanced(recs) && i < b < |recs| && recs[b].mark.End? && forall j :: i < j <= b ==> Level(recs, j) > Level(recs, b + 1)
    ensures Closes(recs, a, b)
    decreases i
  {
    LevelStep(recs, i);
    if Level(recs, i) == Level(recs, b + 1) then i else StartFrom(recs, b, i - 1)
  }

  function StartOf(recs: seq<Record>, b: nat): (a: int)
    requires Balanced(recs) && b < |recs| && recs[b].mark.End?
    ensures Closes(recs, a, b)
  {
    assert Level(recs, b + 1) >= 0;
    StartFrom(recs, b, b - 1)
  }

  /** Both ends of the block a record belongs to. */
  function First(recs: seq<Record>, rec: nat): (a: nat)
    requires Balanced(recs) && rec < |recs|
    ensures a < |recs| && recs[a].mark.Start? && (a == rec || Closes(recs, a, rec))
  {
    if recs[rec].mark.Start? then rec else (ClosesMarks(recs, StartOf(recs, rec), rec); StartOf(recs, rec))
  }

  /** Block `c` lies directly in block `a`; blocks are named by their start. */
  predicate Child(recs: seq<Record>, a: nat, c: int)
    requires Balanced(recs) && a < |recs| && recs[a].mark.Start?
  {
    a < c < EndOf(recs, a) && recs[c].mark.Start? && Level(recs, c) == Level(recs, a) + 1
  }

  /** Blocks `a` and `c` have the same surroundings. */
  predicate Sibling(recs: seq<Record>, a: nat, c: int)
    requires a < |recs|
  {
    0 <= c < |recs| && recs[c].mark.Start? && Level(recs, c) == Level(recs, a)
    && (forall i :: a <= i <= c ==> Level(recs, i) >= Level(recs, a)) && (forall i :: c <= i <= a ==> Level(recs, i) >= Level(recs, a))
  }

  predicate Found(recs: seq<Record>, r: int, mark: Mark) {
    0 <= r < |recs| && recs[r].mark == mark
  }

  /** `r` is an end of the first, or the last, block inside `a`, or -1 if there is none. */
  ghost predicate IsFirstChild(recs: seq<Record>, a: nat, mark: Mark, r: int)
    requires Balanced(recs) && a < |recs| && recs[a].mark.Start?
  {
    if r == -1 then forall c :: !Child(recs, a, c)
    else Found(recs, r, mark) && Child(recs, a, First(recs, r)) && forall c :: Child(recs, a, c) ==> First(recs, r) <= c
  }

  ghost predicate IsLastChild(recs: seq<Record>, a: nat, mark: Mark, r: int)
    requires Balanced(recs) && a < |recs| && recs[a].mark.Start?
  {
    if r == -1 then forall c :: !Child(recs, a, c)
    else Found(recs, r, mark) && Child(recs, a, First(recs, r)) && forall c :: Child(recs, a, c) ==> c <= First(recs, r)
  }

  /** The nearest sibling behind, or before, `a`. */
  ghost predicate IsNext(recs: seq<Record>, a: nat, mark: Mark, r: int)
    requires Balanced(recs) && a < |recs|
  {
    if r == -1 then forall c :: Sibling(recs, a, c) ==> c <= a
    else Found(recs, r, mark) && Sibling(recs, a, First(recs, r)) && First(recs, r) > a && forall c :: Sibling(recs, a, c) && c > a ==> First(recs, r) <= c
  }

  ghost predicate IsPrev(recs: seq<Record>, a: nat, mark: Mark, r: int)
    requires Balanced(recs) && a < |recs|
  {
    if r == -1 then forall c :: Sibling(recs, a, c) ==> a <= c
    else Found(recs, r, mark) && Sibling(recs, a, First(recs, r)) && First(recs, r) < a && forall c :: Sibling(recs, a, c) && c < a ==> c <= First(recs, r)
  }

  /** The block that `a` is a child of. */
  ghost predicate IsParent(recs: seq<Record>, a: nat, mark: Mark, r: int)
    requires Balanced(recs) && a < |recs|
  {
    if r == -1 then Level(recs, a) == 0
    else Found(recs, r, mark) && Child(recs, First(recs, r), a)
  }

  /** On a balanced array `Get` finds both ends. */
  lemma BothEnds(recs: seq<Record>, rec: nat, r: int, mark: Mark)
    requires Balanced(recs) && rec < |recs|
    requires recs[rec].mark == mark ==> r == rec
    requires recs[rec].mark.Start? && mark.End? ==> if exists b :: Closes(recs, rec, b) then Closes(recs, rec, r) else r == -1
    requires recs[rec].mark.End? && mark.Start? ==> if exists a :: Closes(recs, a, rec) then Closes(recs, r, rec) else r == -1
    ensures Found(recs, r, mark) && First(recs, r) == First(recs, rec)
    ensures recs[rec].mark.Start? && mark.End? ==> r == EndOf(recs, rec)
  {
    if recs[rec].mark.Start? {
      assert Closes(recs, rec, EndOf(recs, rec));
      if mark.End? {
        ClosesMarks(recs, rec, r);
        OpensOnce(recs, rec, First(recs, r), r);
        ClosesOnce(recs, rec, EndOf(recs, rec), r);
      }
    } else {
      assert Closes(recs, StartOf(recs, rec), rec);
      if mark.Start? {
        ClosesMarks(recs, r, rec);
        OpensOnce(recs, r, StartOf(recs, rec), rec);
      }
    }
  }

  method FirstChild(recs: seq<Record>, rec: int, mark: Mark) returns (r: int)
    ensures !(0 <= rec < |recs|) ==> r == -1
    ensures Balanced(recs) && 0 <= rec < |recs| ==> IsFirstChild(recs, First(recs, rec), mark, r)
  {
    if rec < 0 || rec >= |recs| { return -1; }
    var at := rec;
    if recs[at].mark.End? {
      at := Get(recs, at, Start);
      if Balanced(recs) { BothEnds(recs, rec, at, Start); }
      if at < 0 { return -1; }
    }
    if at + 1 >= |recs| { return -1; }
    if recs[at + 1].mark.Start? {
      r := Get(recs, at + 1, mark);
      if Balanced(recs) {
        BothEnds(recs, at + 1, r, mark);
        InnerFirst(recs, at);
      }
      return r;
    }
    if Balanced(recs) { NoInner(recs, at); }
    return -1;
  }

  lemma InnerFirst(recs: seq<Record>, a: nat)
    requires Balanced(recs) && a + 1 < |recs| && recs[a].mark.Start? && recs[a + 1].mark.Start?
    ensures Child(recs, a, a + 1)
  {
    ClosesMarks(recs, a, EndOf(recs, a));
  }

  lemma NoInner(recs: seq<Record>, a: nat)
    requires Balanced(recs) && a + 1 < |recs| && recs[a].mark.Start? && recs[a + 1].mark.End?
    ensures forall c :: !Child(recs, a, c)
  {
    assert Closes(recs, a, a + 1);
    ClosesOnce(recs, a, EndOf(recs, a), a + 1);
  }

  method LastChild(recs: seq<Record>, rec: int, mark: Mark) returns (r: int)
    ensures !(0 <= rec < |recs|) ==> r == -1
    ensures Balanced(recs) && 0 <= rec < |recs| ==> IsLastChild(recs, First(recs, rec), mark, r)
  {
    if rec < 0 || rec >= |recs| { return -1; }
    var at := rec;
    if recs[at].mark.Start? {
      at := Get(recs, at, End);
      if Balanced(recs) { BothEnds(recs, rec, at, End); }
      if at < 0 { return -1; }
    }
    if Balanced(recs) { LastInner(recs, First(recs, rec), at); }
    if at - 1 < 0 { return -1; }
    if recs[at - 1].mark.End? {
      r := Get(recs, at - 1, mark);
      if Balanced(recs) { BothEnds(recs, at - 1, r, mark); }
      return r;
    }
    return -1;
  }

  /** In front of the end of a block there is the end of its last child, or its own start. */
  lemma LastInner(recs: seq<Record>, a: nat, b: nat)
    requires Balanced(recs) && Closes(recs, a, b) && recs[a].mark.Start?
    ensures EndOf(recs, a) == b && b > 0
    ensures recs[b - 1].mark.Start? ==> forall c :: !Child(recs, a, c)
    ensures recs[b - 1].mark.End? ==> Child(recs, a, First(recs, b - 1)) && forall c :: Child(recs, a, c) ==> c <= First(recs, b - 1)
  {
    ClosesMarks(recs, a, b);
    ClosesOnce(recs, a, b, EndOf(recs, a));
    if recs[b - 1].mark.Start? {
      Above(recs, a, b, b - 1);
      assert b - 1 == a;
    } else {
      var c := StartOf(recs, b - 1);
      ClosesMarks(recs, c, b - 1);
      Above(recs, c, b - 1, a);
      if c == a { ClosesOnce(recs, a, b, b - 1); }
      forall d | Child(recs, a, d) ensures d <= c { Above(recs, c, b - 1, d); }
    }
  }

  method Next(recs: seq<Record>, rec: int, mark: Mark) returns (r: int)
    ensures !(0 <= rec < |recs|) ==> r == -1
    ensures Balanced(recs) && 0 <= rec < |recs| ==> IsNext(recs, First(recs, rec), mark, r)
    ensures r == -1 || rec < r < |recs|
  {
    if rec < 0 || rec >= |recs| { return -1; }
    var at := rec;
    if recs[at].mark.Start? {
      at := Get(recs, at, End);
      if Balanced(recs) { BothEnds(recs, rec, at, End); }
      if at < 0 { return -1; }
    }
    if Balanced(recs) { Behind(recs, First(recs, rec), at); }
    if at + 1 >= |recs| { return -1; }
    if recs[at + 1].mark.Start? {
      r := Get(recs, at + 1, mark);
      if Balanced(recs) { BothEnds(recs, at + 1, r, mark); }
      return r;
    }
    return -1;
  }

  /** Behind a block there is its next sibling, or the end of its parent, or nothing. */
  lemma Behind(recs: seq<Record>, a: nat, b: nat)
    requires Balanced(recs) && Closes(recs, a, b)
    ensures b + 1 < |recs| && recs[b + 1].mark.Start? ==> Sibling(recs, a, b + 1) && forall c :: Sibling(recs, a, c) && c > a ==> b + 1 <= c
    ensures !(b + 1 < |recs| && recs[b + 1].mark.Start?) ==> forall c :: Sibling(recs, a, c) ==> c <= a
  {
    forall c | Sibling(recs, a, c) && c > a
      ensures b + 1 < |recs| && recs[b + 1].mark.Start? && b + 1 <= c
    {
      Above(recs, a, b, c);
      if b + 1 < c { assert Level(recs, b + 2) >= Level(recs, a); }
    }
    if b + 1 < |recs| && recs[b + 1].mark.Start? {
      forall i | a <= i <= b + 1 ensures Level(recs, i) >= Level(recs, a) { Above(recs, a, b, i); }
    }
  }

  method Prev(recs: seq<Record>, rec: int, mark: Mark) returns (r: int)
    ensures !(0 <= rec < |recs|) ==> r == -1
    ensures Balanced(recs) && 0 <= rec < |recs| ==> IsPrev(recs, First(recs, rec), mark, r)
  {
    if rec < 0 || rec >= |recs| { return -1; }
    var at := rec;
    if recs[at].mark.End? {
      at := Get(recs, at, Start);
      if Balanced(recs) { BothEnds(recs, rec, at, Start); }
      if at < 0 { return -1; }
    }
    if Balanced(recs) { InFront(recs, at); }
    if at - 1 < 0 { return -1; }
    if recs[at - 1].mark.End? {
      r := Get(recs, at - 1, mark);
      if Balanced(recs) { BothEnds(recs, at - 1, r, mark); }
      return r;
    }
    return -1;
  }

  lemma NotBelow(recs: seq<Record>, a: nat, c: int, i: int)
    requires a < |recs| && Sibling(recs, a, c)
    ensures c <= i <= a ==> Level(recs, i) >= Level(recs, a)
  {
  }

  lemma InFront(recs: seq<Record>, a: nat)
    requires Balanced(recs) && a < |recs| && recs[a].mark.Start?
    ensures a > 0 && recs[a - 1].mark.End? ==>
      Sibling(recs, a, First(recs, a - 1)) && First(recs, a - 1) < a && forall c :: Sibling(recs, a, c) && c < a ==> c <= First(recs, a - 1)
    ensures !(a > 0 && recs[a - 1].mark.End?) ==> forall c :: Sibling(recs, a, c) ==> a <= c
  {
    if a > 0 && recs[a - 1].mark.End? {
      var c := StartOf(recs, a - 1);
      ClosesMarks(recs, c, a - 1);
      forall d | Sibling(recs, a, d) && d < a ensures d <= c { Above(recs, c, a - 1, d); }
      forall i | c <= i <= a ensures Level(recs, i) >= Level(recs, a) { Above(recs, c, a - 1, i); }
    } else if a > 0 {
      forall c | Sibling(recs, a, c) ensures a <= c {
        NotBelow(recs, a, c, a - 1);
      }
    }
  }

  lemma SiblingJoin(recs: seq<Record>, a: nat, b: nat, c: int)
    requires a <= b < |recs| && Sibling(recs, a, b) && Sibling(recs, b, c) && b <= c
    ensures Sibling(recs, a, c)
  {
  }

  /** Behind the last sibling the parent ends. */
  lemma Surrounding(recs: seq<Record>, a: nat, c: nat, last: nat)
    requires Balanced(recs) && a <= c < |recs| && recs[a].mark.Start? && Sibling(recs, a, c) && Closes(recs, c, last)
    ensures last + 1 == |recs| ==> Level(recs, a) == 0
    ensures last + 1 < |recs| && recs[last + 1].mark.End? ==> Child(recs, First(recs, last + 1), a)
  {
    if last + 1 < |recs| && recs[last + 1].mark.End? {
      var p := StartOf(recs, last + 1);
      ClosesMarks(recs, p, last + 1);
      ClosesOnce(recs, p, last + 1, EndOf(recs, p));
      Above(recs, c, last, p);
      assert Level(recs, p) == Level(recs, a) - 1;
    }
  }

  /** One step along the siblings. */
  lemma Along(recs: seq<Record>, a: nat, last: nat, next: int)
    requires Balanced(recs) && a < |recs| && last < |recs| && recs[last].mark.End?
    requires Sibling(recs, a, First(recs, last)) && First(recs, last) >= a && IsNext(recs, First(recs, last), End, next)
    ensures next >= 0 ==> Sibling(recs, a, First(recs, next)) && First(recs, next) >= a
    ensures next < 0 ==> !(last + 1 < |recs| && recs[last + 1].mark.Start?)
  {
    var c := First(recs, last);
    Behind(recs, c, last);
    if next >= 0 { SiblingJoin(recs, a, c, First(recs, next)); }
  }

  /** Goes on to the last sibling; the record behind it ends the parent. */
  method Parent(recs: seq<Record>, rec: int, mark: Mark) returns (r: int)
    ensures !(0 <= rec < |recs|) ==> r == -1
    ensures Balanced(recs) && 0 <= rec < |recs| ==> IsParent(recs, First(recs, rec), mark, r)
  {
    if rec < 0 || rec >= |recs| { return -1; }
    var last, at := -1, rec;
    ghost var a := if Balanced(recs) then First(recs, rec) else 0;
    while at >= 0
      invariant at < |recs| && -1 <= last < |recs|
      invariant Balanced(recs) && at >= 0 ==> Sibling(recs, a, First(recs, at)) && First(recs, at) >= a
      invariant Balanced(recs) && at < 0 ==> last >= 0 && recs[last].mark.End? && Sibling(recs, a, First(recs, last)) && First(recs, last) >= a
      invariant Balanced(recs) && at < 0 ==> !(last + 1 < |recs| && recs[last + 1].mark.Start?)
      decreases if at < 0 then 0 else 1 + |recs| - at
    {
      last := Get(recs, at, End);
      if Balanced(recs) { BothEnds(recs, at, last, End); }
      at := Next(recs, last, End);
      if Balanced(recs) { Along(recs, a, last, at); }
    }
    if Balanced(recs) { Surrounding(recs, a, First(recs, last), last); }
    var parent := last + 1;
    if parent >= |recs| { return -1; }
    r := Get(recs, parent, mark);
    if Balanced(recs) { BothEnds(recs, parent, r, mark); }
  }

  /** The number of records of the block. */
  method Size(recs: seq<Record>, rec: int) returns (r: int)
    ensures !(0 <= rec < |recs|) ==> r == -1
    ensures Balanced(recs) && 0 <= rec < |recs| ==> var a := First(recs, rec); r == EndOf(recs, a) - a + 1
  {
    var first := Get(recs, rec, Start);
    var last := Get(recs, rec, End);
    if Balanced(recs) && 0 <= rec < |recs| {
      BothEnds(recs, rec, first, Start);
      BothEnds(recs, rec, last, End);
      if recs[rec].mark.End? { ClosesOnce(recs, first, EndOf(recs, first), last); }
    }
    if first < 0 || last < 0 { return -1; }
    return last - first + 1;
  }

  /** The positions from `a` up to `b`. */
  function Positions(a: int, b: int): seq<int>
    requires a <= b
  {
    seq(b - a, i => a + i)
  }

  lemma PositionsJoin(a: int, b: int, c: int)
    requires a <= b <= c
    ensures Positions(a, b) + Positions(b, c) == Positions(a, c)
  {
  }

  /** No block inside is nested deeper than the walk goes, 128 levels. */
  predicate Shallow(recs: seq<Record>, a: int, b: int, level: int)
    requires 0 <= a < b < |recs|
  {
    forall i :: a <= i <= b && recs[i].mark.Start? ==> level + Level(recs, i) - Level(recs, a) <= 128
  }

  /** The first child is right behind the start, or the end is. */
  lemma FirstInside(recs: seq<Record>, a: nat, b: nat, child: int)
    requires Balanced(recs) && a < |recs| && recs[a].mark.Start? && b == EndOf(recs, a) && IsFirstChild(recs, a, Start, child)
    ensures child == -1 ==> b == a + 1
    ensures child != -1 ==> child == a + 1 && Child(recs, a, child)
  {
    ClosesMarks(recs, a, b);
    if recs[a + 1].mark.Start? { InnerFirst(recs, a); } else { NoInner(recs, a); ClosesOnce(recs, a, b, a + 1) by { assert Closes(recs, a, a + 1); } }
  }

  /** A child ends inside its parent; behind it comes the next child or the end of the parent. */
  lemma NextInside(recs: seq<Record>, a: nat, b: nat, c: nat, d: nat, next: int)
    requires Balanced(recs) && a < |recs| && recs[a].mark.Start? && b == EndOf(recs, a) && Child(recs, a, c) && d == EndOf(recs, c)
    requires IsNext(recs, c, Start, next)
    ensures d < b && (next == -1 ==> b == d + 1)
    ensures next != -1 ==> next == d + 1 && Child(recs, a, next)
  {
    ClosesMarks(recs, a, b);
    ClosesMarks(recs, c, d);
    Above(recs, c, d, b + 1);
    if d == b { OpensOnce(recs, a, c, b); }
    Behind(recs, c, d);
    Above(recs, a, b, d + 2);
    if next != -1 { Above(recs, c, d, next); }
  }

  /** The records from `a` up to `pos` are not too deep. */
  predicate ShallowTo(recs: seq<Record>, a: int, pos: int, level: int)
    requires 0 <= a < pos <= |recs|
  {
    forall i :: a <= i < pos && recs[i].mark.Start? ==> level + Level(recs, i) - Level(recs, a) <= 128
  }

  lemma ShallowEnds(recs: seq<Record>, a: nat, b: int, level: int)
    requires Closes(recs, a, b)
    ensures level <= 128 ==> ShallowTo(recs, a, a + 1, level)
    ensures level > 128 ==> !Shallow(recs, a, b, level)
    ensures ShallowTo(recs, a, b, level) ==> Shallow(recs, a, b, level)
  {
    ClosesMarks(recs, a, b);
  }

  lemma ShallowMore(recs: seq<Record>, a: nat, b: int, c: nat, d: int, level: int)
    requires Balanced(recs) && a < |recs| && recs[a].mark.Start? && b == EndOf(recs, a) && Child(recs, a, c) && d == EndOf(recs, c) && d < b
    requires ShallowTo(recs, a, c, level)
    ensures if Shallow(recs, c, d, level + 1) then ShallowTo(recs, a, d + 1, level) else !Shallow(recs, a, b, level)
  {
  }

  lemma FirstOf(recs: seq<Record>, rec: nat)
    requires Balanced(recs) && rec < |recs|
    ensures var a := First(recs, rec); recs[a].mark.Start? && First(recs, a) == a && Closes(recs, a, EndOf(recs, a)) && a < EndOf(recs, a) < |recs|
  {
  }

  /** The callback goes on at every position from `a` up to `pos`. */
  predicate GoesOn(stop: int -> bool, a: int, pos: int) {
    forall i :: a <= i < pos ==> !stop(i)
  }

  /** A walk that was broken off: behind the first position at which the callback stops it, or in front of a
      block that is nested too deep. */
  predicate BrokenOff(recs: seq<Record>, a: int, b: int, level: int, stop: int -> bool, visited: seq<int>)
    requires 0 <= a < b < |recs|
  {
    var pos := a + |visited|;
    && pos <= b + 1 && visited == Positions(a, pos)
    && if visited != [] && stop(pos - 1) then GoesOn(stop, a, pos - 1)
       else GoesOn(stop, a, pos) && pos <= b && recs[pos].mark.Start? && level + Level(recs, pos) - Level(recs, a) > 128
  }

  lemma BrokenNotAll(recs: seq<Record>, a: int, b: int, level: int, stop: int -> bool, visited: seq<int>)
    requires 0 <= a < b < |recs| && BrokenOff(recs, a, b, level, stop, visited)
    ensures !(Shallow(recs, a, b, level) && GoesOn(stop, a, b + 1))
  {
  }

  lemma BrokenAtOnce(recs: seq<Record>, a: nat, b: int, level: int, stop: int -> bool)
    requires Closes(recs, a, b)
    ensures level > 128 ==> BrokenOff(recs, a, b, level, stop, [])
    ensures stop(a) ==> BrokenOff(recs, a, b, level, stop, [a])
  {
    ClosesMarks(recs, a, b);
  }

  /** What broke off the walk of a child broke off the walk. */
  lemma BrokenInside(recs: seq<Record>, a: nat, b: int, c: nat, d: int, level: int, stop: int -> bool, visited: seq<int>, inside: seq<int>)
    requires Balanced(recs) && a < |recs| && recs[a].mark.Start? && b == EndOf(recs, a) && Child(recs, a, c) && d == EndOf(recs, c) && d < b
    requires visited == Positions(a, c) && GoesOn(stop, a, c) && c < d && BrokenOff(recs, c, d, level + 1, stop, inside)
    ensures BrokenOff(recs, a, b, level, stop, visited + inside)
  {
    PositionsJoin(a, c, c + |inside|);
  }

  /** rpa_recordtree_walk, with a callback that notes the position and may stop there: every record of the
      block once and in order, up to where the callback stops or to a block that is nested too deep. */
  method Walk(recs: seq<Record>, rec: int, level: int, stop: int -> bool) returns (ret: int, visited: seq<int>)
    requires Balanced(recs) && 0 <= rec < |recs|
    ensures var a := First(recs, rec); var b := EndOf(recs, a);
      if ret == 0 then visited == Positions(a, b + 1) else ret == -1 && BrokenOff(recs, a, b, level, stop, visited)
    ensures var a := First(recs, rec); var b := EndOf(recs, a);
      ret == 0 <==> Shallow(recs, a, b, level) && GoesOn(stop, a, b + 1)
    decreases EndOf(recs, First(recs, rec)) - First(recs, rec), 1
  {
    hide Level, Balanced, Closes, EndOf, StartOf, First, IsFirstChild, IsNext, Shallow, ShallowTo, BrokenOff;
    visited := [];
    FirstOf(recs, rec);
    ghost var a := First(recs, rec);
    ghost var b := EndOf(recs, a);
    ShallowEnds(recs, a, b, level);
    BrokenAtOnce(recs, a, b, level, stop);
    if level > 128 {
      BrokenNotAll(recs, a, b, level, stop, visited);
      return -1, visited;
    }
    var at := Get(recs, rec, Start);
    BothEnds(recs, rec, at, Start);
    FirstOf(recs, at);
    Itself(recs, at);
    visited := visited + [at];
    if stop(at) {
      BrokenNotAll(recs, a, b, level, stop, visited);
      return -1, visited;
    }
    var child := FirstChild(recs, at, Start);
    FirstInside(recs, a, b, child);
    ghost var pos := a + 1;
    while child >= 0
      invariant a < pos <= b && visited == Positions(a, pos) && at == a && GoesOn(stop, a, pos)
      invariant if child < 0 then child == -1 && pos == b else child == pos && Child(recs, a, child)
      invariant ShallowTo(recs, a, pos, level)
      decreases b - pos
    {
      var r, inside, next := WalkChild(recs, a, b, level, stop, child, visited);
      if r < 0 {
        BrokenNotAll(recs, a, b, level, stop, visited + inside);
        return -1, visited + inside;
      }
      pos := pos + |inside|;
      visited := visited + inside;
      child := next;
    }
    at := Get(recs, at, End);
    BothEnds(recs, a, at, End);
    visited := visited + [at];
    PositionsJoin(a, b, b + 1);
    ShallowEnds(recs, a, b, level);
    if stop(at) {
      BrokenAtEnd(recs, a, b, level, stop);
      BrokenNotAll(recs, a, b, level, stop, visited);
      return -1, visited;
    }
    return 0, visited;
  }

  /** A child's block, and the child behind it; `visited` is what lies in front. */
  method WalkChild(recs: seq<Record>, ghost a: nat, ghost b: nat, level: int, stop: int -> bool, child: nat, ghost visited: seq<int>)
      returns (r: int, inside: seq<int>, next: int)
    requires Balanced(recs) && a < |recs| && recs[a].mark.Start? && b == EndOf(recs, a) && Child(recs, a, child)
    requires a < child < b < |recs| && visited == Positions(a, child) && GoesOn(stop, a, child) && ShallowTo(recs, a, child, level)
    ensures r < 0 ==> BrokenOff(recs, a, b, level, stop, visited + inside)
    ensures r >= 0 ==>
      var pos := child + |inside|;
      child < pos <= b && visited + inside == Positions(a, pos) && GoesOn(stop, a, pos) && ShallowTo(recs, a, pos, level)
      && if next < 0 then next == -1 && pos == b else next == pos && Child(recs, a, next)
    decreases b - a, 0
  {
    hide Level, Balanced, Closes, EndOf, StartOf, First, IsFirstChild, IsNext, Shallow, ShallowTo, BrokenOff;
    Itself(recs, child);
    FirstOf(recs, child);
    ghost var d := EndOf(recs, child);
    next := Next(recs, child, Start);
    NextInside(recs, a, b, child, d, next);
    ShallowMore(recs, a, b, child, d, level);
    r, inside := Walk(recs, child, level + 1, stop);
    if r < 0 {
      BrokenInside(recs, a, b, child, d, level, stop, visited, inside);
    } else {
      PositionsJoin(a, child, d + 1);
    }
  }

  lemma BrokenAtEnd(recs: seq<Record>, a: int, b: int, level: int, stop: int -> bool)
    requires 0 <= a < b < |recs| && GoesOn(stop, a, b) && stop(b)
    ensures BrokenOff(recs, a, b, level, stop, Positions(a, b + 1))
  {
  }

  lemma Itself(recs: seq<Record>, a: nat)
    requires Balanced(recs) && a < |recs| && recs[a].mark.Start?
    ensures First(recs, a) == a
  {
  }

  /** What a parse leaves behind is balanced, so that the functions above recover its forest. */
  lemma {:induction false} NestedBalanced(recs: seq<Record>, lo: nat, hi: nat)
    requires Nested(recs, lo, hi)
    ensures Balanced(recs)
    decreases |recs|
  {
    if recs != [] {
      var k := NestedSplit(recs, lo, hi);
      NestedBalanced(recs[1..k], recs[0].top, recs[0].top + recs[0].size);
      NestedBalanced(recs[k + 1..], recs[0].top + recs[0].size, hi);
      forall i | 0 <= i <= |recs| ensures Level(recs, i) == if i == 0 then 0 else if i <= k then 1 + Level(recs[1..k], i - 1) else Level(recs[k + 1..], i - k - 1) {
        Levels(recs, k, i);
      }
    }
  }

  lemma {:induction false} Levels(recs: seq<Record>, k: int, i: nat)
    requires BlockAt(recs, k) && i <= |recs| && Level(recs[1..k], k - 1) == 0
    ensures Level(recs, i) == if i == 0 then 0 else if i <= k then 1 + Level(recs[1..k], i - 1) else Level(recs[k + 1..], i - k - 1)
    decreases i
  {
    if i > 0 { Levels(recs, k, i - 1); }
  }
}
