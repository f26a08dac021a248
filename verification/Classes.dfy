/** Character classes: what the row of a state becomes (rex/rexcompiler.c, rex/rextransition.c), and when it
    is the class. */
module Classes {
  import opened Automata
  import opened Transitions
  import opened Languages

  ghost predicate InOneSymbol(trans: seq<Transition>, w: Word) {
    |w| == 1 && Covered(trans, w[0])
  }

  ghost function OneSymbol(trans: seq<Transition>): Language {
    iset w: Word | InOneSymbol(trans, w)
  }

  function Low(item: (Sym, Sym)): Sym {
    if item.0 <= item.1 then item.0 else item.1
  }

  /** A range written with its larger end first is put in its right place among those before it. */
  predicate Placed(items: seq<(Sym, Sym)>) {
    forall j, k :: 0 <= k < j < |items| ==> !(items[j].1 < Low(items[k]) <= items[j].0)
  }

  /** What the ranges of a class make of an empty row: each is placed among those before it. */
  function RowOf(items: seq<(Sym, Sym)>): seq<Transition> {
    if items == [] then []
    else
      var last := items[|items| - 1];
      Inserted(RowOf(items[..|items| - 1]), last.0, last.1, DANGLING)
  }

  /** The row of a class as the compiler leaves it, whatever order the ranges and their ends are in. */
  function ClassRow(items: seq<(Sym, Sym)>, negative: bool): seq<Transition> {
    var row := NormalizeFrom(RowOf(items), 0).items;
    if negative then NormalizeFrom(Complement(row, DANGLING), 0).items else row
  }

  lemma {:induction false} RowOfCovers(items: seq<(Sym, Sym)>)
    ensures OneWay(RowOf(items), DANGLING)
    ensures forall c: Sym :: Covered(RowOf(items), c) <==> InItems(items, c)
  {
    hide Inserted;
    if items != [] {
      var n := |items| - 1;
      RowOfCovers(items[..n]);
      InsertedOneWay(RowOf(items[..n]), items[n].0, items[n].1, DANGLING);
      ItemsSnoc(items, n);
      assert items[..n + 1] == items;
    }
  }

  ghost predicate RowStarts(row: seq<Transition>, c: Sym) {
    exists t :: t in row && t.lowin == c
  }

  ghost predicate ItemStarts(items: seq<(Sym, Sym)>, c: Sym) {
    exists item :: item in items && Low(item) == c
  }

  lemma RowStartsInserted(row: seq<Transition>, item: (Sym, Sym))
    ensures forall c: Sym :: RowStarts(Inserted(row, item.0, item.1, DANGLING), c) <==> RowStarts(row, c) || c == Low(item)
  {
    var at, t := Position(row, item.0, 0, |row|), Span(item.0, item.1, DANGLING);
    assert row == row[..at] + row[at..];
    assert forall u :: u in Inserted(row, item.0, item.1, DANGLING) <==> u in row || u == t;
    assert t in Inserted(row, item.0, item.1, DANGLING);
  }

  lemma ItemStartsSnoc(items: seq<(Sym, Sym)>, item: (Sym, Sym))
    ensures forall c: Sym :: ItemStarts(items + [item], c) <==> ItemStarts(items, c) || c == Low(item)
  {
    assert item in items + [item];
  }

  /** The elements of the row start where the ranges do. */
  lemma {:induction false} RowOfStarts(items: seq<(Sym, Sym)>)
    ensures forall c: Sym :: RowStarts(RowOf(items), c) <==> ItemStarts(items, c)
  {
    if items != [] {
      var n := |items| - 1;
      RowOfStarts(items[..n]);
      RowStartsInserted(RowOf(items[..n]), items[n]);
      ItemStartsSnoc(items[..n], items[n]);
      assert items == items[..n] + [items[n]];
    }
  }

  ghost predicate LastPlaced(front: seq<(Sym, Sym)>, last: (Sym, Sym)) {
    forall c: Sym :: ItemStarts(front, c) ==> !(last.1 < c <= last.0)
  }

  lemma PlacedSnoc(front: seq<(Sym, Sym)>, last: (Sym, Sym))
    ensures Placed(front + [last]) <==> Placed(front) && LastPlaced(front, last)
  {
    var items := front + [last];
    if Placed(items) {
      assert forall k :: 0 <= k < |front| ==> items[k] == front[k];
      forall c: Sym | ItemStarts(front, c)
        ensures !(last.1 < c <= last.0)
      {
        var k :| 0 <= k < |front| && Low(front[k]) == c;
        assert items[|front|] == last && Low(items[k]) == c;
      }
    }
    if Placed(front) && LastPlaced(front, last) {
      forall j, k | 0 <= k < j < |items|
        ensures !(items[j].1 < Low(items[k]) <= items[j].0)
      {
        assert items[k] == front[k];
        assert ItemStarts(front, Low(front[k]));
      }
    }
  }

  lemma RowSnocSorted(front: seq<(Sym, Sym)>, last: (Sym, Sym))
    requires Sorted(RowOf(front))
    ensures Sorted(RowOf(front + [last])) <==> LastPlaced(front, last)
  {
    hide Inserted;
    var row := RowOf(front);
    assert (front + [last])[..|front|] == front;
    RowOfStarts(front);
    InsertedSorted(row, last.0, last.1, DANGLING);
    if LastPlaced(front, last) {
      forall k | 0 <= k < |row|
        ensures !(last.1 < row[k].lowin <= last.0)
      {
        assert RowStarts(row, row[k].lowin);
      }
    }
  }

  /** The row stays sorted all the way exactly if the ranges are placed. */
  lemma {:induction false} PlacedIff(items: seq<(Sym, Sym)>)
    ensures Placed(items) <==> SortedAllTheWay(items)
    ensures Placed(items) ==> Sorted(RowOf(items))
  {
    if items != [] {
      var n := |items| - 1;
      var front, last := items[..n], items[n];
      assert items == front + [last];
      PlacedIff(front);
      PlacedSnoc(front, last);
      if Placed(front) {
        RowSnocSorted(front, last);
      }
    }
  }

  predicate SortedAllTheWay(items: seq<(Sym, Sym)>) {
    Sorted(RowOf(items)) && (items != [] ==> SortedAllTheWay(items[..|items| - 1]))
  }

  lemma ItemsSnoc(items: seq<(Sym, Sym)>, i: nat)
    requires i < |items|
    ensures forall c: Sym :: InItems(items[..i + 1], c) <==> InItems(items[..i], c) || InItem(items[i], c)
  {
    assert items[..i + 1] == items[..i] + [items[i]];
    forall c: Sym
      ensures InItems(items[..i + 1], c) <==> InItems(items[..i], c) || InItem(items[i], c)
    {
      if k :| 0 <= k < i && InItem(items[k], c) {
        assert InItem(items[..i + 1][k], c) && InItem(items[..i][k], c);
      }
      assert items[..i + 1][i] == items[i];
    }
  }

  /** Merging a row with one destination. */
  lemma NormalizedOneWay(trans: seq<Transition>, dst: int)
    requires OneWay(trans, dst)
    ensures OneWay(NormalizeFrom(trans, 0).items, dst)
    ensures NormalizeFrom(trans, 0).Overrun? ==> NormalizeFrom(trans, 0).lost.dst == dst
  {
    NormalizeKeepsPairs(trans, 0);
    var r := NormalizeFrom(trans, 0);
    forall k | 0 <= k < |r.items|
      ensures r.items[k].dst == dst
    {
      assert Leads(r.items, r.items[k].lowin, r.items[k].dst);
      assert r.Overrun? ==> LeadsOrBlock(r.items, r.lost, r.items[k].lowin, r.items[k].dst);
      assert Leads(trans, r.items[k].lowin, r.items[k].dst);
    }
    if r.Overrun? {
      assert LeadsOrBlock(r.items, r.lost, r.lost.lowin, r.lost.dst);
      assert Leads(trans, r.lost.lowin, r.lost.dst);
    }
  }

  lemma CoveredIsLeads(trans: seq<Transition>, dst: int)
    requires OneWay(trans, dst)
    ensures forall c: Sym :: Covered(trans, c) <==> Leads(trans, c, dst)
    ensures forall c: Sym, d :: Leads(trans, c, d) ==> d == dst
  {
    forall c: Sym
      ensures Covered(trans, c) <==> Leads(trans, c, dst)
    {
    }
  }

  /** Merging a sorted row: the same symbols, with gaps. */
  lemma NormalizedRow(trans: seq<Transition>, dst: int)
    requires OneWay(trans, dst) && Sorted(trans)
    ensures var r := NormalizeFrom(trans, 0);
      r.Normal? && OneWay(r.items, dst) && Gapped(r.items) && forall c: Sym :: Covered(r.items, c) <==> Covered(trans, c)
  {
    NormalizeSeparates(trans, 0);
    NormalizeKeepsPairs(trans, 0);
    NormalizedOneWay(trans, dst);
    CoveredIsLeads(trans, dst);
    CoveredIsLeads(NormalizeFrom(trans, 0).items, dst);
  }

  lemma ClassRowOneWay(items: seq<(Sym, Sym)>, negative: bool)
    ensures OneWay(ClassRow(items, negative), DANGLING)
  {
    RowOfCovers(items);
    NormalizedOneWay(RowOf(items), DANGLING);
    if negative {
      var row := NormalizeFrom(RowOf(items), 0).items;
      ComplementOneWay(row, DANGLING);
      NormalizedOneWay(Complement(row, DANGLING), DANGLING);
    }
  }

  lemma ClassLang(row: seq<Transition>, items: seq<(Sym, Sym)>, negative: bool)
    requires forall c: Sym :: Covered(row, c) <==> InItems(items, c) != negative
    ensures OneSymbol(row) == Lang(Class(items, negative))
  {
    forall w: Word
      ensures InOneSymbol(row, w) <==> InClass(items, negative, w)
    {
    }
  }

  lemma ClassLangIff(items: seq<(Sym, Sym)>, negative: bool)
    ensures OneSymbol(ClassRow(items, negative)) == Lang(Class(items, negative))
       <==> forall c: Sym :: Covered(ClassRow(items, negative), c) <==> InItems(items, c) != negative
  {
    var row := ClassRow(items, negative);
    if OneSymbol(row) == Lang(Class(items, negative)) {
      forall c: Sym
        ensures Covered(row, c) <==> InItems(items, c) != negative
      {
        assert InOneSymbol(row, [c]) <==> [c] in OneSymbol(row);
        assert [c] in Lang(Class(items, negative)) <==> InClass(items, negative, [c]);
      }
    }
    if forall c: Sym :: Covered(row, c) <==> InItems(items, c) != negative {
      ClassLang(row, items, negative);
    }
  }

  /** What merging lost behind the end of the row, if anything, is covered by the rest, and if there is a
      complement to take the rest has gaps. */
  ghost predicate RowKept(items: seq<(Sym, Sym)>, negative: bool) {
    var r := NormalizeFrom(RowOf(items), 0);
    (r.Overrun? ==> forall c: Sym :: Fires(r.lost, c) ==> Covered(r.items, c)) && (negative ==> Gapped(r.items))
  }

  lemma RowKeptIff(items: seq<(Sym, Sym)>)
    ensures RowKept(items, false)
       <==> forall c: Sym :: Covered(NormalizeFrom(RowOf(items), 0).items, c) <==> InItems(items, c)
  {
    var row := RowOf(items);
    var r := NormalizeFrom(row, 0);
    RowOfCovers(items);
    NormalizeKeepsIff(row);
    NormalizedOneWay(row, DANGLING);
    CoveredIsLeads(row, DANGLING);
    CoveredIsLeads(r.items, DANGLING);
    assert SamePairs(row, r.items) <==> forall c: Sym :: Covered(row, c) <==> Covered(r.items, c);
  }

  /** Any ranges: a class that is not negated is right exactly if the merging pass stayed inside the row,
      or what it lost behind the end is covered by the rest. */
  lemma PositiveRightIff(items: seq<(Sym, Sym)>)
    ensures OneSymbol(ClassRow(items, false)) == Lang(Class(items, false)) <==> RowKept(items, false)
  {
    ClassLangIff(items, false);
    RowKeptIff(items);
  }

  /** Any ranges, negated or not: a class whose row is kept is right. */
  lemma RowKeptRight(items: seq<(Sym, Sym)>, negative: bool)
    requires RowKept(items, negative)
    ensures OneSymbol(ClassRow(items, negative)) == Lang(Class(items, negative))
  {
    RowKeptIff(items);
    if negative {
      var row := NormalizeFrom(RowOf(items), 0).items;
      RowOfCovers(items);
      NormalizedOneWay(RowOf(items), DANGLING);
      ComplementExact(row, DANGLING);
      NormalizedRow(Complement(row, DANGLING), DANGLING);
    }
    ClassLangIff(items, negative);
  }

  /** Ranges that are placed make the class, or its complement. */
  lemma PlacedRight(items: seq<(Sym, Sym)>, negative: bool)
    requires Placed(items)
    ensures RowKept(items, negative)
    ensures OneSymbol(ClassRow(items, negative)) == Lang(Class(items, negative))
  {
    RowOfCovers(items);
    PlacedIff(items);
    NormalizedRow(RowOf(items), DANGLING);
    RowKeptRight(items, negative);
  }

  /** Two ranges, negated or not: the class is right exactly if the second one, written from its larger end,
      does not reach down over the start of the first. [bz-a] matches nothing and [^bz-a] everything. */
  lemma TwoRangesRightIff(x: (Sym, Sym), y: (Sym, Sym), negative: bool)
    ensures OneSymbol(ClassRow([x, y], negative)) == Lang(Class([x, y], negative)) <==> !(y.1 < Low(x) <= y.0)
    ensures y.1 < Low(x) <= y.0 ==> forall c: Sym :: Covered(ClassRow([x, y], negative), c) <==> negative
  {
    var items := [x, y];
    if y.1 < Low(x) <= y.0 {
      TwoRangesRow(x, y);
      var s, t := Span(x.0, x.1, DANGLING), Span(y.0, y.1, DANGLING);
      PairOverrunIff(s, t);
      assert NormalizeFrom(RowOf(items), 0).items == [];
      if negative {
        ComplementExact([], DANGLING);
        NormalizedRow(Complement([], DANGLING), DANGLING);
      }
      ClassLangIff(items, negative);
      assert InItem(items[0], Low(x)) && InItems(items, Low(x));
    } else {
      assert Placed(items);
      PlacedRight(items, negative);
    }
  }

  lemma TwoRangesRow(x: (Sym, Sym), y: (Sym, Sym))
    requires Low(x) <= y.0
    ensures RowOf([x, y]) == [Span(x.0, x.1, DANGLING), Span(y.0, y.1, DANGLING)]
  {
    assert [x, y][..1] == [x] && [x][..0] == [];
    assert RowOf([x]) == [Span(x.0, x.1, DANGLING)];
    var row := RowOf([x]);
    assert Position(row, y.0, 0, 1) == Position(row, y.0, 1, 1) == 1;
  }

  // ---- a negated class that is right by chance ---------------------------------------------------

  /** These ranges cover every symbol. Merging leaves one element twice, and of the complement, which is then
      too large, it leaves nothing. */
  lemma RightUnkept()
    ensures var items := [(5, 4), (2, 1), (6, 0), (6, 0), (7, CHAR_MAX)];
      OneSymbol(ClassRow(items, true)) == Lang(Class(items, true)) && !RowKept(items, true)
  {
    hide RowOf, Complement, NormalizeFrom, OneSymbol;
    var items: seq<(Sym, Sym)> := [(5, 4), (2, 1), (6, 0), (6, 0), (7, CHAR_MAX)];
    var a, b := Transition(1, 2, DANGLING), Transition(4, 5, DANGLING);
    var c, d := Transition(0, 6, DANGLING), Transition(7, CHAR_MAX, DANGLING);
    UnkeptRow(a, b, c, d);
    UnkeptMerged(a, b, c, d);
    UnkeptComplement(c, d);
    var row := NormalizeFrom(RowOf(items), 0).items;
    assert row == [c, c, d];
    assert !Gapped(row) by { assert row[0].highin >= row[1].lowin; }
    assert ClassRow(items, true) == [];
    forall x: Sym
      ensures InItems(items, x)
    {
      assert if x <= 6 then InItem(items[2], x) else InItem(items[4], x);
    }
    ClassLangIff(items, true);
  }

  lemma RowSnoc(front: seq<(Sym, Sym)>, last: (Sym, Sym), row: seq<Transition>, at: nat)
    requires row == RowOf(front) && at == Position(row, last.0, 0, |row|)
    ensures RowOf(front + [last]) == row[..at] + [Span(last.0, last.1, DANGLING)] + row[at..]
  {
    assert (front + [last])[..|front|] == front;
  }

  lemma UnkeptFront(a: Transition, b: Transition, c: Transition)
    requires a == Transition(1, 2, DANGLING) && b == Transition(4, 5, DANGLING) && c == Transition(0, 6, DANGLING)
    ensures RowOf([(5, 4), (2, 1), (6, 0)]) == [a, b, c]
  {
    RowSnoc([], (5, 4), [], 0);
    hide RowOf;
    RowSnoc([(5, 4)], (2, 1), [b], 0);
    RowSnoc([(5, 4), (2, 1)], (6, 0), [a, b], 2);
    assert [(5, 4), (2, 1), (6, 0)] == [(5, 4), (2, 1)] + [(6, 0)];
  }

  lemma UnkeptRow(a: Transition, b: Transition, c: Transition, d: Transition)
    requires a == Transition(1, 2, DANGLING) && b == Transition(4, 5, DANGLING)
    requires c == Transition(0, 6, DANGLING) && d == Transition(7, CHAR_MAX, DANGLING)
    ensures RowOf([(5, 4), (2, 1), (6, 0), (6, 0), (7, CHAR_MAX)]) == [a, b, c, c, d]
  {
    hide RowOf;
    UnkeptFront(a, b, c);
    RowSnoc([(5, 4), (2, 1), (6, 0)], (6, 0), [a, b, c], 3);
    assert [(5, 4), (2, 1), (6, 0), (6, 0)] == [(5, 4), (2, 1), (6, 0)] + [(6, 0)];
    RowSnoc([(5, 4), (2, 1), (6, 0), (6, 0)], (7, CHAR_MAX), [a, b, c, c], 4);
    assert [(5, 4), (2, 1), (6, 0), (6, 0), (7, CHAR_MAX)] == [(5, 4), (2, 1), (6, 0), (6, 0)] + [(7, CHAR_MAX)];
  }

  lemma UnkeptMerged(a: Transition, b: Transition, c: Transition, d: Transition)
    requires a == Transition(1, 2, DANGLING) && b == Transition(4, 5, DANGLING)
    requires c == Transition(0, 6, DANGLING) && d == Transition(7, CHAR_MAX, DANGLING)
    ensures NormalizeFrom([a, b, c, c, d], 0) == Normal([c, c, d])
  {
    var t, u, v := [a, b, c, c, d], [b, c, c, d], [c, c, d];
    assert FirstAbsorbed(t[0], t, 0, 0) == 5;
    assert NormalizeFrom(t, 0) == NormalizeFrom(t, 1);
    assert FirstAbsorbed(t[1], t, 1, 0) == 5;
    assert NormalizeFrom(t, 1) == NormalizeFrom(t, 2);
    assert FirstAbsorbed(t[2], t, 2, 0) == 0;
    assert Swallow(t, 2, 0) == u;
    assert NormalizeFrom(t, 2) == NormalizeFrom(u, 2);
    assert FirstAbsorbed(u[2], u, 2, 0) == 0;
    assert Swallow(u, 2, 0) == v;
    assert NormalizeFrom(u, 2) == NormalizeFrom(v, 2);
    assert FirstAbsorbed(v[2], v, 2, 0) == 3;
    assert NormalizeFrom(v, 2) == NormalizeFrom(v, 3);
  }

  lemma UnkeptComplement(c: Transition, d: Transition)
    requires c == Transition(0, 6, DANGLING) && d == Transition(7, CHAR_MAX, DANGLING)
    ensures NormalizeFrom(Complement([c, c, d], DANGLING), 0).items == []
  {
    hide NormalizeFrom;
    var t, e := [c, c, d], Transition(6, 7, DANGLING);
    assert Gaps(t, 1, DANGLING) == [];
    assert Gaps(t, 2, DANGLING) == [d];
    assert Complement(t, DANGLING) == [d, e];
    PairOverrunIff(d, e);
  }
}
