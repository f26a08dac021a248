/** From expressions to the flat, prefiltered DFA and to matches: what the stages give together. */
module Pipeline {
  import opened Automata
  import opened Subsets
  import opened Reachability
  import opened Database
  import opened DfaConverter
  import opened Languages
  import opened Expressions
  import opened Counters
  import opened Compiler
  import opened Symbols
  import opened DfaWords
  import opened FlatDfa
  import opened Scanning
  import opened RexRegex
  import opened Simulators
  import opened RexGrep

  ghost predicate InSome(langs: seq<Language>, w: Word) {
    exists i :: 0 <= i < |langs| && w in langs[i]
  }

  ghost function UnionLang(u: Union): Language {
    iset w: Word | InSome(u.langs, w)
  }

  ghost function NonEmpty(lang: Language): Language {
    iset w: Word | w != [] && w in lang
  }

  /** The empty word plays no part in the longest match. */
  lemma {:induction false} LongestNonEmpty(lang: Language, w: Word)
    ensures Longest(NonEmpty(lang), w) == Longest(lang, w)
  {
    LongestUnique(NonEmpty(lang), w, Longest(lang, w));
  }

  /** Union NFA, its DFA and the expressions: one language of nonempty words. */
  lemma SameLanguage(nfa: seq<State>, u: Union, dfa: seq<State>)
    requires UnionOf(nfa, u) && DfaOf(nfa, 0, dfa)
    ensures DfaLanguage(dfa) == NfaLanguage(nfa, 0) == NonEmpty(UnionLang(u))
  {
    hide UnionOf, DfaOf, Accepts, DfaAccepts, ValidNfa, NoEdgeInto;
    UnionValid(nfa, u);
    forall w: Word | w != []
      ensures DfaAccepts(dfa, w) <==> Accepts(nfa, 0, w)
      ensures Accepts(nfa, 0, w) <==> w in UnionLang(u)
    {
      UnionShape(nfa, u);
      LanguageKept(nfa, 0, dfa, w);
      UnionAccepts(nfa, u, w);
    }
  }

  lemma UnionShape(nfa: seq<State>, u: Union)
    requires UnionOf(nfa, u)
    ensures |nfa| > 0 && 0 < |u.exprs| == |u.langs| == |u.data|
  {
  }

  // ---- which expressions matched ---------------------------------------------------------------

  /** The user data of the expressions that match `w`, in the order they were added. */
  ghost function MatchingData(u: Union, w: Word, n: nat): (r: seq<nat>)
    requires n <= |u.langs| == |u.data|
  {
    if n == 0 then [] else MatchingData(u, w, n - 1) + if w in u.langs[n - 1] then [u.data[n - 1]] else []
  }

  /** The expressions that match, from the first one to the last, and their data in this order. */
  lemma {:induction false} MatchingInOrder(u: Union, w: Word, n: nat) returns (which: seq<nat>)
    requires n <= |u.langs| == |u.data|
    ensures Ascending(which) && |MatchingData(u, w, n)| == |which|
    ensures forall k: nat :: k in which <==> k < n && w in u.langs[k]
    ensures forall j :: 0 <= j < |which| ==> which[j] < n && MatchingData(u, w, n)[j] == u.data[which[j]]
  {
    which := [];
    if n > 0 {
      which := MatchingInOrder(u, w, n - 1);
      if w in u.langs[n - 1] {
        which := PlacedLast(which, n - 1);
      }
    }
  }

  lemma PlacedLast(front: seq<nat>, last: nat) returns (which: seq<nat>)
    requires Ascending(front) && forall k :: k in front ==> k < last
    ensures which == front + [last] && Ascending(which)
    ensures forall k: nat :: k in which <==> k in front || k == last
  {
    which := front + [last];
    assert forall j :: 0 <= j < |front| ==> front[j] in front;
  }

  /** The user data of the expressions whose accepting state is in the list. */
  ghost function DataIn(u: Union, s: seq<nat>, n: nat): (r: seq<nat>)
    requires n <= |u.exprs| == |u.data|
  {
    if n == 0 then [] else DataIn(u, s, n - 1) + if u.exprs[n - 1].accept in s then [u.data[n - 1]] else []
  }

  ghost function UserData(entries: seq<Substate>): (r: seq<nat>)
    ensures |r| == |entries|
  {
    seq(|entries|, k requires 0 <= k < |entries| => entries[k].userdata)
  }

  lemma {:induction false} DataSame(u: Union, s: seq<nat>, t: seq<nat>, n: nat)
    requires n <= |u.exprs| == |u.data|
    requires forall j :: 0 <= j < n ==> (u.exprs[j].accept in s <==> u.exprs[j].accept in t)
    ensures DataIn(u, s, n) == DataIn(u, t, n)
  {
    if n > 0 {
      DataSame(u, s, t, n - 1);
    }
  }

  lemma {:induction false} DataCut(u: Union, s: seq<nat>, i: nat, n: nat)
    requires i <= n <= |u.exprs| == |u.data|
    requires forall j :: i <= j < n ==> u.exprs[j].accept !in s
    ensures DataIn(u, s, n) == DataIn(u, s, i)
    decreases n
  {
    if i < n {
      DataCut(u, s, i, n - 1);
    }
  }

  lemma {:induction false} DataMatching(u: Union, s: seq<nat>, w: Word, n: nat)
    requires n <= |u.exprs| == |u.data| == |u.langs|
    requires forall j :: 0 <= j < n ==> (u.exprs[j].accept in s <==> w in u.langs[j])
    ensures DataIn(u, s, n) == MatchingData(u, w, n)
  {
    if n > 0 {
      DataMatching(u, s, w, n - 1);
    }
  }

  /** An accepting state behind the others adds its data at the end. */
  lemma DataOfLast(nfa: seq<State>, u: Union, rest: seq<nat>, last: nat)
    requires UnionOf(nfa, u) && |u.exprs| == |u.data| && Ascending(rest + [last]) && last < |nfa| && nfa[last].kind == AcceptKind
    ensures DataIn(u, rest + [last], |u.exprs|) == DataIn(u, rest, |u.exprs|) + [nfa[last].userdata]
  {
    hide UnionOf, DataIn;
    var n, s := |u.exprs|, rest + [last];
    var i := AcceptingState(nfa, u, last);
    AcceptsBefore(nfa, u, i);
    forall m | 0 <= m < |rest|
      ensures rest[m] < last
    {
      assert s[m] < s[|rest|];
    }
    DataCut(u, s, i + 1, n);
    DataCut(u, rest, i, n);
    DataSame(u, s, rest, i);
    AcceptKindAt(nfa, u, i);
    DataInSnoc(u, s, i);
  }

  /** The accepting entries of a sorted subset of a union, in the order of the expressions. */
  lemma {:induction false} AccData(nfa: seq<State>, u: Union, s: seq<nat>)
    requires UnionOf(nfa, u) && Ascending(s) && Below(s, |nfa|)
    ensures UserData(AccOf(SubstatesOf(nfa), s)) == DataIn(u, s, |u.exprs|)
    decreases |s|
  {
    var n := |u.exprs|;
    UnionShape(nfa, u);
    if s == [] {
      DataCut(u, s, 0, n);
    } else {
      hide UnionOf, AccOf, UserData, DataIn, SubstatesOf;
      var rest, last := s[..|s| - 1], s[|s| - 1];
      AccData(nfa, u, rest);
      AccDataSnoc(nfa, s);
      assert s == rest + [last];
      assert last !in rest;
      if nfa[last].kind == AcceptKind {
        DataOfLast(nfa, u, rest, last);
      } else {
        forall j | 0 <= j < n
          ensures u.exprs[j].accept != last
        {
          AcceptKindAt(nfa, u, j);
        }
        DataSame(u, s, rest, n);
      }
    }
  }

  lemma DataInSnoc(u: Union, s: seq<nat>, i: nat)
    requires i < |u.exprs| == |u.data|
    ensures DataIn(u, s, i + 1) == DataIn(u, s, i) + if u.exprs[i].accept in s then [u.data[i]] else []
  {
  }

  lemma UserDataSum(a: seq<Substate>, b: seq<Substate>)
    ensures UserData(a + b) == UserData(a) + UserData(b)
  {
  }

  lemma AccDataSnoc(nfa: seq<State>, s: seq<nat>)
    requires s != [] && Below(s, |nfa|)
    ensures Below(s[..|s| - 1], |nfa|)
    ensures var last := s[|s| - 1];
      UserData(AccOf(SubstatesOf(nfa), s)) ==
      UserData(AccOf(SubstatesOf(nfa), s[..|s| - 1])) + if nfa[last].kind == AcceptKind then [nfa[last].userdata] else []
  {
    var subs, last := SubstatesOf(nfa), s[|s| - 1];
    var entry := if subs[last].kind == AcceptKind then [Entry(subs, last)] else [];
    assert UserData(entry) == if nfa[last].kind == AcceptKind then [nfa[last].userdata] else [];
    var rest := AccOf(subs, s[..|s| - 1]);
    assert AccOf(subs, s) == rest + entry;
    hide *;
    UserDataSum(rest, entry);
  }

  lemma AcceptsBefore(nfa: seq<State>, u: Union, i: nat)
    requires UnionOf(nfa, u) && i < |u.exprs|
    ensures forall j :: 0 <= j < i ==> u.exprs[j].accept < u.exprs[i].accept
    ensures forall j :: i < j < |u.exprs| ==> u.exprs[i].accept < u.exprs[j].accept
  {
    forall j | 0 <= j < |u.exprs| && j != i
      ensures if j < i then u.exprs[j].accept < u.exprs[i].accept else u.exprs[i].accept < u.exprs[j].accept
    {
      ExprAt(nfa, u, i);
      ExprAt(nfa, u, j);
      if j < i {
        ExprOrder(nfa, u, j, i);
      } else {
        ExprOrder(nfa, u, i, j);
      }
    }
  }

  /** After a nonempty word the accepting substates of the DFA state carry the user data of exactly the
      expressions that match the word, the one added first in front. */
  lemma MatchedExpressions(nfa: seq<State>, u: Union, dfa: seq<State>, w: Word)
    requires UnionOf(nfa, u) && DfaOf(nfa, 0, dfa)
    ensures 0 <= After(dfa, w) < |dfa| && Below(dfa[After(dfa, w)].subset, |nfa|)
    ensures |u.exprs| == |u.langs| == |u.data|
    ensures UserData(AccOf(SubstatesOf(nfa), dfa[After(dfa, w)].subset)) == MatchingData(u, w, |u.exprs|)
  {
    UnionShape(nfa, u);
    UnionValid(nfa, u);
    AfterIsReach(nfa, 0, dfa, w);
    hide UnionOf, Reach, After;
    var s := dfa[After(dfa, w)].subset;
    AccData(nfa, u, s);
    forall i | 0 <= i < |u.exprs|
      ensures u.exprs[i].accept in s <==> w in u.langs[i]
    {
      UnionReach(nfa, u, w, i);
      assert u.exprs[i].accept in s <==> u.exprs[i].accept in SetOf(s);
    }
    DataMatching(u, s, w, |u.exprs|);
  }

  // ---- all stages together ---------------------------------------------------------------------

  /** An expression and the user data that is to name it. */
  datatype Pattern = Pattern(regex: Regex, data: nat)

  ghost function CompiledLangs(patterns: seq<Pattern>): seq<Language> {
    seq(|patterns|, k requires 0 <= k < |patterns| => CompiledLang(patterns[k].regex))
  }

  ghost function Langs(patterns: seq<Pattern>): seq<Language> {
    seq(|patterns|, k requires 0 <= k < |patterns| => Lang(patterns[k].regex))
  }

  ghost function PatternData(patterns: seq<Pattern>): seq<nat> {
    seq(|patterns|, k requires 0 <= k < |patterns| => patterns[k].data)
  }

  /** Adds the patterns one after the other, each to the start state the previous call returned. */
  method LoadPatterns(patterns: seq<Pattern>) returns (db: RexDb, ok: bool, ghost u: Union)
    requires patterns != []
    ensures fresh(db)
    ensures ok <==> forall k :: 0 <= k < |patterns| ==> !Refused(patterns[k].regex)
    ensures ok ==> UnionOf(db.states, u) && u.langs == CompiledLangs(patterns) && u.data == PatternData(patterns)
  {
    hide UnionOf, CompiledLang;
    db := new RexDb(false);
    var co := new RexCompiler();
    u := Union([], [], []);
    var startuid := 0;
    for k := 0 to |patterns|
      invariant fresh(db) && fresh(co) && co.stack == []
      invariant forall j :: 0 <= j < k ==> !Refused(patterns[j].regex)
      invariant if k == 0 then db.states == [] else db.states != [] && startuid == 0 && UnionOf(db.states, u)
      invariant u.langs == CompiledLangs(patterns[..k]) && u.data == PatternData(patterns[..k])
    {
      var ret;
      ghost var after;
      ret, after := co.AddExpression(db, startuid, patterns[k].regex, patterns[k].data, u);
      if ret.None? {
        return db, false, u;
      }
      startuid := ret.value;
      assert patterns[..k + 1] == patterns[..k] + [patterns[k]];
      u := after;
      UnionNotEmpty(db.states, u);
    }
    assert patterns[..|patterns|] == patterns;
    ok := true;
  }

  lemma UnionNotEmpty(s: seq<State>, u: Union)
    requires UnionOf(s, u)
    ensures s != []
  {
  }

  /** NFA, DFA, flat form and prefilter table for a union. */
  method BuildDfa(nfa: RexDb, hbytes: nat, hbits: nat, withsubstates: bool, ghost u: Union) returns (dfa: RexDfa)
    requires UnionOf(nfa.states, u) && 3 <= hbytes * hbits <= 27
    ensures fresh(dfa) && Filters(dfa, hbytes, hbits)
    ensures DfaOf(nfa.states, 0, dfa.rows) && dfa.subs == SubstatesOf(nfa.states) && dfa.withsubstates == withsubstates
    ensures forall p :: 0 <= p < |nfa.states| ==> dfa.subs[p] == Substate(p, nfa.states[p].kind, nfa.states[p].userdata)
    ensures DfaLanguage(dfa.rows) == NfaLanguage(nfa.states, 0) == NonEmpty(UnionLang(u))
    ensures |dfa.rows| <= Pow2(|nfa.states|)
  {
    UnionShape(nfa.states, u);
    UnionValid(nfa.states, u);
    var conv := new RexDfaConv();
    var db := conv.Run(nfa, 0);
    CompleteDfa(nfa.states, 0, db.states);
    SameLanguage(nfa.states, u, db.states);
    dfa := ToDfa(db, withsubstates);
    var r := dfa.Hash(hbytes, hbits);
  }

  /** The nonempty words of any of the languages. */
  ghost function AnyOf(langs: seq<Language>): Language {
    iset w: Word | w != [] && InSome(langs, w)
  }

  ghost predicate Compiles(r: Regex) {
    !Refused(r) && Kept(r)
  }

  ghost predicate AllCompile(patterns: seq<Pattern>) {
    forall k :: 0 <= k < |patterns| ==> Compiles(patterns[k].regex)
  }

  lemma CompiledAreLangs(patterns: seq<Pattern>)
    requires AllCompile(patterns)
    ensures CompiledLangs(patterns) == Langs(patterns)
  {
    hide CompiledLang, Lang, Kept;
    forall k | 0 <= k < |patterns|
      ensures CompiledLangs(patterns)[k] == Langs(patterns)[k]
    {
      RefusedIff(patterns[k].regex);
      CompiledIsLang(patterns[k].regex);
    }
  }

  lemma OnePattern(r: Regex, data: nat, u: Union)
    requires u.langs == CompiledLangs([Pattern(r, data)])
    ensures UnionLang(u) == CompiledLang(r)
  {
    hide CompiledLang;
    assert u.langs == [CompiledLang(r)];
    forall w: Word
      ensures InSome(u.langs, w) <==> w in CompiledLang(r)
    {
      if w in CompiledLang(r) {
        assert w in u.langs[0];
      }
    }
  }

  lemma MatchNonEmpty(lang: Language, enc: Encoding, b: seq<byte>, i: nat)
    ensures MatchBytes(NonEmpty(lang), enc, b, i) == MatchBytes(lang, enc, b, i)
  {
    LongestNonEmpty(lang, Tail(enc, b, i));
  }

  lemma {:induction false} ScanNonEmpty(lang: Language, enc: Encoding, b: seq<byte>, i: nat)
    ensures Scan(NonEmpty(lang), enc, b, i) == Scan(lang, enc, b, i)
    decreases |b| - i
  {
    hide Read, MatchBytes;
    MatchNonEmpty(lang, enc, b, i);
    if i < |b| && MatchBytes(lang, enc, b, i) == 0 {
      ScanNonEmpty(lang, enc, b, i + Read(enc, b, i).1);
    }
  }

  /** Compiling an expression and matching at the start of the buffer: the number of bytes of the longest
      nonempty prefix in the language, 0 if there is none, -1 if the expression is refused. */
  method MatchRegex(r: Regex, enc: Encoding, b: seq<byte>) returns (ret: int)
    ensures ret == if !Refused(r) then MatchBytes(CompiledLang(r), enc, b, 0) else -1
    ensures Compiles(r) ==> ret == MatchBytes(Lang(r), enc, b, 0)
  {
    hide CompiledLang, Lang, UnionOf, DfaOf, Longest, Kept;
    var db, ok;
    ghost var u;
    assert [Pattern(r, 0)][0].regex == r;
    db, ok, u := LoadPatterns([Pattern(r, 0)]);
    if !ok {
      return -1;
    }
    var dfa := BuildDfa(db, RexRegex.HASHBYTES, RexRegex.HASHBITS, false, u);
    ret := DfaMatch(dfa, enc, b, 0);
    OnePattern(r, 0, u);
    MatchNonEmpty(CompiledLang(r), enc, b, 0);
    if Compiles(r) {
      RefusedIff(r);
      CompiledIsLang(r);
    }
  }

  /** Compiling an expression and searching the buffer with the prefilter: the leftmost boundary with a
      match and its longest length, as if the language were tried at every boundary. */
  method ScanRegex(r: Regex, enc: Encoding, b: seq<byte>) returns (ok: bool, result: ScanResult)
    ensures ok <==> !Refused(r)
    ensures !ok ==> result == NotFound
    ensures ok ==> result == Scan(CompiledLang(r), enc, b, 0)
    ensures Compiles(r) ==> result == Scan(Lang(r), enc, b, 0)
  {
    hide CompiledLang, Lang, UnionOf, DfaOf, Scan, Kept;
    var db;
    ghost var u;
    result := NotFound;
    assert [Pattern(r, 0)][0].regex == r;
    db, ok, u := LoadPatterns([Pattern(r, 0)]);
    if !ok {
      return;
    }
    var dfa := BuildDfa(db, RexRegex.HASHBYTES, RexRegex.HASHBITS, false, u);
    match enc {
      case Bytes(signedChar) => result := ScanByte(dfa, signedChar, b, 0);
      case Utf8 => result := ScanUtf8(dfa, b, 0);
    }
    OnePattern(r, 0, u);
    ScanNonEmpty(CompiledLang(r), enc, b, 0);
    if Compiles(r) {
      RefusedIff(r);
      CompiledIsLang(r);
    }
  }

  /** All matches of a set of patterns, by the DFA and by the NFA: the two lists are the same. */
  method GrepBoth(patterns: seq<Pattern>, b: seq<byte>, lines: bool) returns (ok: bool, byDfa: seq<Match>, byNfa: seq<Match>)
    requires patterns != []
    ensures ok <==> forall k :: 0 <= k < |patterns| ==> !Refused(patterns[k].regex)
    ensures byDfa == byNfa && (!ok ==> byDfa == [])
    ensures ok && !lines ==> AllMatches(AnyOf(CompiledLangs(patterns)), b, 0, byDfa)
    ensures ok && lines ==> AllLines(AnyOf(CompiledLangs(patterns)), b, |b|, byDfa)
    ensures AllCompile(patterns) && !lines ==> AllMatches(AnyOf(Langs(patterns)), b, 0, byDfa)
    ensures AllCompile(patterns) && lines ==> AllLines(AnyOf(Langs(patterns)), b, |b|, byDfa)
  {
    hide CompiledLang, UnionOf, DfaOf, AllMatches, AllLines, Kept, Lang;
    if AllCompile(patterns) {
      CompiledAreLangs(patterns);
    }
    var db;
    ghost var u;
    byDfa, byNfa := [], [];
    db, ok, u := LoadPatterns(patterns);
    if !ok {
      return;
    }
    UnionShape(db.states, u);
    UnionValid(db.states, u);
    var dfa := BuildDfa(db, RexGrep.HASH_BYTES, RexGrep.HASH_BITS, false, u);
    var si := new RexNfaSimulator();
    assert DfaLanguage(dfa.rows) == AnyOf(u.langs);
    if lines {
      byDfa := DfaScanLines(dfa, b);
      byNfa := NfaScanLines(si, db.states, 0, b);
      AllLinesUnique(AnyOf(u.langs), b, |b|, byDfa, byNfa);
    } else {
      byDfa := DfaScan(dfa, b, 0, false);
      var ret;
      ret, byNfa := NfaScan(si, db.states, 0, b, 0, false);
      AllMatchesUnique(AnyOf(u.langs), b, 0, byDfa, byNfa);
    }
  }

  /** After a nonempty word the slice of accepting substates of the flat state lists the user data of the
      matching patterns in the order they were given. */
  method Tokens(patterns: seq<Pattern>, w: Word) returns (ok: bool, data: seq<nat>, ghost which: seq<nat>)
    requires patterns != []
    ensures ok <==> forall k :: 0 <= k < |patterns| ==> !Refused(patterns[k].regex)
    ensures !ok ==> data == []
    ensures ok ==> Ascending(which) && forall k: nat :: k in which <==> k < |patterns| && w in CompiledLang(patterns[k].regex)
    ensures AllCompile(patterns) ==> forall k: nat :: k in which <==> k < |patterns| && w in Lang(patterns[k].regex)
    ensures ok ==> |data| == |which| && forall j :: 0 <= j < |data| ==> which[j] < |patterns| && data[j] == patterns[which[j]].data
  {
    hide CompiledLang, UnionOf, DfaOf, MatchingData, AccOf, Kept, Lang;
    if AllCompile(patterns) {
      CompiledAreLangs(patterns);
    }
    var db;
    ghost var u;
    data, which := [], [];
    db, ok, u := LoadPatterns(patterns);
    if !ok {
      return;
    }
    UnionShape(db.states, u);
    var dfa := BuildDfa(db, RexGrep.HASH_BYTES, RexGrep.HASH_BITS, false, u);
    MatchedExpressions(db.states, u, dfa.rows, w);
    var nstate := Walk(dfa, w);
    data := AcceptingData(dfa, nstate);
    which := MatchingInOrder(u, w, |patterns|);
    forall k: nat | k < |patterns|
      ensures CompiledLangs(patterns)[k] == CompiledLang(patterns[k].regex)
      ensures AllCompile(patterns) ==> Langs(patterns)[k] == Lang(patterns[k].regex)
    {
    }
  }

  /** The state after a word, through the flat arrays. */
  method Walk(dfa: RexDfa, w: Word) returns (nstate: nat)
    requires dfa.Ready()
    ensures nstate < |dfa.rows| && nstate == After(dfa.rows, w)
  {
    nstate := 1;
    for i := 0 to |w|
      invariant nstate < |dfa.rows| && nstate == After(dfa.rows, w[..i])
    {
      AfterSnoc(dfa.rows, w[..i], w[i]);
      assert w[..i + 1] == w[..i] + [w[i]];
      nstate := dfa.Next(nstate, w[i]);
    }
    assert w[..|w|] == w;
  }

  /** The user data in a state's slice of accepting substates. */
  method AcceptingData(dfa: RexDfa, nstate: nat) returns (data: seq<nat>)
    requires dfa.Ready() && nstate < |dfa.rows|
    ensures data == UserData(AccOf(dfa.subs, dfa.rows[nstate].subset))
  {
    dfa.AccSlice(nstate);
    data := [];
    var first, n := dfa.states[nstate].accsubstates, dfa.states[nstate].naccsubstates;
    ghost var slice := dfa.accsubstates[first..first + n];
    for i := 0 to n
      invariant |data| == i && forall k :: 0 <= k < i ==> data[k] == slice[k].userdata
    {
      assert dfa.accsubstates[first + i] == slice[i];
      data := data + [dfa.accsubstates[first + i].userdata];
    }
  }
}
