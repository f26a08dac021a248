# Verified model of the REX and RPA engines

This project models two engines of the repository in Dafny and proves that each of them does what it is
for.

**REX** (rex/, rexgrep/) turns regular expressions into an NFA of fragments, the NFA into a DFA over
ranges of 32-bit symbols, the DFA into flat tables, and derives a bit table from them that lets a scan skip
most of its input. Every stage has a plain form and a fast one. The project proves each stage against the
next and, in the end, that compiling an expression and scanning a buffer with the prefilter returns the
leftmost position and the longest length a direct reading of the expression's language gives
(`Pipeline.MatchRegex`, `Pipeline.ScanRegex`, `Pipeline.GrepBoth`, `Pipeline.Tokens`).

**RPA** (rpa/, rvm/) compiles grammars (sequence, ordered choice, class, exception, negation, the
quantifiers ? + *, and rules) into code for a register machine with a link register, a stack, status bits
and a direct-mapped cache of rule results, and emits records of the rules that matched. The project has a
reference matcher, proves that the emitted code, linked and run, computes it with and without the cache
and on a stack of any size, unless that is full, and that the records form a forest the functions of rpa/rparecord.c recover (`RpaVm.CompileAndParse`,
`RpaParse.CacheTransparent`, `RpaRecordTree.Walk`).

`dafny verify dfyconfig.toml` checks the whole project.

## How it is laid out

| files | what they hold |
|---|---|
| Automata, Transitions, Subsets, Database | states and paths; the range arrays and their algebra; sorted subsets; the state database |
| Reachability, DfaConv | what NFA and DFA mean; the subset construction and its worklist |
| DfaWords, FlatDfa | words through a DFA and their hashes; flat tables, table lookup and the prefilter |
| Symbols, Scanning, RexRegex | UTF-8 and the longest match; the search specification; the two scans |
| Simulators, RexGrep | NFA and DFA simulators; the two grep scans |
| Languages, Fragments, Expressions | regular expressions and their languages; Thompson construction; unions |
| Classes, Counters, Compiler | what a class and a counter become, and exactly when that is what they mean; the compiler |
| Pipeline | the theorems from expression to match |
| Arithmetic | products the solver needs to be told about |
| RpaGrammar, RpaRanks | grammars and the reference matcher; when it is defined |
| RvmCpu, RpaCache, RpaVm | the machine as a step function; the cache; the imperative machine that refines it |
| RpaCode, RpaRuns, RpaParse | the layout of linked code; running it; whole runs |
| RpaCodegen, RpaCompiler | code emission with labels on values; the imperative compiler and the linker |
| RpaRecords, RpaRecordTree, RpaInput | nesting of records; finding one's way in them; the lazily decoded input |

Code that changes things in place is a class or a method with loops here too (`RexDfaConv`, `RexDfa`,
`RexCompiler`, the simulators, `RpaCompiler`, `Vm`, `InputStack`, the cache). Such a method is proved against
functions on values, and the theorems are about those functions.

## Where the code departs from the usual reading

The model follows the code; these are the places where that matters.

- The start state of a DFA never accepts, even if its closure has an accepting state
  (rex/rexdfaconv.c:364-369). The language of nonempty words survives exactly under the condition of
  `Reachability.LanguageKeptIff`; compiled expressions meet it, the automaton of
  unittests/test-rexdb.cpp:33-43 does not.
- A counter compares with fields that a counter inside its factor has overwritten
  (rex/rexcompiler.c:488-508): `(a{2}){3}` matches four letters. `Compiler.RexCompiler.Exp` says what is
  compiled for every expression, `Counters.CounterRightIff` exactly when that is what was asked for.
- A range is placed by the end that was written first but stored with the smaller one first
  (rex/rextransition.c:74-94). `Classes.PlacedIff` says exactly when the row of a class stays sorted. On an
  unsorted one the merging pass can go on with the slot behind the end of the array
  (rex/rextransition.c:141-176), which still holds a copy of the last element; the copy then deletes what it
  touches, the element it is a copy of included. `[bz-a]` matches nothing and `[^bz-a]` everything
  (`Classes.TwoRangesRightIff`); `Classes.PositiveRightIff` has the exact condition for any ranges. The model does what the code does on every class.
- The decoder reads a malformed byte as a symbol of its own and accepts overlong forms of three and four
  bytes (rlib/rutf.c:24-64); `Symbols.EncodeDecodeIff` has the exact extent.
- An alternative that matches nothing is passed over, a rule that matches nothing fails and is not cached,
  `+` fails if no round makes progress, and a negation consumes one symbol.
- A result of more than 128 records is not cached (rpa/rpacache.c:73-74).
- The counter that fills the prefilter table wraps behind the largest symbol (rex/rexdfa.c:140). A range that
  ends there and has fewer symbols than there are residues marks all of them; the filter then lets through
  more than it would have to (`FlatDfa.EntryExact`).

## Model

| member | source | states |
|---|---|---|
| Transitions.Find | rex/rextransition.c:41-65 | The element returned contains the symbol; on a sorted, disjoint array that covers the symbol the search cannot fail |
| Transitions.Add | rex/rextransition.c:68-99 | The new range appears once, where the search for its first end stops, on any array; the others keep their order, and exactly its (symbol, destination) pairs are added; a sorted array stays sorted if and only if no element starts after the smaller end and not after the first end |
| Transitions.Normalize | rex/rextransition.c:135-180 | The loop over the array changed in place leaves what NormalizeFrom says on any array, also when it goes on with the slot behind the end of the shortened array, where a copy of the last element is left |
| Transitions.NormalizeKeepsPairs | rex/rextransition.c:135-180 | For every array, sorted or not, a pass that stays inside the array keeps exactly the set of (symbol, destination) pairs, and one that leaves it loses at most one block of them |
| Transitions.NormalizeKeepsIff | rex/rextransition.c:135-180 | For every array the pass keeps the pairs if and only if it stayed inside, or what the copy behind the end has taken is still covered by the rest |
| Transitions.DevourPairs | rex/rextransition.c:145-176 | The copy behind the end takes over exactly what it deletes, and in the end touches nothing that is left |
| Transitions.NormalizeSeparates | rex/rextransition.c:135-180 | On a sorted array the pass stays inside the array, and elements with one destination end up with a gap between them |
| Transitions.PairOverrunIff | rex/rextransition.c:141-176 | Two ranges with one destination: the pass leaves the array if and only if the second absorbs the first and not the other way round, and then nothing is left |
| Transitions.Negative | rex/rextransition.c:102-132 | On any array the loop makes Complement, whose ends wrap around at 0 and 2^32-1 |
| Transitions.ComplementExact | rex/rextransition.c:102-132 | On an array with gaps that is the exact complement over 0..2^32-1, sorted, with the one destination |
| Transitions.NormalizedPartition | rex/rextransition.c:135-180 | Merging a partition of all symbols leaves a partition whose equal neighbours are merged, and every symbol keeps its destination |
| Transitions.DisjointCoverPartition | rex/rextransition.c:41-65 | A sorted array without overlaps that covers all symbols is gapless: it starts at 0, ends at 2^32-1 and each element starts behind the one before |
| Subsets.AddNewSubstate | rex/rexstate.c:30-49 | Binary search and insertion keep the array strictly ascending and add exactly the one member; a member that is there already changes nothing |
| Subsets.AscendingUnique | rex/rexdfaconv.c:54-71 | Ascending arrays with equal contents are equal arrays, so that comparing them element by element decides set equality |
| Subsets.SubsetCount | rex/rexdfaconv.c:371-422 | Pairwise different ascending arrays over n states: at most 2^n of them |
| Database.RexDb.constructor | rex/rexdb.c:41-61 | A DFA database starts out with its dead state, an NFA database empty |
| Database.RexDb.AddTransition | rex/rexdb.c:126-133 | Only the row of the one state changes, by one insertion; it stays sorted if and only if the range was placed right, and a range not before any other goes to the end; nothing changes for a state number that does not exist |
| Reachability.ClosureLeast | rex/rexdfaconv.c:160-194 | The set of states reached by empty paths is the least set that contains the given states and is closed under empty transitions |
| Reachability.ReachStep | rex/rexdfaconv.c:226-244 | Where paths lead on a word and one more symbol is the closure of the move from where they lead on the word |
| Reachability.AfterIsReach | rex/rexdfaconv.c:348-431 | For every word the DFA state reached carries exactly the NFA states that paths on the word reach, and it is the dead state if and only if there are none |
| Reachability.AgreeOnWord | rex/rexdfaconv.c:364-369 | NFA and DFA agree on a nonempty word if and only if the word does not lead back to the start state's subset while that subset has an accepting state |
| Reachability.LanguageKeptIff | rex/rexdfaconv.c:348-431 | The construction keeps the language of nonempty words if and only if the start closure has no accepting state or no nonempty word leads back to it |
| Reachability.LanguageKept | rex/rexdfaconv.c:348-431 | If no transition leads to the start state, the DFA accepts a nonempty word if and only if some NFA path on it ends in an accepting state |
| Reachability.LoopToStartLost | unittests/test-rexdb.cpp:33-43 | On the automaton of the unit test, with a transition back to its start, every DFA of the construction rejects the word 0 that the NFA accepts |
| DfaConverter.WithMark | rex/rexdfaconv.c:136-147 | Setting or clearing a mark, also behind the end of the array, changes this mark and no other |
| DfaConverter.RexDfaConv.EClosure | rex/rexdfaconv.c:160-194 | The work loop ends with exactly the states reached by empty paths, ascending and duplicate-free, and leaves every mark cleared |
| DfaConverter.RexDfaConv.Follow | rex/rexdfaconv.c:176-190 | One round of the work loop: the successors of one state are in the result, everything new is on the work list, and the loop measure falls |
| DfaConverter.RexDfaConv.GetSubsetTransitions | rex/rexdfaconv.c:200-223 | All ranges of all states of the subset are collected |
| DfaConverter.RexDfaConv.InsertValues | rex/rexdfaconv.c:274-333 | The boundaries are ascending and hold 0, the start of every range and the symbol behind its end, wrapping to 0 |
| DfaConverter.RexDfaConv.UniqueRanges | rex/rexdfaconv.c:309-333 | The cells are a sorted partition of 0..2^32-1, and every source range is a union of cells |
| DfaConverter.RexDfaConv.Move | rex/rexdfaconv.c:226-244 | Exactly the destinations of the transitions that span the cell, ascending |
| DfaConverter.CellMove | rex/rexdfaconv.c:226-333 | The move on a cell equals the move on any single symbol of the cell |
| DfaConverter.RexDfaConv.InitSubstates | rex/rexdfaconv.c:252-267 | One substate record for every NFA state, in order, with its type and user data |
| DfaConverter.RexDfaConv.SetSubstates | rex/rexdfaconv.c:118-133 | The state gets the subset and becomes accepting if and only if the subset has an accepting state |
| DfaConverter.RexDfaConv.FindOrCreate | rex/rexdfaconv.c:408-422 | A state with the subset exists afterwards, at most one was added, and subsets stay nonempty, ascending and pairwise distinct |
| DfaConverter.RexDfaConv.CellTarget | rex/rexdfaconv.c:395-422 | For every symbol of the cell the target carries the closure of the move, or is the dead state if there is none |
| DfaConverter.RexDfaConv.FillCell | rex/rexdfaconv.c:387-424 | One cell keeps the invariant of a row in progress: finished rows, index, and the transitions made so far |
| DfaConverter.RexDfaConv.FillRow | rex/rexdfaconv.c:371-428 | After its turn a row is a partition whose targets are the steps of its subset, for every symbol; earlier rows still are |
| DfaConverter.RexDfaConv.Run | rex/rexdfaconv.c:348-431 | The growing worklist ends; the result is a DFA of the NFA with at most 2^n states, every row complete |
| FlatDfa.NumTransitions | rex/rexdb.c:283-293 | The length of all rows one behind the other |
| FlatDfa.NumSubstates | rex/rexdb.c:302-312 | The length of all substate slices one behind the other |
| FlatDfa.NumAccSubstates | rex/rexdb.c:315-329 | The length of all accepting-substate slices one behind the other |
| FlatDfa.RexDfa.FillDfaState | rex/rexdb.c:338-382 | One state is appended at the running offsets, within the arrays, and what was filled before stays |
| FlatDfa.ToDfa | rex/rexdb.c:385-406 | The arrays are filled exactly: every state's slices hold its row, its subset and its accepting substates |
| FlatDfa.RexDfa.AccSlice | rex/rexdfatypes.h:155 | The slice of accepting substates of a state lists the accepting members of its subset in order |
| FlatDfa.RexDfa.AccSliceEntries | rex/rexdb.c:353-365 | Entry by entry: number, kind and user data of the accepting members of the subset, ascending in their places, and their number |
| FlatDfa.RexDfa.SubSlice | rex/rexdb.c:366-376 | Entry by entry: the slice of substates of a state lies inside the array and holds number, kind and user data of the members of its subset, as many as there are |
| FlatDfa.RexDfa.NoSubSlice | rex/rexdb.c:366-376 | Without substates no state has any and the array is empty |
| FlatDfa.RexDfa.Next | rex/rexdfatypes.h:172-187 | The binary search in a slice never leaves the slice and returns the next state of the linked automaton, for every symbol |
| FlatDfa.RexDfa.SetBit | rex/rexdfa.c:116-150 | Exactly the one bit is set |
| FlatDfa.RexDfa.StateHash | rex/rexdfa.c:116-150 | Every row of symbols that does not rule out a match from the state has its bit set afterwards; no bit is ever cleared, whatever was in the memory, and a bit is set only for a row of symbols along ranges that are followed for them |
| FlatDfa.RexDfa.MarkRange | rex/rexdfa.c:137-147 | One round of residues, with the counter wrapping at 2^32, covers every symbol of the range |
| FlatDfa.EntryExact | rex/rexdfa.c:137-147 | A bit that is set belongs to a row of symbols that does not rule out a match, provided no live range that ends at the largest symbol has fewer symbols than there are residues; the counter of such a range wraps and marks them all |
| FlatDfa.RexDfa.Hash | rex/rexdfa.c:153-167 | Sizes outside 3..27 bits are refused and change nothing; otherwise no nonempty match of any input is filtered out by the table |
| DfaWords.HashShift | rex/rexregex.c:101-139 | Shifting in the next symbol and masking gives the hash of the input one symbol further on |
| DfaWords.EntryIsHash | rex/rexdfa.c:116-150 | The entry the recursion over the automaton arrives at is the rolling hash of the symbols on the way |
| DfaWords.LiveOfMatch | rex/rexdfa.c:116-150 | Symbols, zero padded, that agree with an accepted word as far as both go are never ruled out |
| DfaWords.DeadLongest | rex/rexregex.c:142-162 | Once the dead state is reached, the last accepted prefix is the longest one |
| Symbols.Wctomb | rlib/rutf.c:67-99 | The bytes of UTF-8 (section 3 of RFC 3629) if the value is a code point and they fit, else nothing; no byte behind them is touched |
| Symbols.DecodeEncode | rlib/rutf.c:24-99 | Decoding what was encoded gives the code point back and consumes exactly its bytes, whatever follows |
| Symbols.EncodeDecodeIff | rlib/rutf.c:24-99 | Encoding what was decoded gives the bytes back if and only if the decoder was not lenient: a plain byte, no overlong form of three or four bytes, no value above 0x10FFFF |
| Symbols.DecodedWidth | rlib/rutf.c:24-64 | Any bytes: two, three or four are taken if and only if the first one is in 0xC2-0xDF, 0xE0-0xEF or 0xF0-0xF4 and as many continuation bytes follow inside the buffer; otherwise one is, and it is its own symbol |
| Symbols.DecodedValue | rlib/rutf.c:24-64 | The symbol of two, three or four bytes in numbers, overlong forms included |
| Symbols.ByteRead | rex/rexregex.c:165-185 | A byte that is not decoded is its own symbol, or from 0x80 on, where char is signed, the 32-bit number of its negative value |
| Symbols.TailEncoded | rlib/rutf.c:24-99 | Reading the encoding of any text gives the text |
| Symbols.TailBytes | rex/rexregex.c:165-185 | Without decoding a buffer has one symbol for each byte, in order |
| Symbols.Longest | rex/rexregex.c:142-162 | The longest nonempty prefix in a language, characterised: it is in the language and no longer one is |
| Symbols.MatchBytesLongest | rex/rexregex.c:142-185 | The bytes of a match end behind a number of symbols that are in the language while no more symbols are; there are none if and only if no nonempty prefix is |
| Scanning.DfaMatch | rex/rexregex.c:142-185 | The flat automaton returns the number of bytes of the longest nonempty prefix in its language, 0 if there is none |
| Scanning.Shift | rex/rexregex.c:101-139 | After the initial shifts the shifter is the hash of the next symbols, zero padded at the end; one more shift keeps it in step |
| Scanning.InStepNext | rex/rexregex.c:101-139 | One shift moves the window by one symbol boundary, also at and behind the end of the buffer |
| Scanning.ScanLeftmost | rex/rexregex.c:188-285 | If any symbol boundary has a match, the naive search finds one at or before it, with its longest length |
| Scanning.ScanIsBoundary | rex/rexregex.c:188-285 | What the naive search finds is a symbol boundary with a match |
| RexRegex.FilteredOut | rex/rexregex.c:188-285 | A bit that is not set rules out a match at the position, and skipping it does not change the result of the search |
| RexRegex.ScanByte | rex/rexregex.c:188-231 | The prefiltered byte search returns the same position and length as trying every byte, for signed and unsigned char |
| RexRegex.ScanUtf8 | rex/rexregex.c:234-285 | The prefiltered UTF-8 search with its fast paths for plain bytes returns the same position and length as trying every symbol boundary |
| Simulators.RexNfaSimulator.AddState | rex/rexnfasimulator.c:55-71 | The recursion ends and adds exactly what empty transitions reach through states that were off; the map stays exact |
| Simulators.RexNfaSimulator.Transfer | rex/rexnfasimulator.c:138-193 | The new states become the old ones, the map is all off again, and there is exactly one record for each of them that accepts, with its number |
| Simulators.RexNfaSimulator.Start | rex/rexnfasimulator.c:94-117 | The states are the closure of the start state, the counters 0, no records |
| Simulators.RexNfaSimulator.Step | rex/rexnfasimulator.c:158-171 | One transition: what it leads to is among the new states, nothing that the step does not reach is, and the map stays exact |
| Simulators.RexNfaSimulator.Next | rex/rexnfasimulator.c:138-193 | As a set the states are the step of the subset construction, the map is off, and there is one record with the current count and size for each of them that accepts |
| Simulators.RexNfaSimulator.Run | rex/rexnfasimulator.c:120-135 | The records name exactly the prefixes of the input that the NFA accepts, in order, with their sizes, and for each prefix exactly the accepting states it leads to |
| Simulators.LastRecord | rexgrep/rexgrep.c:83-103 | The last record is the longest match |
| Simulators.RexDfaSimulator.Next | rex/rexdfasimulator.c:76-94 | The lookup cannot fail; count and size go on by one symbol, and a record is made if and only if the state accepts |
| Simulators.RexDfaSimulator.Run | rex/rexdfasimulator.c:46-64 | The records name exactly the prefixes the DFA accepts, each with the state it leads to, and the size of the longest is returned |
| Simulators.SimulatorsInStep | rex/rexnfasimulator.c:138-193 | Without a transition into the start state: if the NFA simulator's states are, as a set, the subset of the DFA simulator's state, they are after one more symbol, and one records an accept if and only if the other does |
| Simulators.SimulatorsAgree | rex/rexdfasimulator.c:46-94 | After whole runs over any input the two lists of records name exactly the same positions |
| RexGrep.NfaMatch | rexgrep/rexgrep.c:83-103 | The number of bytes of the longest nonempty prefix in the language of the NFA, or -1 if there is no start state |
| RexGrep.NfaScan | rexgrep/rexgrep.c:228-260 | The list of all matches: each at a symbol boundary with its longest length, none overlapping, and every boundary with a match inside one of them; when everything is wanted, all of the buffer if some boundary has a match and nothing if none has; without a start state an error and nothing |
| RexGrep.DfaScan | rexgrep/rexgrep.c:164-225 | The same, by the prefiltered automaton |
| RexGrep.MatchesAll | rexgrep/rexgrep.c:164-260 | Trying boundary after boundary and going on behind each match lists all matches in that sense |
| RexGrep.AllMatchesUnique | rexgrep/rexgrep.c:164-260 | There is only one such list |
| RexGrep.DfaScanLines | rexgrep/rexgrep.c:263-279 | Exactly the lines that have a match, each with its line feed and the last one also without, in order |
| RexGrep.NfaScanLines | rexgrep/rexgrep.c:282-299 | The same by the NFA simulator, nothing without a start state |
| Fragments.Patch | rex/rexfragment.c:27-36 | Exactly the listed ends get the destination |
| Fragments.Create | rex/rexfragment.c:50-83 | The dangling list holds exactly the open transitions of the state |
| Fragments.CatFragments | rex/rexfragment.c:96-116 | Words of the result are concatenations; its dangling list is exactly its open transitions; states outside are untouched |
| Fragments.OptFragment | rex/rexfragment.c:119-135 | Words of the result are those of the fragment and the empty word; dangling list exact |
| Fragments.MopFragment | rex/rexfragment.c:138-153 | Words of the result are all repetitions, none included; dangling list exact |
| Fragments.MulFragment | rex/rexfragment.c:156-172 | Words of the result are all repetitions, at least one; dangling list exact |
| Fragments.AltFragments | rex/rexfragment.c:175-187 | Words of the result are the union; dangling list exact |
| Fragments.PatchRedirects | rex/rexfragment.c:27-36 | Patching a fragment sends every open edge to the state and changes no other edge |
| Fragments.LeaveRegion | rex/rexfragment.c:27-36 | A path that leaves a patched region goes through an end the region had and then through the patch target |
| Compiler.RexCompiler.CharClass | rex/rexcompiler.c:245-315 | For any ranges the fragment's words are the symbols of the row ClassRow computes from them by insertion, merging and complement |
| Classes.RowOfCovers | rex/rexcompiler.c:264-299 | Before merging the row covers exactly the symbols of the ranges, whatever order they and their ends are in |
| Classes.PlacedIff | rex/rextransition.c:74-94 | The row stays sorted at every insertion if and only if no range written from its larger end reaches down over the start of an earlier one |
| Classes.PlacedRight | rex/rexcompiler.c:300-310 | Placed ranges meet the condition of RowKeptRight: the class has exactly its symbols, or exactly the others if it is negated |
| Classes.PositiveRightIff | rex/rexcompiler.c:264-300 | Any ranges, not negated: the class is right if and only if merging stayed inside the row, or what it lost behind the end is covered by the rest |
| Classes.RowKeptRight | rex/rexcompiler.c:264-310 | Any ranges, negated or not: a class is right if that condition holds and, for a negated one, merging left gaps between the elements in order |
| Classes.RightUnkept | rex/rexcompiler.c:300-310 | Five ranges whose negation is right although merging leaves one element twice: for negated classes the condition is not a necessary one |
| Classes.TwoRangesRightIff | rex/rexcompiler.c:264-310 | Two ranges, negated or not: the class is right if and only if the second does not reach down over the start of the first; if it does, the class matches nothing and its negation everything, as with [bz-a] |
| Compiler.RexCompiler.CharState | rex/rexcompiler.c:318-355 | The fragment's only word is the symbol |
| Compiler.RexCompiler.AnyCharState | rex/rexcompiler.c:335-343 | The words are all single symbols but 10, the line feed |
| Languages.QuantifierWords | rex/rexcompiler.c:418-515 | What ?, *, + and a counter are asked for: words that are so many words of the factor one behind the other |
| Languages.PartWords | rex/rexcompiler.c:527-573 | What two expressions one behind the other, an alternative and a character are asked for |
| Languages.ClassWords | rex/rexcompiler.c:245-310 | What a class is asked for: one symbol within a range, or within none, whichever end of a range is written first |
| Compiler.RexCompiler.Counter | rex/rexcompiler.c:442-515 | The special cases and the loop together give the union of powers CopiesOf computes, and leave the counter fields as the factor left them |
| Compiler.RexCompiler.Repeat | rex/rexcompiler.c:481-514 | The loop that compiles the factor again, comparing with counter fields that compiling the factor may have overwritten, makes exactly the copies CopiesOf computes |
| Counters.SimpleCounterHolds | rex/rexcompiler.c:442-515 | Over a factor without counters r{n,m}, r{n,} and r{n} make n to m copies, through all special cases and the loop |
| Counters.NestedCounterFails | rex/rexcompiler.c:481-514 | (a{2}){3} is compiled to two copies of the inner counter, and that is not its language |
| Counters.CounterRightIff | rex/rexcompiler.c:442-515 | Over any factor whose words are not arbitrarily long a counter compiles to its language if and only if the loop, seeing the fields the factor leaves, makes the copies that were asked for, or others with the same upper end if the factor has the empty word, or the factor has no other word, or it has no word and both numbers of copies allow none or neither does |
| Counters.CounterRightLower | rex/rexcompiler.c:442-515 | Over a factor with arbitrarily long words, none of them empty, a counter that compiles to its language makes the number of mandatory copies that was asked for |
| Counters.VoidPowersIff | rex/rexcompiler.c:442-515 | Over a factor without words two numbers of copies agree if and only if both allow none or neither does |
| Counters.VoidIff | rex/rexcompiler.c:404-573 | Whether an expression has any word is decided by its classes without symbols |
| Counters.RefusedIff | rex/rexcompiler.c:442-446 | An expression is refused if and only if some counter in it, however deep, has an upper end below its lower one; an open end never is |
| Counters.NestedCounter | rex/rexcompiler.c:481-514 | A counter directly around another one makes as many copies as the inner one asks for |
| Counters.LengthsBetween | rex/rexcompiler.c:404-573 | The lengths of all words of an expression lie between the two that are computed from its syntax |
| Counters.CountersSettle | rex/rexcompiler.c:374-391 | The counter fields do not change any more after the first repetition |
| Counters.CompiledIsLang | rex/rexcompiler.c:245-518 | The language of the automaton is that of the expression if the rows of its classes meet the condition of RowKeptRight and its counters make the copies asked for or others that come to the same |
| Counters.KeptIff | rex/rexcompiler.c:245-518 | Its condition, told from the parts of the expression |
| Counters.PlainCompiles | rex/rexcompiler.c:245-518 | Every expression whose classes have their ranges placed and in which no counter is inside the factor of another one compiles to its language |
| Compiler.RexCompiler.Exp | rex/rexcompiler.c:404-573 | Compilation fails if and only if a counter has its ends the wrong way round; otherwise one fragment for the language is pushed, earlier states and fragments are kept |
| Compiler.RexCompiler.Expression | rex/rexcompiler.c:579-611 | The expression ends in a new accepting state with the user data, no end stays open, its paths spell exactly its language; on an error states and stack are as before |
| Compiler.RexCompiler.AddExpression | rex/rexcompiler.c:626-657 | The union gets exactly one more expression, at its end; no transition leads to the start state; on an error nothing changes |
| Expressions.UnionReach | rex/rexcompiler.c:626-657 | After any word the accepting state of an expression is among the NFA's states if and only if the word is in the language of that expression |
| Expressions.UnionAccepts | rex/rexcompiler.c:626-657 | The union accepts a word if and only if one of its expressions does |
| Expressions.UnionValid | rex/rexcompiler.c:632-655 | Every destination exists and no transition leads to the start state, which is what the subset construction needs |
| Expressions.UnionAdd | rex/rexcompiler.c:632-655 | A closed expression behind the others and one more empty transition make the larger union |
| Pipeline.SameLanguage | rex/rexdfaconv.c:348-431 | Union NFA, its DFA and the languages of the expressions agree on nonempty words |
| Pipeline.MatchedExpressions | rex/rexdb.c:353-365 | After a nonempty word the accepting substates of the DFA state carry the user data of exactly the expressions that match, the one added first in front |
| Pipeline.MatchingInOrder | rex/rexdb.c:353-365 | Those expressions by their places: exactly those that match, ascending, each with its own data |
| Pipeline.LoadPatterns | rexgrep/rexgrep.c:67-81 | Adding patterns one after the other gives the union of their languages, or fails if and only if one of them fails |
| Pipeline.BuildDfa | rex/rexregex.c:47-75 | NFA to DFA to flat tables to prefilter: one language of nonempty words, at most 2^n states, no match filtered out |
| Pipeline.MatchRegex | rex/rexregex.c:142-185 | End to end, for every expression: the number of bytes of the longest nonempty prefix in the language it compiles to, which is its own if it compiles to that; 0 if there is none, -1 if and only if some counter in it has its ends the wrong way round |
| Pipeline.ScanRegex | rex/rexregex.c:188-285 | End to end, for every expression: the leftmost boundary with a match and its longest length, as if the language it compiles to were tried at every boundary |
| Pipeline.GrepBoth | rexgrep/rexgrep.c:303-324 | For every pattern set and every buffer the DFA scan and the NFA scan report the same list, of matches or of lines: that of the union of what was compiled, which is the union of the languages if every pattern compiles to its own |
| Pipeline.Tokens | rex/rexdb.c:338-382 | End to end through the flat tables: the slice after a nonempty word lists the user data of exactly the patterns that match by what was compiled, and by their languages if every pattern compiles to its own, in the order they were given |
| RpaVm.Vm.OpPush | rvm/rvmcpu.c:743-751 | The cpu with its array stack refines the step of a push, the overflow included |
| RpaVm.Vm.OpPop | rvm/rvmcpu.c:817-824 | The cpu, which checks nothing, refines the step of a pop from a stack that has an entry |
| RpaVm.Vm.OpMovs | rvm/rvmcpu.c:239-247 | Register and status after a move that sets the flags |
| RpaVm.Vm.OpShift | rpa/rpavm.c:27-34 | R_TOP moves on unless it is at the end of the input; the next symbol is decoded if it has not been |
| RpaVm.Vm.Matches | rpa/rpastat.c:312-382 | What the three tests read from the input stack decides as the symbol of the text does, in numbers: the character or its other case, the range, the escapes 9, 13 and 10 and the dot; nothing passes at the end |
| RpaVm.Vm.Repeat | rpa/rpavm.c:111-138 | The loop of the repeating match instructions consumes exactly the longest run of symbols that pass the test |
| RpaVm.Vm.OpMatch | rpa/rpavm.c:81-273 | The four quantities of the three match instructions: R0, status and R_TOP |
| RpaVm.Vm.OpEmitStart | rpa/rpavm.c:309-340 | The record, its place after R_REC, and R_REC |
| RpaVm.Vm.OpEmitEnd | rpa/rpavm.c:344-377 | The end record and the size written back into the start record |
| RpaVm.Vm.OpSetCache | rpa/rpavm.c:399-415 | The result and the records between the two registers are stored |
| RpaVm.Vm.OpCheckCache | rpa/rpavm.c:418-452 | On a hit R0, status, R_TOP, the records and R_REC; on a miss zero |
| RpaVm.Vm.Interrupt | rpa/rpavm.c:455-481 | The table of pattern instructions refines the step function |
| RpaVm.Vm.Jump | rvm/rvmcpu.c:33-230 | Branches, calls, returns and the end of the program refine the step function |
| RpaVm.Vm.Perform | rvm/rvmcpu.c:1421-1476 | Every instruction of the imperative cpu, which checks nothing but the height of the stack, refines the step function where that is defined |
| RpaVm.Vm.Execute | rvm/rvmcpu.c:1421-1476 | The instruction loop, without any check of its own, ends in the state the step function runs to, for every run that stops and does nothing undefined |
| RpaCache.RpaCache.constructor | rpa/rpacache.c:28-39 | The table is full of entries no later serial number agrees with |
| RpaCache.FindStored | rpa/rpacache.c:65-107 | After a store a lookup returns the new result for its own key, nothing for a key in the same bucket, and for every other key what it returned before; nothing changes if the result is not kept |
| RpaCache.RpaCache.Set | rpa/rpacache.c:65-89 | One entry is overwritten as the value-level store says: disabled caches and large results are skipped |
| RpaCache.RpaCache.Search | rpa/rpacache.c:92-107 | The lookup compares serial number, rule and position |
| RpaCache.RpaCache.Invalidate | rpa/rpacache.c:53-56 | Afterwards every lookup misses |
| RpaGrammar.CallDetermined | rpa/rpacompiler.c:425-503 | The outcome of a rule call does not depend on how many nested calls were allowed, once they were enough |
| RpaGrammar.SymbolMatched | rpa/rpastat.c:312-382 | What a character, a special character and a class match, in numbers: one symbol, with the other case if case does not matter, ranges either way round, the escapes 9, 13 and 10, the dot anything; never at the end |
| RpaGrammar.SymbolQuantified | rpa/rpavm.c:81-273 | One symbol under each quantifier, by the number of symbols in a row that match |
| RpaGrammar.SymbolRule | rpa/rpadbex.c:566-592 | Calling a rule that is one symbol: one symbol further with its two records, or a failure |
| RpaRanks.CallDefined | rpa/rpadbex.c:1894-1918 | Without left recursion every rule call has an outcome, within a number of nested calls given by the input's length and the ranks |
| RpaRanks.LeftRecursionUndefined | rpa/rpadbex.c:1216-1244 | A rule of a set of rules that begin by calling one another, through any expressions and quantifiers, never has an outcome |
| RpaRanks.GuardedRanked | rpa/rpacompiler.c:425-503 | Grammars whose rules begin with a symbol are not left recursive, whatever they call behind it |
| RpaCompiler.RpaCompiler.AddRelocIns | rvm/rvmcodegen.c:191-201 | The instruction is appended and a relocation record made for it |
| RpaCompiler.RpaCompiler.RedefineLabel | rvm/rvmcodegen.c:106-121 | The label stands for the next instruction from now on, the others are unchanged |
| RpaCompiler.RpaCompiler.LookupAdd | rvm/rvmcodemap.c:194-202 | One label per name, made up at the first use |
| RpaCompiler.RpaCompiler.IndexReference | rpa/rpacompiler.c:62-163 | The calls of a subroutine for each of the four quantities |
| RpaCompiler.RpaCompiler.ExpBegin | rpa/rpacompiler.c:577-596 | The frame of an expression and the entry on the stack of open expressions |
| RpaCompiler.RpaCompiler.ExpEnd | rpa/rpacompiler.c:599-617 | Both exits of an expression, the earlier jump patched over them, the calls |
| RpaCompiler.RpaCompiler.AltexpBegin | rpa/rpacompiler.c:620-640 | The frame of alternatives and classes |
| RpaCompiler.RpaCompiler.AltexpEnd | rpa/rpacompiler.c:643-661 | Both exits of alternatives and classes, the jump, the calls |
| RpaCompiler.RpaCompiler.NotexpEnd | rpa/rpacompiler.c:809-828 | Both exits of a negation; the one that succeeds consumes a symbol |
| RpaCompiler.RpaCompiler.RuleBegin | rpa/rpacompiler.c:425-459 | The entry of a rule: cache lookup, frame, start record |
| RpaCompiler.RpaCompiler.RuleEnd | rpa/rpacompiler.c:468-503 | The three exits of a rule: matched, matched nothing, failed |
| RpaCompiler.RpaCompiler.PlayMembers | rpa/rpadbex.c:622-671 | A class is its members one after the other, each with a branch to the common end |
| RpaCompiler.RpaCompiler.Handle | rpa/rpadbex.c:538-1048 | Every kind of record emits what the code generation function says and leaves the stack of open expressions as it was |
| RpaCompiler.RpaCompiler.CompileRule | rpa/rpadbex.c:453-505 | The entry and the subroutine of a named rule |
| RpaCompiler.RpaCompiler.Relocate | rvm/rvmrelocmap.c:75-106 | Linking succeeds if and only if every used label is valid; then every instruction has the distance to its label and nothing else changed |
| RpaCompiler.RpaCompiler.Compile | rpa/rpadbex.c:1921-1954 | Compiling succeeds if and only if every rule that is referred to exists; then the program has the layout of the grammar, with every rule at its start and every entry in front of it |
| RpaVm.EntryOffset | rpa/rpadbex.c:1973-1993 | The offset of a rule's entry is where the compiler put it; -1 for a rule that does not exist |
| RpaCodegen.ItemShape | rpa/rpadbex.c:538-1048 | Compiling an item only adds code and labels of its own, as much code as its size says |
| RpaCodegen.ItemEmitted | rpa/rpacompiler.c:577-828 | Linked, the code emitted for an item has the layout of the item, all branch distances included |
| RpaCodegen.ItemProgress | rpa/rpadbex.c:990-1048 | Compiling an item uses exactly the names it refers to and leaves no label of its own open |
| RpaCodegen.RuleShape | rpa/rpacompiler.c:425-503 | Compiling a rule makes its label valid and no other name's, and uses exactly the names it refers to |
| RpaCodegen.RuleEmitted | rpa/rpacompiler.c:425-503 | Linked, the code of a rule is an entry and the layout of the rule |
| RpaCodegen.ResolvedIff | rvm/rvmcodemap.c:226-244 | Every used label is valid if and only if every rule that is referred to exists |
| RpaCodegen.RefsExistIff | rvm/rvmcodemap.c:226-244 | Every rule that is referred to, however deep inside whichever rule, exists |
| RpaCodegen.CompiledLinked | rvm/rvmrelocmap.c:75-106 | The linked program has every rule at its start, and the starts differ |
| RpaRuns.RefRuns | rpa/rpacompiler.c:62-163 | A quantified call behaves like the reference matcher on the quantified expression: R0, status, R_TOP, R_REC, records, stack |
| RpaRuns.RepeatRuns | rpa/rpacompiler.c:101-137 | The calling loop matches as long as there is progress |
| RpaRuns.ItemRuns | rpa/rpacompiler.c:577-828 | Running the code of any item ends right behind it with the stack as at entry, R0 and status as the reference matcher says, R_TOP and the records advanced on success and as before on failure |
| RpaRuns.ExpRuns | rpa/rpacompiler.c:577-617 | A sequence returns behind its call with the outcome of the sequence |
| RpaRuns.AltRuns | rpa/rpacompiler.c:620-707 | Alternatives return with the outcome of the first that matches something |
| RpaRuns.ClsRuns | rpa/rpacompiler.c:754-788 | A class returns one symbol matched if and only if one of its members matches |
| RpaRuns.MinusRuns | rpa/rpadbex.c:674-695 | An excepted expression fails where the exception matches something and is the expression elsewhere |
| RpaRuns.NotRuns | rpa/rpacompiler.c:791-828 | A negation consumes one symbol where its operand fails |
| RpaRuns.MatchRuns | rpa/rpavm.c:81-273 | A match instruction behaves like the reference matcher on the quantified character |
| RpaRuns.CountIsLoop | rpa/rpavm.c:111-138 | The repetition inside the match instructions is the reference matcher's loop |
| RpaRuns.RuleRuns | rpa/rpacompiler.c:425-503 | Calling a rule returns with the outcome of the call: result, status, position, one block of records or none, cache consistent |
| RpaRuns.HitRuns | rpa/rpavm.c:418-452 | A cache hit reproduces the call: its return value, R_TOP and records |
| RpaRuns.RuleDone | rpa/rpacompiler.c:468-503 | A rule that matched something closes its records, caches the result and returns it |
| RpaRuns.RuleEmpty | rpa/rpacompiler.c:468-503 | A rule that matched nothing fails, takes its records back and is not cached |
| RpaRuns.RuleFail | rpa/rpacompiler.c:468-503 | A rule whose body failed restores R_REC and R_TOP and caches the failure |
| RpaRuns.CacheKept | rpa/rpavm.c:399-415 | Storing the outcome of a call keeps every answer of the cache equal to the outcome of the call it stands for |
| RpaParse.RunsRule | rpa/rpastat.c:113-147 | On a stack of any size a run from a rule's entry stops: with the outcome of calling the rule at the start of the input and its records behind those that were there, or for want of stack, which does not happen if there is enough |
| RpaParse.CacheTransparent | rpa/rpacache.c:53-107 | Any two runs that do not stop for want of stack, one of them with the cache switched off, on stacks of any two sizes: the same return value, position, stack and records |
| RvmCpu.RunWider | rvm/rvmcpu.c:743-751 | A run on a smaller stack is step by step the run on a larger one, or has stopped for want of room |
| RvmCpu.RunNoRecords | rpa/rpavm.c:309-377 | For a caller that does not want records a run changes none |
| RpaVm.Vm.Parse | rpa/rpastat.c:113-147 | The imperative machine over the lazily decoded input, with a stack of any size: the number of symbols the rule matches (0 for a failure) and exactly its records, or -1, exactly for want of stack; not if there is enough |
| RpaVm.Vm.Restart | rpa/rpastat.c:65-104 | After the reset the machine is as a run expects it: nothing cached, nothing decoded, the registers set |
| RpaVm.Vm.ParseBytes | rpa/rpastat.c:200-227 | The number of bytes up to the place where the matched symbols end, or -1, exactly for want of stack |
| RpaVm.Vm.CacheDisable | rpa/rpastat.c:59-62 | Switches the cache on or off and changes nothing in it |
| RpaVm.CompileAndParse | rpa/rpastat.c:200-227 | End to end from bytes, for grammars without left recursion, with the cache on or off and a stack of any size: compile, link, decode, run; the byte where the match of the reference matcher on the decoded text ends, and its records, which nest; or -1 if a rule does not exist or for want of stack, which does not happen with four entries for each level of the deepest rule and each call of the bound |
| RpaVm.EnoughStack | rvm/rvmcpu.c:743-751 | How many stack entries a parse can need, in numbers: rules, input length and nesting |
| RpaInput.InputStack.Shift | rpa/rpastat.c:408-446 | The input is decoded once and on demand, with the other case of each symbol if case is ignored: the position moves on unless the input ends, and every position reached stays decoded; the buffer is large enough for any bytes |
| RpaInput.DecodeNext | rpa/rpastat.c:408-446 | Decoding at the place of symbol k yields symbol k of the text and the place of the next |
| RpaRecords.NestedRule | rpa/rpacompiler.c:425-503 | A rule call that succeeds wraps its records into one block of the size of the match |
| RpaRecords.ItemNested | rpa/rpavm.c:309-377 | The records of any match are blocks that nest and follow one another like the matched spans |
| RpaParse.ParseNested | rpa/rpavm.c:309-377 | The records of a parse nest inside the match; those of an emitting rule are one block of its size |
| RpaRecordTree.NestedBalanced | rpa/rparecord.c:41-79 | What a parse leaves behind is balanced, so that the functions below recover its forest |
| RpaRecordTree.Get | rpa/rparecord.c:41-79 | On any array: the record at the other end of the block, or -1 if and only if there is none |
| RpaRecordTree.FirstChild | rpa/rparecord.c:82-99 | On a balanced array: the first child, or -1 if and only if there is no child |
| RpaRecordTree.LastChild | rpa/rparecord.c:102-119 | On a balanced array: the last child, or -1 if and only if there is no child |
| RpaRecordTree.Next | rpa/rparecord.c:122-139 | On a balanced array: the nearest sibling behind, or -1 if and only if there is none |
| RpaRecordTree.Prev | rpa/rparecord.c:142-159 | On a balanced array: the nearest sibling in front, or -1 if and only if there is none |
| RpaRecordTree.Parent | rpa/rparecord.c:162-175 | On a balanced array: the block around, or -1 if and only if it is a root |
| RpaRecordTree.Size | rpa/rparecord.c:178-185 | On a balanced array: the number of records from one end of the block to the other |
| RpaRecordTree.Walk | rpa/rparecord.c:228-245 | On a balanced array the walk visits every record of the block once and in order if the callback never stops it and no block is deeper than level 128; otherwise it fails behind the first position where the callback stops or in front of the first block that is too deep, and has visited what lies before |

## Left out

- Counters.CompiledIsLang: one direction only. The exact conditions for one counter and for one class are stated beside it; in a larger expression two wrong parts can make up for each other, as under a star. What is compiled is stated for every expression by RexCompiler.Exp.
- Counters.CounterRightIff: for factors whose words are not arbitrarily long. Over others different upper ends can have the same language, as with (a+){2,3} and (a+){2,4}; CounterRightLower has the lower end.
- Classes.RowKeptRight: one direction only for negated classes, as a complement that is too large can lose just what is too much (RightUnkept). Of up to two ranges TwoRangesRightIff has both; ClassRow says what any class matches.
- RpaVm.Vm.Parse: for rules whose outcome exists; which records are left after a stop for want of stack is not described.
- RpaVm.CompileAndParse: for grammars without left recursion.
- RpaCompiler.RpaCompiler.Compile: for trees of the shapes the grammar's own parser makes, where alternatives are branches and an exception has its two parts.
- RpaInput.InputStack.Shift: without UTF-16; the other case of a symbol is a parameter, the case tables are not modelled.
- Text front ends: the tokens of a regular expression (rex/rexcompiler.c:67-242) and the grammar parser (rpa/rpaparser.c). Both compilers start from syntax trees.
- Fragments and states are values; the memory the dangling list points into, its reallocation, and the reuse of fragment objects are not captured.
- Integer widths of counters, sizes, state numbers and machine registers; only symbols are 32 bits wide, where the wrap-around matters.
- Left recursion: the loop code of rpa/rpacompiler.c, inlined rules, non-loop branches, loop detection and rpa_stat_normalizeleftrecursion. RpaRanks says which grammars do without it.
- First-symbol bitmaps (rpa/rpabitmap.c); the compiler may be called without them.
- The abort instruction and rules that abort on failure.
- Two rules with one name, rule names as text, and rule preferences other than whether records are emitted.
- Fields of a record other than its kind, rule, position and size in symbols. The byte fields are the places of these symbols; rule names and user types are copied.
- Numeric ranges and numeric class members, which compile like characters and ranges.
- What a program does where the machine checks nothing: popping from an empty stack (rvm/rvmcpu.c:817-824), running out of the code, looking at input that no shift has reached. The step function marks it as undefined, the imperative machine requires that it does not happen, and compiled programs are proved never to do it.
- Copying and moving record trees (rpa/rparecord.c:188-225), and setting user types.
- UTF-16 (rlib/rutf.c:102-161) and the case tables. An input that starts behind the start of its buffer.
- rex_db_simulate_nfa, and the transition fields for source state and type, which nothing modelled reads.
- The error path of rex_regex_create, memory management, spin locks and reference counts.
- Output, files, the command line tools, the PHP extension, JSON and JSON-RPC.
