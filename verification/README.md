# A verified model of Mata's automata algorithms

Mata is a library for finite automata and transducers. Its algorithms are worklists over mutable arrays,
each with a meaning that can be said without the worklist: a language. This project models the core
algorithms in Dafny, in the form the library gives them (the same loops, branches, early exits and data
structures), and proves each against that meaning.

An automaton (`Automata.Nfa`) has a number of states, a state post per state (symbol posts sorted by symbol,
each with a non-empty sorted list of targets), and sets of initial and final states. `AcceptsFrom` and
`Accepts` define its language; everything below is stated with them.

- **Hopcroft minimisation** (`RefinablePartition.dfy`, `Hopcroft*.dfy`, `Minimality.dfy`). `RefinablePartition`
  is a class over the arrays `elems`, `location`, `first`, `end`, `mid`. Between rounds the splitters are exactly
  the sets of transitions over one symbol into one block, and two states of a block disagree only on splitters that
  are still to be processed; blocks never separate equivalent states. The result has the same language and is
  smallest among all deterministic automata for it. Ghost counters, raised where transitions are fired or marked,
  bound the work by O(m log n).
- **Antichain inclusion** (`Antichains.dfy`, `Inclusion.dfy`, `Distances.dfy`). Pruning keeps the upward
  closure of the processed pairs, and every insertion enlarges it; so the search ends, and the `paths` map is
  never overwritten and leads back to an initial pair.
- **Tarjan's components and usefulness** (`Graphs.dfy`, `Tarjan*.dfy`, `Trim.dfy`). The explicit program
  stack, saved iterators, lowlinks and the early stop of the propagation down the Tarjan stack.
- **Transducer membership** (`Transducers.dfy`, `EpsilonCycle.dfy`, `FastMembership.dfy`, `Membership.dfy`,
  `Wildcards.dfy`, `OneTape.dfy`, `Interleaving.dfy`). The search without a visited set and the general one both decide
  whether some run reads the tapes. What that means is also said without runs: with equality of symbols for
  wildcards, and with the language of the underlying automaton for one tape and for transitions level by level.
- **Language constructions** (`Macrostates.dfy`, `Determinize.dfy`, `Brzozowski.dfy`, `Complement.dfy`,
  `LanguageDifference.dfy`, `GetWord.dfy`, `ShortestWord.dfy`, `RemoveEpsilon.dfy`, `ProductAutomaton.dfy`,
  `SimulationQuotient.dfy`, `Concatenation.dfy`, `Delta.dfy`).
- **Front end** (`FormulaParser.dfy`, `Mintermization.dfy`, `Utf8.dfy`, `ByteAutomata.dfy`, `DecodingVisits.dfy`,
  `DecodeUtf8.dfy`, `LostWord.dfy`).

Where the code does less than its interface suggests, the code is modelled as it is, and the exact condition is proved:

- `is_included_antichains` clears `cex` only in its test of the initial states. A call that fails in the main loop
  leaves the old contents of `cex`, reversed, inside the counterexample. `Inclusion.InclusionReusingCex` proves that
  a `cex` already holding a run is answered by a counterexample just if the test of the initial states fails;
  `Inclusion.StaleCexExample` is an instance. For other contents with a path and a word of one length, not both empty,
  the answer is only described by `Inclusion.IsIncludedAntichains`.
- `get_shortest_word` counts epsilons: the word returned is what is left of a shortest accepted word when epsilons
  are dropped. `ShortestWords.EpsilonsAreCounted` proves for which alphabets this is always a shortest word of the
  language up to epsilons: those without epsilons, or with nothing else.
- `get_word_from_lang_difference` calls `get_word` with its default, by which symbols from EPSILON on are dropped.
  `LanguageDifference.AnswersNeedNoEpsilons` proves over which symbols its answers are words of the difference:
  just those below EPSILON; `LanguageDifference.OnlyEpsilon` is a failing input.
- `complement_deterministic` takes any state as a sink. `Complementation.ComplementDeterministic` proves that the
  result is the complement over the symbols just if the sink is harmless: it accepts nothing over them, or no state
  reached over them lacks one of them.
- A DONT_CARE jump that repeats its symbol reads different symbols on different levels, so that it is no shorthand
  for jumps over the symbols. `Wildcards.DontCareJumps` is the exact condition on a transition,
  `Wildcards.DontCaresReplaced` the consequence for the language, `Wildcards.JumpNotReplaced` a failing instance.
- `decode_utf8` inserts symbol posts where a byte before had several targets; `OrdVector::insert` drops one whose
  symbol is present already. `DecodeUtf8.DecodeUtf8` proves for all well-formed byte automata that no word is
  gained, and that every move is kept just if, for each code point, all symbol posts met lead only where the first
  does. `DecodeUtf8.OneWayDecodes` is the case of one target for each byte but the last; `LostWord.ForkLosesWord` is
  an automaton that loses a word.

`dafny verify dfyconfig.toml` checks the project.

## Model

| member | source | states |
|---|---|---|
| HopcroftMinimize.MinimizeHopcroft | src/nfa/operations.cc:932-1049 | for a trimmed deterministic automaton with transitions the result accepts the same language, is deterministic and trimmed, no two of its states have the same right language, no deterministic automaton for the language is smaller, and transitions are visited O(m log n) times; without transitions the automaton is returned as it is |
| HopcroftMinimize.RefineAll | src/nfa/operations.cc:1012-1032 | the main loop ends after as many rounds as there are splitters, at most one per transition, with no splitter unready, stable and coarse blocks |
| HopcroftMinimize.InitialPartitions | src/nfa/operations.cc:940-1010 | all states together split by the final ones, transitions grouped by symbol with their splitters split accordingly: the invariant between rounds holds with all splitters unready |
| HopcroftMinimize.BuildQuotient | src/nfa/operations.cc:1034-1048 | one state per block with the moves and finality of the block's first element, however the blocks lie in the arrays |
| Hopcroft.ProcessSplitter | src/nfa/operations.cc:1013-1032 | one round keeps: splitters are the sets of transitions of one symbol into one block, states of a block disagree only on unready splitters, equivalent states stay together, and the counts of rescans and firings stay within their halving bounds; only new splitters are pushed |
| Hopcroft.FireSplitter | src/nfa/operations.cc:1019-1024 | exactly the sources of the splitter's transitions are marked, their blocks are remembered once each, and every transition of the splitter is fired once, though marking moves elements while the splitter is walked |
| HopcroftSplitting.SplitBlock | src/nfa/operations.cc:970-1001 | a partly marked block is halved by its marks; the transitions into the smaller half are split off from their splitters, each new splitter becomes unready once, and only states of that half are rescanned |
| HopcroftSplitting.MarkIncoming | src/nfa/operations.cc:982-990 | exactly the transitions into the block are marked and their splitters remembered once each; every state of the block is gone through once |
| HopcroftSplitting.SplitTouched | src/nfa/operations.cc:992-1000 | every touched splitter is split by the original marks, and just the new numbers are pushed |
| HopcroftInvariants.SplitterSeparates | src/nfa/operations.cc:1013-1032 | the sources of a splitter differ from other states of their blocks in right language: refinement never separates equivalent states of an automaton whose states are co-reachable |
| HopcroftQuotient.StableIsCongruent | src/nfa/operations.cc:1013-1036 | when no splitter is unready, states of one block have transitions over the same symbols into the same blocks, missing transitions included |
| Minimality.ReducedIsMinimal | src/nfa/operations.cc:932-936 | a trimmed deterministic automaton whose states have different right languages has no more states than any deterministic automaton for its language |
| RefinablePartitions.RefinablePartition.OneSet | src/nfa/operations.cc:719-734 | one set with all elements, arrays mutually inverse, nothing marked |
| RefinablePartitions.RefinablePartition.ByLabel | src/nfa/operations.cc:742-798 | after the counting sort two transitions are in the same set just if they have the same label; the arrays satisfy the invariant |
| RefinablePartitions.RefinablePartition.Mark | src/nfa/operations.cc:883-894 | the element joins the marked ones; the sets and the other marks stay, and `elems`, `location` stay inverse |
| RefinablePartitions.RefinablePartition.Split | src/nfa/operations.cc:911-928 | a set with both kinds of elements loses the marked ones to a new set with the next number, otherwise nothing is split; the set has no marks afterwards, and all indices are in range |
| RefinablePartitions.RoomForAnotherSet | src/nfa/operations.cc:911-928 | a set that can be split leaves room for one more: there are never more sets than elements |
| Inclusion.IsIncludedAntichains | src/nfa/inclusion.cc:42-235 | true just if every word of the smaller automaton is a word of the bigger one, despite pruning and the test of lengths; on failure `cex` gets an accepting run of the smaller one on a word that the bigger one rejects, with what `cex` held before reversed into it unless the test of the initial states failed |
| Inclusion.InclusionReusingCex | src/nfa/inclusion.cc:130-135 | for a `cex` that is empty, holds a run, or has a path and a word of different lengths, a failing inclusion is answered by a counterexample just if it is empty or the test of the initial states fails |
| Inclusion.StaleCexIsNoRun | src/nfa/inclusion.cc:173-191 | a run left in `cex`, the run of the empty word included, or anything else whose path and word differ in length makes the answer of the main loop no counterexample at all |
| Inclusion.StaleCexExample | src/nfa/inclusion.cc:173-194 | an instance: {a} against the empty language with the run of the empty word in `cex` |
| Inclusion.EmptyCexIsClean | src/nfa/inclusion.cc:173-191 | with an empty `cex` the answer of the main loop is the counterexample itself |
| Inclusion.ProcessSuccessor | src/nfa/inclusion.cc:168-231 | a successor is bad just if its lengths are incompatible or it is final on the left only; otherwise the invariant is kept with one move more behind, and either nothing changes or fewer pairs are uncovered |
| Inclusion.WalkBack | src/nfa/inclusion.cc:174-184 | following `paths` ends at an initial pair and yields the run by which the pair was accessed, in spite of the pairs erased meanwhile |
| Inclusion.BadRejects | src/nfa/inclusion.cc:110-112 | a pair with incompatible lengths has a word of least length that the left state accepts and no state on the right does |
| Inclusion.Refutation | src/nfa/inclusion.cc:171-192 | the way to the pair, the move and any accepting run of the bad successor that the macrostate rejects form a counterexample |
| Antichains.CoverageGrows | src/nfa/inclusion.cc:211-225 | pruning and inserting adds to the covered pairs exactly those above the inserted one |
| Antichains.UncoveredIsNew | src/nfa/inclusion.cc:197-229 | a pair that is not subsumed has never been accessed, so no entry of `paths` is overwritten |
| Antichains.EverythingCovered | src/nfa/inclusion.cc:150-234 | when the worklist is empty, whatever word is read from a covered pair, the pair reached is covered |
| Distances.DistancesFromInitial | src/nfa/nfa.cc:81-105 | each distance is the length of a shortest word leading to the state, `max_state` just if there is none |
| Distances.DistancesToFinal | src/nfa/nfa.cc:107 | each distance is the length of a shortest word accepted from the state, `max_state` just if there is none |
| Distances.ShortestAcceptingRun | src/nfa/nfa.cc:109-122 | the run is accepting from the given state and its length is the distance; the loop ends because some move gets closer |
| TarjanSearch.DiscoverComponents | src/nfa/nfa.cc:278-389 | a state is flagged just if it is reached from an initial state and reaches a final one; every reached state is handed out in one component, each component is maximal and comes after all components it reaches |
| TarjanSearch.PopComponent | src/nfa/nfa.cc:333-343 | what is popped, each state once, is exactly the component of the root, and the flag tells whether a state in it is useful |
| TarjanSearch.SpreadFlags | src/nfa/nfa.cc:366-379 | the component is flagged and the stack down to the first flagged state, nothing else |
| TarjanSearch.ScanMoves | src/nfa/nfa.cc:314-330 | the iterator stops at a move to an undiscovered state, or at the end of the moves; lowlinks and flags satisfy the search invariant for the same states discovered |
| TarjanComponents.Close | src/nfa/nfa.cc:333-344 | a root's component is what lies on the Tarjan stack from it on, and the search goes on without it |
| TarjanComponents.ComponentIsScc | src/nfa/nfa.cc:333-344 | mutually reachable states whose edges stay inside or lead to components handed out before are a maximal component |
| TarjanUseful.StackReachesTop | src/nfa/nfa.cc:370-375 | every state on the stack reaches the component that is closed, so flagging it is right |
| Trimming.GetUsefulStates | src/nfa/nfa.cc:351-389 | exactly the states are useful to which some word leads from an initial state and from which some word leads to a final one, these being the given states or the automaton's own |
| Trimming.Trim | src/nfa/nfa.cc:124-159 | the result has the same language and only useful states, and is the restriction of the automaton under the consecutive numbering of the staying states |
| Trimming.NumberStaying | src/nfa/nfa.cc:132-139 | the renaming numbers the useful states consecutively in their order |
| Trimming.RestrictionRightLanguage | src/nfa/nfa.cc:141-150 | useful states keep their right languages under renaming |
| DeltaRelation.Delta.Add | src/nfa/delta.cc:114-132 | exactly one transition is added, posts stay sorted and non-empty, and posts are allocated for source and target |
| DeltaRelation.Delta.Defragment | src/nfa/delta.cc:358-380 | in place, the posts become those of the staying states in order, with staying targets renamed and emptied symbol posts erased |
| DeltaRelation.Revert | src/nfa/operations.cc:416-435 | the transitions are turned around, initial and final states exchanged |
| Macrostates.MacrostateDecides | src/nfa/operations.cc:1202-1218 | the macrostate reached by one part of a word decides about the rest |
| Determinization.Determinize | src/nfa/operations.cc:1176-1238 | the result is deterministic with the same language; its states are numbered without repetition by exactly the macrostates reached, transitions follow the unions of targets |
| Determinization.SubsetReached | src/nfa/operations.cc:1214-1230 | every state of the subset automaton is reachable |
| Determinization.MergeSymbols | src/nfa/operations.cc:1210-1217 | the symbols of the posts of a macrostate, each once, ascending |
| Brzozowski.MinimizeBrzozowski | src/nfa/operations.cc:659-662 | for every automaton a deterministic automaton for its language, all of whose states are reachable and have different right languages; no deterministic automaton for the language is smaller |
| Brzozowski.ReverseDisjoint | src/nfa/operations.cc:659-662 | in the reverse of a deterministic automaton no word is accepted from two states |
| Brzozowski.MacrostatesDiffer | src/nfa/operations.cc:659-662 | different macrostates over states with disjoint non-empty right languages accept different words |
| Brzozowski.SecondIsReduced | src/nfa/operations.cc:659-662 | hence no two states of the second subset automaton have the same right language |
| Complementation.MakeComplete | src/nfa/operations.cc:217-238 | exactly the missing transitions over the symbols are added, into the sink, with loops on the sink just if it is new and something was added; if nothing is missing, the automaton stays as it is |
| Complementation.CompletionRightLanguage | src/nfa/operations.cc:217-238 | completion keeps right languages over the symbols if the sink is dead |
| Complementation.ComplementDeterministic | src/nfa/nfa.cc:797-806 | the result is the completion with final and other states swapped, and has no symbols besides the given ones and the input's; without a given sink a word over the symbols is accepted just if the input rejects it, an empty input included; with a given sink that is so just if the sink accepts nothing over the symbols or no state reached over them lacks one; if the input has no other symbols, no other words are accepted |
| Complementation.HarmfulSink | src/nfa/operations.cc:222-231 | otherwise the completion accepts some word over the symbols that the automaton rejects |
| Complementation.ComplementClassical | src/nfa/complement.cc:11-13 | for every automaton, a word over the symbols is accepted just if the input rejects it, even if trimming leaves nothing; no other symbols occur than the given ones and the input's, and if the input has no others, just the rejected words over the symbols are accepted; the result comes from a trimmed deterministic automaton for the language |
| Complementation.ComplementBrzozowski | src/nfa/complement.cc:15-24 | the same from the minimal deterministic automaton for the language, its initial state being the sink just if nothing is accepted |
| LanguageDifference.LangDifference | src/nfa/operations.cc:1556-1660 | without early stop the words of the one and not of the other automaton; with it a part of that automaton which is complete or has a word |
| LanguageDifference.DifferenceLanguage | src/nfa/operations.cc:1571-1658 | the automaton of reachable pairs, the empty macrostate being final on the excluded side, accepts exactly the difference |
| LanguageDifference.GetWordFromLangDifference | src/nfa/operations.cc:1662-1674 | what is left, without epsilons, of a word of the one automaton that the other rejects, or none just if inclusion holds |
| LanguageDifference.AnswersNeedNoEpsilons | src/nfa/operations.cc:1662-1674 | over which symbols every answer is itself a word of the difference: just those below EPSILON |
| LanguageDifference.OnlyEpsilon | src/nfa/operations.cc:1662-1674 | an instance: for the one-letter word of an epsilon against the empty language the answer is the empty word, which is not in the difference |
| WordSearch.GetWord | src/nfa/operations.cc:1326-1403 | none just if the language is empty, otherwise an accepted word without its epsilons; the depth-first search over saved iterators ends |
| ShortestWords.GetShortestWord | src/nfa/operations.cc:1405-1473 | none just if the language is empty, otherwise what is left of an accepted word than which none is shorter |
| ShortestWords.EpsilonsAreCounted | src/nfa/operations.cc:1447-1462 | over which symbols every answer is shortest up to epsilons: just those without epsilons or with epsilons only |
| EpsilonRemoval.RemoveEpsilon | src/nfa/operations.cc:241-295 | the result accepts exactly what is left of the accepted words when epsilons are erased |
| EpsilonRemoval.ComputeClosures | src/nfa/operations.cc:243-280 | the fixpoint is reached, and the entry of every state with transitions is its reflexive and transitive epsilon closure |
| EpsilonRemoval.PassState | src/nfa/operations.cc:264-278 | one turn keeps closures sound and only enlarges them; if it reports no change, none of them changed and the closure of the state is closed |
| ProductAutomaton.Product | src/nfa/product.cc:17-163 | states are exactly the reachable pairs, numbered without repetition; transitions synchronize symbols below the first epsilon and interleave the others; final pairs are those of the condition |
| ProductAutomaton.Intersection | src/nfa/product.cc:17-163 | for the conjunction of finalities a word is accepted up to epsilons just if both operands accept it up to epsilons |
| ProductAutomaton.ProductLanguage | src/nfa/product.cc:95-161 | the same for any automaton with that structure |
| ProductAutomaton.ProductReached | src/nfa/product.cc:61-78 | every product state is reachable |
| SimulationQuotient.ReduceSimulation | src/nfa/operations.cc:1676-1748 | for every forward simulation preorder that respects finality the result is the quotient and accepts the same language; it has one state for each class and no others, and of the targets of a state over a symbol none is simulated by another |
| SimulationQuotient.QuotientLanguage | src/nfa/operations.cc:1703-1745 | using representatives' transitions and dropping simulated targets keeps the language |
| SimulationQuotient.ImportantAbove | src/nfa/operations.cc:1721-1732 | every representative among the targets is simulated by one that is kept: pruning never drops all |
| SimulationQuotient.NumberClasses | src/nfa/operations.cc:1691-1701 | states get the same number just if they have the same representative; all numbers below the count are given, each first to a later state than all smaller ones |
| SimulationQuotient.NumbersAreClasses | src/nfa/operations.cc:1691-1701 | so there are as many states of the result as classes |
| SimulationQuotient.TargetsPruned | src/nfa/operations.cc:1719-1732 | of two different target classes of a transition neither has a state that one of the other simulates |
| Concatenation.Automaton.Concatenate | src/nfa/concatenation.cc:23-56 | the language becomes the product of the two languages, also when the argument is the automaton itself |
| Concatenation.ConcatenationLanguage | src/nfa/concatenation.cc:40-53 | connecting final states to the moved initial moves yields exactly the product of the languages |
| Concatenation.ConcatenateNthPower | src/nfa/concatenation.cc:128-153 | the language is the given power of the input's, for every exponent including 0 |
| Languages.PowerOfSquare | src/nfa/concatenation.cc:141-150 | squaring the base halves the exponent |
| EpsilonCycles.HasEpsilonCycle | src/nft/operations.cc:260-302 | true just if some state reaches itself by epsilon transitions |
| EpsilonCycles.PeelingDecides | src/nft/operations.cc:276-301 | when nothing is left to be peeled, some vertex with edges has not been peeled just if there is a cycle |
| FastMembership.FastSearch | src/nft/operations.cc:145-257 | without epsilon cycles the search with no visited set ends and answers whether some run reads the tapes, all of them or a prefix |
| FastMembership.PushesAreSteps | src/nft/operations.cc:181-254 | the selection of symbol posts by the symbol under the head finds exactly the possible steps |
| FastMembership.StepDescends | src/nft/operations.cc:185-226 | a step reads a symbol or follows an epsilon edge without moving heads: the reason why the search ends |
| FastMembership.ReadSpan | src/nft/operations.cc:199-222 | reading level after level from the source's to the target's, all levels from 0 to 0, succeeds just if every symbol matches |
| Membership.GeneralSearch | src/nft/nft.cc:658-860 | for each jump mode, with or without epsilon cycles, the deduplicating best-first search answers whether some run reads the tapes |
| Membership.VisitedAlong | src/nft/nft.cc:757-857 | when the queue is empty everything reached by a run has been visited |
| Membership.StepModes | src/nft/operations.cc:1052-1058 | a jump is read alike in the modes that share the fast search |
| Wildcards.MatchIffCommon | src/nft/operations.cc:1392-1395 | two symbols match just if they stand for a common symbol, DONT_CARE for all but epsilon, others for themselves |
| Wildcards.DontCareReadsNoEpsilon | src/nft/operations.cc:242-247 | a DONT_CARE transition reads no epsilon on any tape it spans |
| Wildcards.InstancesDecide | src/nft/operations.cc:231-255 | tapes with wildcards are in the language just if some tapes with other symbols in their place are |
| Wildcards.DontCaresReplaced | src/nft/operations.cc:242-254 | replacing DONT_CARE transitions of one level, or all of them if jumps append DONT_CAREs, by transitions over the symbols on the tapes keeps the answer |
| Wildcards.DontCareJumps | src/nft/operations.cc:202-221 | whatever the tapes, reading over DONT_CARE is reading over some one symbol just if the transition has one level or the jump appends DONT_CAREs |
| Wildcards.JumpNotReplaced | src/nft/operations.cc:202-210 | an instance: over two levels DONT_CARE reads 0 and 1, which no other symbol does |
| Wildcards.JumpSplits | src/nft/nft.cc:800-824 | a jump reads as its first level into a state of the next one, followed by the rest of it, which is a jump over DONT_CARE in the mode that appends DONT_CAREs and over the same symbol in the others |
| Wildcards.LevelReads | src/nft/nft.cc:805-815 | a transition of one level reads a symbol just if it and the symbol stand for a common one, in every mode |
| OneTape.OneTapeLanguage | src/nft/nft.cc:789-835 | with one tape, tapes without wildcards are accepted just if the automaton accepts a word that yields them, or a prefix, when any epsilons are dropped |
| Interleaving.LevelByLevelLanguage | src/nft/nft.cc:789-835 | without epsilons and jumps, tapes are accepted just if the automaton accepts a word for the symbols of all tapes in turn, which have one length unless prefixes count |
| Membership.IsInLangByLevels | src/nft/operations.cc:1042-1083 | a wrong number of tapes is an error; otherwise the answer is the same whichever search is used |
| FormulaParser.PopOperators | src/inter-aut.cc:189-197 | the loop that goes on past operators that stay outputs exactly those above the nearest parenthesis than which the incoming one is of lower precedence (for | also an equal one), erasing them in the middle of the stack |
| FormulaParser.AllPopped | src/inter-aut.cc:189-198 | if an operator pops nothing from a stack, and operators than which it is of lower precedence lie above that stack, just these are popped, last first |
| FormulaParser.InfixToPostfix | src/inter-aut.cc:166-219 | on balanced tokens the stack never underflows; the output is what the shunting of the tokens yields |
| FormulaParser.DisjunctionRead | src/inter-aut.cc:173-203 | reading the tokens of a formula on any stack that is empty or has a parenthesis on top adds its output and leaves its pending operators |
| FormulaParser.InfixOfExpression | src/inter-aut.cc:166-219 | the tokens of every formula become its postfix form |
| FormulaParser.DisjunctionBuilt | src/inter-aut.cc:226-261 | a postfix form leaves exactly its tree on the stack, without underflow |
| FormulaParser.PostfixToGraph | src/inter-aut.cc:226-268 | the tree left on the operand stack, or the default graph if there is not exactly one |
| FormulaParser.ParseFormula | src/inter-aut.cc:166-268 | every formula becomes one tree, whose leaves are the operands in the order of the tokens, with the truth value the grammar gives it, ! over & over | |
| FormulaParser.Unambiguous | src/inter-aut.cc:152-158 | formulae with the same tokens have the same tree and the same value |
| Mintermization.ComputeMinterms | src/mintermization.cc:105-122 | the minterms are non-empty, disjoint and cover all valuations, every source predicate is a union of them, and two valuations are in one minterm just if no source tells them apart |
| Mintermization.EnvironmentValues | src/mintermization.cc:164 | the constants and the names of a valuation as truth values |
| Mintermization.MintermsUnique | src/mintermization.cc:105-122 | which determines the set of minterms |
| Mintermization.GraphToBdd | src/mintermization.cc:159-190 | the BDD has the valuations that satisfy the formula, the memo of variables kept consistent |
| Mintermization.FormulaToBdd | src/mintermization.cc:159-190 | from the tokens of a formula its BDD has just the valuations under which the grammar makes it true, an operand being true if it is the constant true or a name, other than the constant false, in the valuation |
| Mintermization.TransToBdd | src/mintermization.cc:45-60 | every formula gets its predicate; unsatisfiable ones get none |
| Mintermization.MintermsToAut | src/mintermization.cc:192-217 | a transition for exactly the minterms that its formula meets |
| Mintermization.MintermizedFrom | src/mintermization.cc:192-217 | a word of valuations is accepted just if the word of their minterms' numbers is |
| Mintermization.InclusionPreserved | src/mintermization.cc:256-284 | automata mintermized together are included just if the originals are |
| Mintermization.Mintermize | src/mintermization.cc:256-284 | all automata get the same minterms, two valuations sharing one just if all formulae have the same values under both, and every inclusion between the automata is the same before and after |
| Utf8.EncodeWord | src/alphabet.cc:187-213 | fails just if a symbol is no code point; otherwise the concatenated bytes of section 3 of RFC 3629 |
| Utf8.DecodeWord | src/alphabet.cc:215-244 | the code points announced by the first bytes; a result just if the word splits into chunks as long as the ranges of their first bytes announce |
| Utf8.DecodesJustIfChunked | src/alphabet.cc:218-241 | when decoding succeeds, said with ranges of first bytes only; every chunk is one code point |
| Utf8.ByteOrder | src/alphabet.cc:190-207 | encodings are ordered byte by byte like their code points, as section 1 of RFC 3629 promises |
| Utf8.Examples | src/alphabet.cc:190-207 | the code points of the examples in section 7 of RFC 3629 |
| Utf8.RoundTrip | src/alphabet.cc:187-244 | decoding inverts encoding on all words of code points |
| Utf8.EncodingInjective | src/alphabet.cc:187-213 | different words of code points have different encodings |
| DecodeUtf8.DecodeUtf8 | src/nfa/nfa.cc:838-944 | for every well-formed byte automaton, with any number of targets for a byte: a state in which code points begin moves over a code point to the targets of the first symbol post met for it; a word of code points is accepted only if the input accepts its encoding; the result moves wherever the bytes lead just if nothing is lost, and then accepts all such words |
| DecodeUtf8.DecodesJustIfNothingLost | src/nfa/nfa.cc:855-861 | the result is the decoding just if, for every state in which code points begin and every code point, all symbol posts met for it lead only where the first one does |
| DecodeUtf8.OneWayDecodes | src/nfa/nfa.cc:849-861 | if only the last bytes of code points have several targets, the decoded automaton accepts a word of code points just if the input accepts its encoding |
| LostWord.ForkLosesWord | src/nfa/nfa.cc:849-889 | an instance: 0xC2 leads to two states, 0x80 on to two others, of which only the second is final; U+0080 is lost |
| DecodeUtf8.DecodeState | src/nfa/nfa.cc:874-940 | the symbol posts of a state are met in the order of the loops, overlong and too large code points being left out; the first of each code point is kept and all their targets are pushed, dropped or not |
| DecodeUtf8.DecodeTail | src/nfa/nfa.cc:888-938 | the loops over the bytes after the first, with their flag: unless a byte before had several targets, code points ascend, so that appending does what inserting would |
| DecodeUtf8.AddVisit | src/nfa/nfa.cc:844-861 | appending or inserting one symbol post keeps the first of each code point and pushes its targets |
| DecodeUtf8.InsertGathers | src/nfa/nfa.cc:855-861 | inserting into the post of the first symbol posts yields the post of the first ones with one more: a later one with the same symbol is dropped |
| DecodingVisits.VisitsAreSpelled | src/nfa/nfa.cc:874-938 | the symbol posts met from a state in which code points begin are exactly those that the bytes spell |
| DecodingVisits.OneWayLosesNothing | src/nfa/nfa.cc:849-861 | with one target for each byte but the last of a code point nothing is lost |
| ByteAutomata.DecodesContinuations | src/nfa/nfa.cc:882-933 | collecting low bits byte by byte meets a code point just when exactly its continuation bytes are read |

## Left out

- State sets, sparse sets and `OrdVector`s are sets or strictly sorted sequences with the library's `insert` and `push_back`; their own implementations are not modelled.
- The number of states is a field of the automaton instead of being derived from the posts and the initial and final states.
- The synchronized iterators are modelled by what they deliver: the symbols of several posts in ascending order, and the union of the targets over one of them.
- `std::unordered_map` and `std::unordered_set` iterate in an unspecified order; loops over them, and over sets of states, take elements in any order.
- Machine integers: numbers of states, indices and lengths are unbounded; only `Limits::max_state`, which the distances use as infinity, is modelled, and the symbols are natural numbers.
- Inclusion.InclusionReusingCex: says nothing of a non-empty `cex` whose path and word are of equal length, for which the answer may or may not be a run.
- TarjanSearch.DiscoverComponents: the callbacks are those of `get_useful_states`, and the components handed out are collected besides; the callbacks of `is_acyclic` and `is_lang_empty_scc` with their early aborts are not modelled, and the moves of a state are a list of successors.
- Utf8.EncodeWord: masks and shifts are written as remainders and quotients of natural numbers.
- DecodeUtf8.DecodeUtf8: recursive methods stand for the nested loops over the second, third and fourth byte; from a state in which code points begin only first bytes with their continuation bytes may lead, as the source mostly asserts, so that other byte sequences do not occur.
- FastMembership.FastSearch: every transition leads to a level above that of its source or to level 0, as `Levels::can_follow` demands.
- Membership.GeneralSearch: `post` is modelled as membership uses it, with all tapes used and a stop condition; projected-out tapes, the returned set of states, `visited_zero_level_states` and the interning of positions are not.
- SimulationQuotient.ReduceSimulation: the simulation and its quotient projection are inputs with their defining properties; computing them is left to another library.
- Mintermization.Mintermize: a BDD is the set of the valuations that satisfy it, and the names of the variables are known beforehand; mintermization of alternating automata is not modelled.
- FormulaParser.InfixToPostfix: parentheses must be balanced, without which the source reads an empty stack; `create_node` and the naming of operands are not modelled.
- FormulaParser.PostfixToGraph: operators must find their operands, as the source asserts.
- LanguageDifference.LangDifference: the hook is the one of `get_word_from_lang_difference` or none.
- Determinization.Determinize: the hook `macrostate_discover` is not modelled.
- Antichain universality (src/nfa/universal.cc): the search of `Inclusion` without the smaller automaton; it would repeat the same proof.
- `concatenate_eps`, `unify_targets`, `Delta::remove`, `get_word_from_complement`, residual reductions and NFT constructions other than membership.
- Input and output, parsing of files, alphabets as maps from names to symbols, and the dispatch by parameter maps.
