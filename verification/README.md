# Verified model of content-model compilation and type derivation

A Dafny 4.11 model of the parts of an XML Schema processor that decide which
child elements an element may have and how types derive from each other.
`dafny verify dfyconfig.toml` checks everything.

**Content models.** A content model is a tree of sequences, choices and xs:all
groups with occurrence ranges. Its meaning is a set of words (`Languages`,
`ContentLanguage`): a word is a sequence of child names, a repetition is a union
of powers. The tree is lowered (`Lowering`, `NestedRepeats`, `ModelTables`),
checked for cycles (`ModelGraphs`), extended (`Extensions`) and compiled: directly to rows with a run-time
count (`CountedRows`, `DirectModels`), or through a position automaton with
counters, guards and resets (`PositionAutomaton`, `AutomatonConcat`,
`AutomatonRepeat`, `PositionBuilder`, `GuardPairs`, `DfaBuilding`), its rows (`SourceRows`,
`SourceTables`) and a capped-counter subset construction (`CappedCounters`,
`SubsetRows`, `SubsetTables`, `StateSpaces`, `DfaCompilers`), or to the terms of an xs:all
(`AllGroups`). Rows must satisfy unique particle attribution, section 3.8.6 of
XML Schema Part 1: Structures (`Overlap`, `StartLanguage`, `ProductiveTrees`, `CompiledRows`). Wide
rows get a name index (`RowIndexes`). A mutable state is then advanced one child at
a time (`ContentMachines`, `ContentScratches`, `ContentRuns`). The main result is
`ContentCompilers.CompileContentModel` together with `ContentRuns.ContentRun`: what
compiles accepts exactly the words of the tree, every refusal has its exact cause, and
the running state never strays from that.

**Types.** `TypeGraphs` says what it means for one type to derive from another.
`DerivationForests`, `DerivationIndexes` and `DerivationQueries` answer from a
published index with reusable scratch storage; `SlowDerivation`, `PairSearches`
and `DerivationAnswers` answer by walking. Both are proved equal to the same
definition, so they agree. `ListReachabilities` remembers which types reach a list, and
`SimpleTypeTables` shows that what is remembered survives while the compiler appends
placeholders and overwrites them.

**Around them.** `ParticleRanges` relates emptiability and count ranges to the
language, `Restrictions` turns accepted particle mappings into language inclusions,
`Substitutions` settles types along substitution groups, `TargetContexts` computes
the target namespaces of chameleon includes (section 4.2.1 of XML Schema Part 1) as a
least set, and `DecimalText` and `OccurrenceText` decide 32-bit bounds on decimal
text of any length.

How the parts of the program appear here:

- Builders, worklists, mutable states and scratch storage are classes whose methods
  change their fields. Queries that only compute are functions. Every such method is
  proved against a definition that does not mention it.
- A method that the program writes as one loop is often split into one method per
  turn of the loop (`SequenceStep`, `BuildNext`, `SearchStep`, `TakeTurn`, `Record`).
- Ghost state such as `order`, `live`, `visited` or `read` exists for proofs only.
- Names stand for themselves; a child whose name is not in the name table is marked
  as unknown. A wildcard is its namespace constraint, a substitution table is each
  head's list of members.

Where the program does not do what its description says, the model follows the
program and the exact condition is proved:

- Flattening a group with a single particle is wrong when one range is zero and the
  other unbounded, or when a product of bounds exceeds 32 bits
  (`NestedRepeats.FlattenIff`, `Lowering.ZeroGroupFlattensWrong`).
- An extension treats a choice without alternatives that must occur as empty content,
  and beside other content an any model as nothing (`Extensions.HollowExample`,
  `Extensions.AnyExtensionExample`). `Extensions.ExtensionIsConcatenation` says for
  every pair of models exactly when the extension is still the base followed by its own
  content; beside an any model the condition speaks of a language, and
  `Extensions.AnyExtensionFails` and `Extensions.OpenFrontAbsorbs` read it off the table.
- Two wildcards can be reported as overlapping although no child matches both
  (`Overlap.WildcardsOverlapIff`). Compilation then refuses a model it could accept
  (`ContentCompilers.FalseAlarmRefused`).
- The memory of list types is described for an append-only table of completed types,
  but placeholders in it are overwritten in place. `SimpleTypeTables.SurvivesIff` says
  exactly when memory survives that; in the compiler's hands it always does
  (`SimpleTypeTables.SimpleTypeTable.MemorySurvives`).
- The count range of an unbounded repetition has no maximum even when what repeats is
  always empty (`ProductiveTrees.IdleRepeat`); `ProductiveTrees.ModelCountAttained` says
  exactly when there is none.
- `minOccurs="-0"` is refused although the type of that attribute admits it; a size
  facet with the same text is accepted (`OccurrenceText.NegativeZeroIsNoCount`). Counts
  are exactly the nonnegative integers without a minus sign
  (`OccurrenceText.CountIffUnsignedSize`).

## Model

| member | source | states |
|---|---|---|
| ContentCompilers.CompileContentModel | internal/compile/content_model.go:436-462 | whichever path compilation takes, a compiled model accepts exactly the words of the tree with the root choice limits applied, and its empty flag says exactly whether the empty word is one of them; empty and any models always compile, and every other refusal has its exact cause: overlapping terms of an xs:all, too many rows or competing particles on the direct path, and otherwise an unsupported nested group, too many reached sets of entries or configurations, or a reached set with an overlap that some counters enable, in the automaton of the tree; an id in range never ends in an internal error |
| ContentCompilers.CompileRowModel | internal/compile/content_model.go:454-461 | a sequence or choice that compiles, by rows or by automaton, is exact after its wide rows are indexed; indexing never fails, and each refusal has its exact cause, an ambiguity two overlapping entries that some counters enable together |
| ContentCompilers.CompileDirect | internal/compile/content_model.go:464-476 | the direct path is taken exactly for one occurrence when, before any group, rows run out or the particles do; its rows accept exactly the language of the model with choice limits, and it is refused exactly for too few rows or for competing particles |
| ContentCompilers.CompileAllModel | internal/compile/content_model.go:702-731 | an xs:all compiles to a machine that accepts exactly its words, and is refused exactly for overlapping terms, or for more terms than published bits can count |
| ContentCompilers.FalseAlarmRefused | internal/compile/content_model.go:617-637 | a choice of ##other and of the list of the local and the same namespace is refused as ambiguous although no child matches both |
| ContentCompilers.IndexRows | internal/runtime/compiled_model.go:108-118 | indexing changes nothing of a row but its index, and every index that is enabled mirrors its row |
| ContentCompilers.IndexedAccepts | internal/runtime/compiled_model.go:108-118 | a row table accepts the same words with and without indexes |
| ContentCompilers.DfaIsExact | internal/compile/content_model.go:533-541 | rows checked for ambiguity, run without backtracking, accept exactly what some choice of edges accepts |
| ContentCompilers.AllIsExact | internal/compile/content_model.go:702-731 | a compiled xs:all accepts exactly the orders of its terms, each at most once, with everything required present |
| ContentRuns.ContentRun.AdvanceContent | internal/runtime/content_compiled.go:313-334 | after every accepted child the mutable state is the state of the specified machine on the children read, and the declaration reported is that of the element or substitute with the child's name, or what the wildcard's processing prescribes: skipped, the global declaration, none, or missing under strict; a refused child leaves the state alone and no continuation of the children read plus that child is accepted |
| ContentRuns.ContentRun.CompleteContent | internal/runtime/content_compiled.go:337-355 | an element may end exactly when the children read form an accepted word |
| DfaBuilding.DfaBuilder.ModelNode | internal/compile/content_model.go:851-883 | for every nesting of sequences, choices and occurrence ranges the automaton of a model recognizes exactly its language from any counters that are zero on its own slots; it is refused exactly when an id is out of range or an xs:all or any group occurs in the tree, and its new positions are the leaves of the tree in order |
| DfaBuilding.DfaBuilder.ParticleNode | internal/compile/content_model.go:885-904 | the automaton of a particle recognizes the particle, limited only at the root |
| DfaBuilding.DfaBuilder.Leaf | internal/compile/content_model.go:906-913 | a new position recognizes one child that matches its term |
| DfaBuilding.DfaBuilder.Concat | internal/compile/content_model.go:915-935 | joining two automata recognizes the concatenation of their languages and adds follow entries only at the left one's positions |
| DfaBuilding.DfaBuilder.Choice | internal/compile/content_model.go:937-944 | uniting two automata recognizes the union of their languages |
| DfaBuilding.DfaBuilder.Repeat | internal/compile/content_model.go:946-988 | repeating an automaton within any range, counted or not, recognizes the repetition of its language |
| DfaBuilding.DfaBuilder.RepeatLastEntries | internal/compile/content_model.go:990-1008 | every last entry gains the exit guard and the count action of the repetition |
| DfaBuilding.DfaBuilder.AddRepeatLoopFollows | internal/compile/content_model.go:1010-1025 | the follow table gains exactly the guarded, counting, resetting edges from last to first entries |
| DfaBuilding.DfaBuilder.AddFollow | internal/compile/content_model.go:1063-1066 | the follow table gains exactly one edge and nothing changes at other positions |
| AutomatonConcat.ConcatRecognizes | internal/compile/content_model.go:915-935 | a run across the bridge edges is a run of the left automaton followed by a run of the right one, counters included |
| PositionAutomaton.ChoiceRecognizes | internal/compile/content_model.go:937-944 | a run of the union stays inside one alternative |
| AutomatonRepeat.RepeatRecognizes | internal/compile/content_model.go:946-1032 | runs of the loop are exactly runs cut into an allowed number of rounds: the exit guard admits exactly the rounds at or above the minimum, the loop guard exactly those below the maximum, and resets make each round start from zero |
| AutomatonRepeat.RepeatSound | internal/compile/content_model.go:946-1025 | an accepting run of the loop cuts its word into an allowed number of accepted pieces |
| AutomatonRepeat.RepeatComplete | internal/compile/content_model.go:946-1025 | every word cut into an allowed number of pieces has an accepting run |
| AutomatonRepeat.ExitIff | internal/compile/content_model.go:990-1008 | after the last round the exit guard is enabled exactly when enough rounds have been made |
| PositionAutomaton.RecognizesRelabel | internal/compile/content_model.go:906-913 | positions and counters added later do not disturb a finished part |
| PositionAutomaton.ReachFrame | internal/compile/content_model.go:1057-1061 | a run never leaves its own positions and never changes counters of other slots |
| SourceRows.SourceAcceptsIff | internal/compile/content_model.go:763-824 | the explored rows accept exactly what the position automaton accepts from counters at zero |
| DfaCompilers.AddEndFollows | internal/compile/content_model.go:768-777 | closing the follow table adds one end entry for each last entry and nothing else |
| DfaCompilers.ExploreSource | internal/compile/content_model.go:763-797 | the rows found from the start entries accept exactly the root's language; exploration fails exactly when more sets of entries are reached than the limit and 32 bits have room for |
| SourceTables.SourceTable.StateId | internal/compile/content_model.go:826-842 | an entry set that is reached is found or numbered next, queued once when new; it fails only when more sets are reached than there is room for |
| SourceTables.SourceTable.BuildRow | internal/compile/content_model.go:799-824 | a row lists exactly the edges and acceptances of its entries, each edge leading to the state of its position's follow set |
| SourceTables.SourceTable.Explore | internal/compile/content_model.go:779-793 | states are built in the order they are numbered, so an edge's target is the index of the row built for it; it fails exactly when more sets of entries are reached than there is room for, and positions are never out of range |
| SourceTables.ExploredAll | internal/compile/content_model.go:779-793 | when the queue is empty, every set of entries that can be reached has its state |
| SourceTables.SourceTable.DistinctStates | internal/compile/content_model.go:826-842 | no two states stand for the same entry set |
| PositionBuilder.EntryKeyInjective | internal/compile/content_model_dfa.go:378-403 | different entries never share a key |
| Normal.NormalizeCanonical | internal/compile/content_model_dfa.go:323-329 | two slices have the same normal form exactly when they hold the same elements |
| DfaCompilers.CheckSourceUpa | internal/compile/content_model.go:1068-1091 | source rows are accepted exactly when no two edges of different positions overlap while some counters enable both; in accepted rows the edges that some counters enable and that match one child share a position |
| DfaCompilers.CompileDfa | internal/compile/content_model.go:763-797 | the rows of the automaton path accept exactly the model's language; it is refused as unsupported exactly for unsupported trees, at the state limit exactly when too many sets of entries or of configurations are reached, and for ambiguity exactly when a reached set holds two overlapping entries that some counters enable together, or overlapping terms; a tree whose leaves do not overlap is never refused for ambiguity, and no internal error arises |
| DfaCompilers.SourceCleanIff | internal/compile/content_model.go:1068-1091 | the source rows pass exactly when no reached set has two entries for different positions that overlap and that some counters enable together |
| DfaCompilers.OnePosition | internal/compile/content_model.go:1068-1091 | in an automaton that is not refused, of the entries that are current together, those that some counters enable and that match one child share one position |
| GuardPairs.ComplementaryExcludes | internal/compile/content_model_dfa.go:265-282 | two lists of guards with a complementary pair are never enabled by the same counters |
| GuardPairs.LoopAndExit | internal/compile/content_model_dfa.go:269-282 | the guards for repeating and for leaving one loop are enabled together by some counters exactly when the loop may have two rounds and its bounds differ |
| GuardPairs.TogetherIff | internal/compile/content_model_dfa.go:265-282 | for guards of one automaton the test for a complementary pair says exactly whether no counters enable both lists |
| DfaCompilers.DetCleanIff | internal/compile/content_model.go:617-637 | the deterministic rows pass exactly when no reached set of configurations has enabled edges under two terms that overlap |
| DfaCompilers.KnownIsClosed | internal/compile/content_model.go:799-824 | every entry that can be reached has a position and counters that exist |
| DfaCompilers.ApartSourceClean | internal/compile/content_model.go:1068-1091 | when no two leaves of the tree overlap, every source row passes the ambiguity check |
| DfaCompilers.CompileDeterministic | internal/compile/content_model_dfa.go:32-86 | determinization keeps the language of the source rows; it fails at the limit exactly when too much is reached, and for ambiguity exactly when a reached set has enabled edges under two terms that overlap |
| SubsetRows.SubsetAcceptsIff | internal/compile/content_model_dfa.go:32-137 | a deterministic row table accepts a word exactly when some uncapped counter configuration does |
| SubsetRows.SubsetExact | internal/compile/content_model_dfa.go:32-137 | after any word the current row stands for exactly the capped images of the uncapped configurations reachable on it |
| SubsetTables.SubsetTable.StateId | internal/compile/content_model_dfa.go:37-59 | a set of configurations that is reached is found or numbered next; it fails only when too many sets are reached, or one with too many configurations |
| SubsetTables.SubsetTable.DistinctStates | internal/compile/content_model_dfa.go:230-243 | no two deterministic states stand for the same set of configurations |
| SubsetTables.SubsetTable.DeterministicRow | internal/compile/content_model_dfa.go:88-137 | a row accepts exactly when one of its configurations may end, and has exactly one group of successors for each term with an enabled edge |
| SubsetTables.CollectMoves | internal/compile/content_model_dfa.go:88-117 | the groups hold exactly the configurations one enabled edge away, under the edge's term; in range it never fails |
| SubsetTables.SubsetTable.Explore | internal/compile/content_model_dfa.go:60-75 | every discovered state gets the row at its own number; it fails exactly when too many sets are reached, or one with too many configurations |
| CappedCounters.CounterCaps | internal/compile/content_model_dfa.go:139-159 | the caps are the least that reach every threshold a guard of the table compares with |
| CappedCounters.CappedGuards | internal/compile/content_model_dfa.go:161-184 | capping counters never changes the outcome of a guard |
| CappedCounters.CappedActions | internal/compile/content_model_dfa.go:186-204 | acting on capped counters is capping the result of acting |
| DirectModels.CompileDirectSequence | internal/compile/content_model.go:478-542 | a sequence of elements and wildcards compiles to rows that accept exactly its language; it is declined exactly when a group comes before rows run out, fails at the state limit exactly when rows run out before a group, and is refused for ambiguity exactly when a particle of variable count overlaps a later one with nothing required in between |
| DirectModels.CompileDirectChoice | internal/compile/content_model.go:544-589 | a choice of elements and wildcards compiles to rows that accept exactly its language; it is declined exactly when a group comes before rows run out, fails at the state limit exactly when rows run out before a group, and is refused for ambiguity exactly when two alternatives that may occur overlap |
| DirectModels.FlatCleanIff | internal/compile/content_model.go:617-637 | the rows of flat particles are ambiguous exactly when two particles compete, the loop and exit of a fixed repetition excepted |
| DirectModels.SequenceParticle | internal/compile/content_model.go:482-524 | one more particle extends the language of the rows built so far by the particle's repetition, and keeps the earlier rows active exactly when it may be absent |
| DirectModels.ChoiceParticle | internal/compile/content_model.go:546-576 | one more alternative adds exactly the particle's repetition to the accepted words |
| DirectModels.AppendRow | internal/compile/content_model.go:591-596 | a row is appended unless the state limit is reached |
| CountedRows.GrownLang | internal/compile/content_model.go:502-523 | a row that counts, loops and is reached from every active row adds exactly an allowed number of matches, although the count saturates |
| CountedRows.NewReachSound | internal/runtime/content_compiled.go:539-563 | a state of a counted row has matched its term as often as its count says, up to saturation |
| CountedRows.LeafPower | internal/compile/content_model.go:605-615 | a repetition of a single term is a number of children that each match it |
| ContentLanguage.LimitedCounts | internal/compile/content_model.go:691-700 | a particle at a listed place, unless it must occur more than once, keeps its counts up to one; every other particle keeps all its counts |
| ContentLanguage.LimitsNarrow | internal/compile/content_model.go:691-700 | choice limits only narrow the language of a sequence |
| CompiledRows.AtMostOneEdge | internal/runtime/compiled_model.go:361-368 | in an unambiguous row at most one edge can match and advance, for every child and every count, the loop and exit of a fixed repetition included |
| CompiledRows.RunIsReach | internal/runtime/content_compiled.go:415-437 | the machine that takes the first edge that matches reaches exactly the states that any choice of edges can reach |
| CompiledRows.RunAcceptsIff | internal/runtime/content_compiled.go:415-448 | the machine that never backtracks accepts exactly the words some choice of edges accepts |
| CompiledRows.ScanIsUnique | internal/runtime/content_compiled.go:415-437 | a possible step is the step the scan takes |
| CompiledRows.CheckCompiledRowsUpa | internal/compile/content_model.go:617-637 | exactly the row tables without ambiguity pass; the pre-check hides none |
| Overlap.NeedUpaCheck | internal/compile/content_model.go:640-684 | the pre-check skips a list of terms only when no two of them overlap |
| Overlap.TermsOverlapIff | internal/runtime/particles.go:208-258 | with nested groups, two particles that can start with a common name always overlap, and without wildcard false alarms only those do (what starting with a name means is StartsIff) |
| Overlap.WildcardsOverlapIff | internal/runtime/wildcard.go:301-329 | two wildcards are reported as overlapping exactly when they share a namespace or one of two named false alarms applies |
| Overlap.FalseAlarmExample | internal/runtime/wildcard.go:301-329 | an ##other wildcard and a list of the local and the target namespace are reported although no child matches both |
| Overlap.BothMatchOverlap | internal/runtime/particles.go:208-241 | two direct terms that match one child overlap |
| Overlap.HeadAgrees | internal/runtime/particles.go:276-326 | scanning a head's members agrees with looking a name up among the effective ones |
| StartLanguage.TermStarts | internal/runtime/particles.go:261-348 | the first child of any word of a particle without an any group below it has a name the start test accepts |
| StartLanguage.CommonFirstChild | internal/runtime/particles.go:208-258 | two particles without any groups below them, with words that begin with the same child, overlap |
| StartLanguage.ReferencesAnyFree | internal/compile/content_model_lowering.go:228-248 | where no particle stands for an any model, only the any model itself has one below it |
| ProductiveTrees.StartsReached | internal/runtime/particles.go:261-348 | where every part can take part, a name that the start test accepts really begins a word; a sequence stops at its first required particle |
| ProductiveTrees.StartsIff | internal/runtime/particles.go:261-348 | there, without any groups, the start test accepts exactly the names of first children |
| ProductiveTrees.OverlapIffCommonFirst | internal/runtime/particles.go:208-258 | there, without wildcard false alarms, two particles overlap exactly when some child begins a word of each |
| Schema.MatchDirect | internal/runtime/content_compiled.go:485-537 | a direct particle matches exactly the names of its element, its effective substitutes or its namespaces, reports the declaration of the element or substitute with the child's name or what the wildcard's processing prescribes, and is invalid exactly when its reference is |
| Schema.ReportedName | internal/runtime/content_compiled.go:485-510 | the declaration reported under an element particle has the child's name |
| CompiledRows.ScanReports | internal/runtime/content_compiled.go:415-437 | what the scan reports for a child is the report of the edge it takes |
| RowIndexes.IndexCompiledRow | internal/runtime/compiled_model.go:120-155 | an index is built only for rows of eight edges or more and mirrors the row; a wide row keeps the scan only when two edges share a name or an edge is a group |
| RowIndexes.ValidateRowIndex | internal/runtime/compiled_model.go:394-450 | exactly the indexes that mirror their row are valid |
| RowIndexes.UnnamedEdge | internal/runtime/content_compiled.go:450-455 | an element edge that the index does not name for a child cannot match it |
| ContentMachines.NextCandidate | internal/runtime/content_compiled.go:456-468 | named edge and wildcards are tried in edge order and everything between is skipped soundly |
| ContentMachines.ContentState.AdvanceIndexed | internal/runtime/content_compiled.go:450-483 | for every child, row and count the indexed step has the match, status and successor of the linear scan |
| ContentMachines.ContentState.AdvanceLinear | internal/runtime/content_compiled.go:415-437 | the linear step takes the first edge that matches and advances, and changes nothing otherwise |
| ContentMachines.ContentState.TryEdge | internal/runtime/content_compiled.go:539-563 | taking an edge moves the state as specified, with the count stopping at the largest 32-bit value, or leaves it alone |
| AllGroups.AllAcceptsIff | internal/runtime/content_compiled.go:366-413 | for terms that do not overlap, the machine accepts exactly the words of the xs:all group |
| AllGroups.AssignmentRuns | internal/runtime/content_compiled.go:366-388 | the first free matching term is the one term the child can take |
| AllGroups.AllOrderFree | internal/runtime/content_compiled.go:366-413 | reordering the children changes neither the terms ticked nor the outcome |
| AllGroups.CompileAll | internal/compile/content_model.go:702-731 | terms keep their order and their required flag, the bit words suffice for all terms, and the group is ambiguous exactly when two terms overlap |
| AllGroups.CheckPairwiseUpa | internal/compile/content_model.go:737-750 | particles pass exactly when no two overlap |
| ContentScratches.ContentScratch.AllBit | internal/runtime/content_compiled.go:56-65 | a term has a bit exactly when the window and the array reach it, and the place is its own |
| ContentScratches.SetBit | internal/runtime/content_compiled.go:47-54 | setting a bit sets that bit only |
| ContentScratches.ContentScratch.SetAllSeen | internal/runtime/content_compiled.go:47-54 | ticking a term changes no other tick and no word outside the window |
| ContentScratches.ContentScratch.AdvanceAll | internal/runtime/content_compiled.go:366-388 | a child ticks the first free term that matches it, and nothing changes otherwise |
| ContentScratches.ContentScratch.CompleteAll | internal/runtime/content_compiled.go:390-413 | the group may end when nothing required is missing, or nothing is present and it may be empty |
| ParticleRanges.ModelEmptiableIff | internal/runtime/particles.go:21-49 | a model is emptiable exactly when the empty word is in its language |
| ParticleRanges.ParticleEmptiableIff | internal/runtime/particles.go:71-79 | a particle is emptiable exactly when the empty word is in its language |
| ParticleRanges.ModelCountBounds | internal/runtime/particles.go:91-134 | every accepted word is at least as long as the minimum and, unless unbounded or saturated, at most as long as the maximum |
| ParticleRanges.ParticleCountBounds | internal/runtime/particles.go:123-134 | the same bounds for a particle with its own range |
| ParticleRanges.CountModel | internal/runtime/particles.go:91-120 | the accumulating loops compute the range that ModelCountBounds proves safe and ModelCountAttained proves best |
| ProductiveTrees.ModelCountAttained | internal/runtime/particles.go:91-134 | where every part can take part, words of exactly the minimum and of exactly the finite maximum exist unless saturated; words of every length exist exactly when something that has a child repeats without bound |
| ProductiveTrees.IdleRepeat | internal/runtime/particles.go:119-119 | an empty sequence repeated without bound has no maximum although only the empty word is accepted |
| ParticleRanges.RangeSubsetMeans | internal/runtime/particles.go:170-181 | the range test holds exactly when every count of the first range is in the second |
| ParticleRanges.SaturatingMul | internal/runtime/particles.go:197-205 | multiplication is exact up to the largest 32-bit value and stays there |
| Lowering.GroupBuilder.AppendParticle | internal/compile/content_model_lowering.go:103-115 | a particle is appended, dropped when it cannot occur, or refused in an xs:all |
| Lowering.GroupBuilder.AppendFlattenedModelChild | internal/compile/content_model_lowering.go:252-273 | splicing is done exactly under its rules, and the body then means the old body followed by, or united with, the child |
| NestedRepeats.FlattenIff | internal/compile/content_model_lowering.go:275-281 | under the guard, multiplying the ranges keeps every language exactly when neither range is zero beside an unbounded one and no product saturates |
| NestedRepeats.NestedRep | internal/compile/content_model_lowering.go:258-266 | a repetition of a repetition allows exactly the counts that can be cut into groups |
| Lowering.FlattenedIsNested | internal/compile/content_model_lowering.go:252-273 | splicing a child and appending the particle that stands for it give the same body |
| Lowering.ZeroGroupFlattensWrong | internal/compile/content_model_lowering.go:258-264 | a group that cannot occur around an unbounded particle is flattened into a particle that may occur |
| Lowering.ModelParticle | internal/compile/content_model_lowering.go:228-248 | the particle that stands for a model has the model's language and never stands for the any model; none exists exactly for a zero range; it fails exactly for a missing model, or when a copy is needed that the limit has no room for |
| Lowering.AppendContent | internal/compile/content_model_lowering.go:182-194 | splicing or referencing a model appends its language, the any model's excepted; it fails exactly for a missing model or a copy without room |
| Lowering.ModelWithMixed | internal/compile/content_model_lowering.go:200-213 | only the mixed flag differs, and the language is kept; it fails exactly for a missing model or a copy without room |
| Lowering.ExtendSequenceModel | internal/compile/content_model_lowering.go:165-196 | the result has the language of an extension for every base and extension, the joined mixed flag, and leaves every earlier model's language alone; it fails exactly for a missing model, or when the models it must add exceed the limit |
| Extensions.ExtensionIsConcatenation | internal/compile/content_model_lowering.go:165-196 | for every pair of models an extension accepts exactly the base followed by the extension under one condition: beside a hollow choice the other side accepts nothing, and beside an any model with particles on the other side that side swallows everything put next to it |
| Extensions.HollowExtension | internal/compile/content_model_lowering.go:176-181 | beside a choice without alternatives that must occur, an extension keeps the other side, and is the concatenation exactly when that side is barren |
| Extensions.HollowExample | internal/compile/content_model_lowering.go:176-181 | a hollow base before one element: the extension accepts the element and the concatenation nothing |
| Extensions.AnyExtensionExample | internal/compile/content_model_lowering.go:228-238 | the any model before one element: the extension is not the concatenation |
| Extensions.AnyExtensionFails | internal/compile/content_model_lowering.go:228-238 | beside an any base, an extension of bounded length, or one that cannot begin with some name, is the concatenation exactly when it is barren |
| Extensions.OpenFrontAbsorbs | internal/compile/content_model_lowering.go:228-238 | a sequence that opens with any number of arbitrary children swallows everything put before it |
| Extensions.BarrenIff | internal/compile/content_model_lowering.go:176-181 | whether a model accepts nothing can be read off the table: required choices of barren alternatives, required sequences or xs:all with a barren part, wildcards without namespaces |
| ModelTables.ModelTable.Add | internal/compile/content_model_lowering.go:47-49 | adding a model keeps the table valid and the language of every earlier model, and fails exactly at the limit |
| ModelGraphs.ValidateContentModelGraph | internal/runtime/content_model.go:197-235 | the depth-first search accepts exactly the tables whose references are in range and acyclic |
| ModelGraphs.SearchStep | internal/runtime/content_model.go:206-233 | each turn keeps the search invariant and makes progress, or has found a cycle or a dangling reference |
| ModelGraphs.CycleFound | internal/runtime/content_model.go:226-231 | a reference to a model being checked rules out every ranking of the models |
| Restrictions.ValidateOrderedGroup | internal/runtime/content_restriction.go:287-319 | it accepts exactly when the occurrence range is included and the first acceptable places make an order-preserving mapping; when each accepted pair is an inclusion, an accepted sequence (or xs:all) lies inside the base sequence (or xs:all), for all occurrence ranges |
| Restrictions.ValidateSequenceRestrictsAll | internal/runtime/content_restriction.go:321-326 | it accepts exactly when the occurrence range is included and the first free acceptable places make a mapping; when each accepted pair is an inclusion, an accepted sequence lies inside the xs:all |
| Restrictions.MapInOrder | internal/runtime/content_restriction.go:291-318 | it accepts exactly when the first acceptable place after the previous one, taken for every derived particle, makes an order-preserving mapping that leaves out only emptiable particles; an error verdict is the verdict on some pair |
| Restrictions.MapInjectively | internal/runtime/content_restriction.go:328-362 | it accepts exactly when the first free acceptable place, taken for every derived particle, makes a mapping that leaves out only emptiable particles; an error verdict is the verdict on some pair |
| Restrictions.GreedyFindsAll | internal/runtime/content_restriction.go:287-362 | when no derived particle has two places to choose from, both checks accept exactly when a mapping exists |
| Restrictions.ApartOnePlaceEach | internal/runtime/content_restriction.go:287-362 | base particles that share no first child leave each derived particle one place |
| Restrictions.GreedyMisses | internal/runtime/content_restriction.go:287-362 | an optional and a required wildcard before an element, against two elements: a mapping exists and neither check finds it |
| Restrictions.OrderedInclusion | internal/runtime/content_restriction.go:287-319 | an order-preserving mapping of included particles includes the sequence |
| Restrictions.MappedSequenceInclusion | internal/runtime/content_restriction.go:328-362 | an injective mapping of included particles puts every word of the sequence into the xs:all |
| Restrictions.MappedAllInclusion | internal/runtime/content_restriction.go:145-147 | the same for an xs:all against an xs:all |
| DerivationForests.BuildDerivationForest | internal/runtime/derivation.go:184-244 | it succeeds exactly on acyclic parent maps in range; then a node's interval holds exactly the numbers of the nodes below it, and the visit order is a permutation with parents first |
| DerivationForests.LinkChildren | internal/runtime/derivation.go:185-199 | the sibling lists hold exactly each node's children, and building them fails exactly for a parent out of range |
| DerivationForests.VisitedIffForest | internal/runtime/derivation.go:234-241 | with all roots visited, everything is visited exactly when the parent map is a forest |
| DerivationForests.ForestWalk.Visit | internal/runtime/derivation.go:206-233 | the walk below a root ends with the stack empty and the interval invariant kept |
| DerivationIndexes.BuildTypeDerivationIndex | internal/runtime/derivation.go:110-177 | the index is built exactly for the graphs that can be published and describes the graph |
| DerivationIndexes.ChainFacts | internal/runtime/derivation.go:141-175 | parents-first accumulation gives each complex type the steps of its whole chain and the simple type it rests on |
| DerivationIndexes.CountsTellSteps | internal/runtime/derivation.go:521-535 | step counts differ exactly when a step of that kind lies between a type and its ancestor |
| DerivationIndexes.ComplexQueriesRight | internal/runtime/derivation.go:521-552 | interval and counts answer every complex question, the any type included, as the type graph does |
| DerivationQueries.DerivationScratch.DerivationOf | internal/runtime/derivation.go:396-451 | after any history of queries, resets and rebinding the answer is how derived derives from base in the type graph |
| DerivationQueries.DerivationScratch.SimpleDerivationQuery | internal/runtime/derivation.go:453-476 | interval test and member search answer every simple question |
| DerivationQueries.DerivationScratch.SimpleUnionDerivation | internal/runtime/derivation.go:478-519 | a union is above a type exactly when it or a member at any depth is its ancestor |
| DerivationQueries.DerivationScratch.NextGeneration | internal/runtime/derivation.go:483-491 | a new generation starts with nothing marked, also when the counter wraps around |
| DerivationQueries.DerivationScratch.Reset | internal/runtime/derivation.go:365-383 | resetting forgets answers, keeps the binding and bounds the storage |
| DerivationQueries.DerivationScratch.Bind | internal/runtime/derivation.go:385-394 | rebinding drops everything known about another index and nothing about the same one |
| DerivationQueries.ClosedAnswers | internal/runtime/derivation.go:495-518 | a finished search without a hit shows that the type is not derived |
| DerivationAnswers.TypeDerivationMask | internal/runtime/derivation.go:317-342 | walking chains gives the derivation of the type graph, hence the published answer, on every published graph |
| DerivationAnswers.SimpleTypeMask | internal/runtime/derivation.go:661-680 | the simple walk decides derivation through bases and unions |
| DerivationAnswers.MeetsIffDerived | internal/runtime/derivation.go:721-783 | the pair search succeeds exactly when the type derives from the union or a member |
| DerivationAnswers.ComplexToComplexMask | internal/runtime/derivation.go:796-820 | the walk collects the steps between a complex type and its ancestor, or fails |
| DerivationAnswers.ComplexToAnyMask | internal/runtime/derivation.go:632-659 | the walk to the any type collects the steps, with a restriction when the chain rests on a simple type |
| DerivationAnswers.ComplexToSimpleMask | internal/runtime/derivation.go:602-630 | the walk joins the steps of the whole chain with the simple derivation of its top |
| SlowDerivation.SimpleBaseChain | internal/runtime/derivation.go:682-712 | the doubling-anchor walk ends on every base graph, cyclic or dangling, and finds the target exactly when it is on the chain |
| SlowDerivation.ComplexTypeMask | internal/runtime/derivation.go:796-820 | on every graph the bounded walk finds the target exactly when it is a proper ancestor, with the steps up to the first meeting |
| SlowDerivation.ComplexSimpleTop | internal/runtime/derivation.go:602-630 | on every graph the bounded walk finds the simple type at the top of the chain, if the chain has one |
| SlowDerivation.ComplexAnyMask | internal/runtime/derivation.go:632-659 | on every graph the bounded walk stops at the any type or at a simple base, whichever comes first |
| SlowDerivation.AnchorIsEarly | internal/runtime/derivation.go:694-706 | a window that outgrows the way to its anchor without meeting it starts within the table's size, which bounds the walk |
| PairSearches.SearchPairs | internal/runtime/derivation.go:721-783 | on every graph the pair search ends and succeeds exactly when a pair of equals is reachable |
| ListReachabilities.ListReachability.ReachesListFrom | internal/compile/simple_derivation.go:68-137 | every query is right on every graph, cyclic ones included, everything remembered stays right, only nodes below the queried one become remembered, and the search ends |
| ListReachabilities.StableIsRight | internal/compile/simple_derivation.go:106-120 | a node left with its unstable flag clear reaches no list |
| ListReachabilities.NothingReached | internal/compile/simple_derivation.go:135-136 | a search that ends without a list proves it for every node visited, forgotten ones included |
| ListReachabilities.PushEnds | internal/compile/simple_derivation.go:130-133 | reading the stack as a number, going down into a member makes it smaller, however often nodes are forgotten |
| SimpleTypeTables.RememberedKept | internal/compile/simple_derivation.go:72-75 | a table that says the same about everything below a remembered node leaves the memory right, whatever else changes |
| SimpleTypeTables.SurvivesIff | internal/compile/simple_derivation.go:54-60 | memory survives every later table exactly when nothing below a node remembered to reach no list is a placeholder or a missing type |
| SimpleTypeTables.SimpleTypeTable.MemorySurvives | internal/compile/simple_derivation.go:54-60 | in every state of the compiler that condition holds, so no later table makes the memory wrong |
| SimpleTypeTables.SimpleTypeTable.LookUp | internal/compile/compiler.go:437-448 | a name under compilation is refused, and a known name is given out only with a type that is compiled |
| SimpleTypeTables.SimpleTypeTable.BeginNamed | internal/compile/compiler.go:453-459 | a placeholder is appended and its name given out and marked |
| SimpleTypeTables.SimpleTypeTable.Begin | internal/compile/schema_build.go:426-435 | a placeholder is appended; everything remembered stays right |
| SimpleTypeTables.SimpleTypeTable.Complete | internal/compile/schema_build.go:437-441 | a placeholder is overwritten in place; everything remembered stays right |
| SimpleTypeTables.SimpleTypeTable.ItemReachesList | internal/compile/compiler.go:631-633 | after any history of the table a list item type is answered right |
| Substitutions.SubstitutionWorklist.Run | internal/compile/compile_substitution.go:49-69 | an element is left over exactly when its heads run into a cycle; every other inheriting element gets its head's final type |
| Substitutions.NearestDeclared | internal/compile/compile_substitution.go:60-67 | the final type is that of the nearest element up the chain that does not inherit |
| Substitutions.SubstitutionCycleElement | internal/compile/compile_substitution.go:148-160 | from a leftover element the walk returns an element on the cycle it runs into; from any other it fails |
| Substitutions.EndsOrCycles | internal/compile/compile_substitution.go:70-86 | a chain of heads runs into a cycle exactly when it does not end |
| Substitutions.LinkMembers | internal/compile/compile_substitution.go:18-47 | each head lists exactly its members, once |
| TargetContexts.ContextStore.Instantiate | internal/compile/schema_set.go:728-773 | the contexts are exactly the least set, without repeats, every document is covered, and the node total is that of the queue; it fails exactly when that set exceeds a limit on contexts or nodes |
| TargetContexts.ContextStore.Propagate | internal/compile/schema_set.go:807-829 | working off the queue adds only what closure requires and closes it, or fails because the closed set exceeds a limit |
| TargetContexts.ContextStore.Add | internal/compile/schema_set.go:148-187 | a context is added once, list and set agree with the queue across the switch at eight, and only a new context over a limit fails |
| TargetContexts.ContextStore.SeedFirst | internal/compile/schema_set.go:742-750 | the first phase starts from documents with a namespace, import targets and explicit roots, or fails because the first phase exceeds a limit |
| TargetContexts.ContextStore.SeedSecond | internal/compile/schema_set.go:754-764 | the second phase starts exactly from the documents no context has reached, or fails because the least set exceeds a limit |
| TargetContexts.LeastContextsAreLeast | internal/compile/schema_set.go:728-829 | the contexts hold both phases' seeds, are closed under includes of documents without a namespace, and lie within every set that is |
| DecimalText.ValidateFastInt | internal/runtime/builtin_lexical.go:32-84 | at any length, exactly the signed digit strings with a value of 32 bits are accepted, and the error says what is wrong (section 3.3.17 of XML Schema Part 2: Datatypes) |
| DecimalText.DigitsGreaterThan | internal/runtime/builtin_lexical.go:93-100 | comparing digits of equal length compares the numbers |
| DecimalText.CompareUnsignedIsOrder | internal/compile/occurrence.go:122-136 | comparing stripped digit strings as text orders the numbers, at any length |
| OccurrenceText.ParseOccurrence | internal/compile/occurrence.go:29-63 | the parsed range is what the attributes mean as numbers, with each error in its case, and is always a valid range |
| OccurrenceText.LimitHonoured | internal/compile/occurrence.go:29-91 | a maximum is refused for its size exactly when it exceeds 32 bits or the configured limit, zero configuring none; the minimum is held against 32 bits alone |
| OccurrenceText.TrimIff | internal/compile/occurrence.go:93-94 | trimming takes away exactly the white space at both ends |
| OccurrenceText.ParseOccurrenceDigits | internal/compile/occurrence.go:93-109 | exactly counts are accepted, and the stripped digits keep the value |
| OccurrenceText.CountIffUnsignedSize | internal/compile/occurrence.go:93-109 | a count is exactly the text of a nonnegative integer without a minus sign, with the same value; the only integers so refused are zeros |
| OccurrenceText.NegativeZeroIsNoCount | internal/compile/occurrence.go:93-109 | minus zero is a size but is refused as a count |
| OccurrenceText.OccurrenceUint32 | internal/compile/occurrence.go:111-120 | a count converts exactly up to the largest 32-bit value and saturates there |
| OccurrenceText.LimitCompared | internal/compile/occurrence.go:73-91 | comparing with the text of a limit is comparing with the limit |
| OccurrenceText.AccumulateDigits | internal/compile/facets.go:119-131 | the accumulator never leaves 64 bits, exceeds 32 bits exactly when the value does, and is exact below |
| OccurrenceText.ParseSizeFacetInteger | internal/compile/facets.go:101-132 | exactly unsigned numbers and signed zeros are accepted |
| OccurrenceText.ParseSizeFacetValue | internal/compile/facets.go:17-30 | the facet's value is the number it denotes, with each error in its case |

## Left out

- Interning of names and namespaces, and the byte encodings of state keys: the maps are keyed by the normalized sequences themselves.
- Diagnostics text, locations and cancellation: an error is one of a few kinds.
- State limits and 32-bit state numbers are modelled, and when they are hit is exact; a counter number that wraps around after 2^32 counted repetitions in one model is not.
- The `slot` argument of `repeat` and `countNode`: every call passes "no slot".
- The compiled edge keeps only the term of its particle, since nothing reads the rest.
- In `DfaBuilding.DfaBuilder` an unsupported group ends the visit at once, as in the program; nothing is said about the tables then.
- The pre-compilation ambiguity checks in `CheckContentModelsUPA` and element-declaration consistency: they only refuse more schemas.
- Derivation of choice limits: `Limited` applies the limits a model stores, and what justifies them is not modelled.
- Restriction of choices, of sequences by choices and of particles against each other: they follow the standard's special rules; `Restrictions` takes the verdict on a pair of particles as a parameter and assumes of it only that an accepted pair is an inclusion.
- The mapping checks of `Restrictions` are greedy, in the program and here: `Restrictions.GreedyMisses` is a mapping they miss. Their acceptance is stated as the greedy mapping's success.
- Substitution-aware blocking of derivations, the final and block attributes, and building the substitution table itself.
- Queries without scratch storage: the program then uses storage of its own for the one query, which is the fresh case of `DerivationQueries.DerivationScratch`.
- Capacity of reused slices: `Reset` bounds lengths, not capacities; the union stack is always empty between queries.
- The structural audit at publication, clones and read projections.
- Members in one substitution group are linked in element order, not in name order; the order only affects the order of the queue.
- A schema set in which no document refers to another: each document then keeps its own namespace without the worklist.
- XML parsing, simple-value spaces, facets other than sizes, regular expressions, identity constraints and the command-line, web and formatting tools.
- In `SimpleTypeTables` the compilations in progress may interleave in any way; in the program they nest. Flattening of union members and the base of a restriction only choose among compiled members.
- Which of several overlaps a message names.
