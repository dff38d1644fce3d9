# Verification of the cxpr core

This project models the hard parts of cxpr, an expression language with a C code generator and a
bulk runtime, and proves what they are for.

* **Transpiler.** `Codegen` gives the shape of the C expression that `src/codegen.c` emits for every
  expression and lookback offset, `Emitter` is the recursive emitter appending to its buffer, `CSyntax`
  and `CPrintParse` lex and parse C text (section 6.5 of ISO/IEC 9899:2011), and `Meaning` gives the
  evaluator's and C's meaning, each with operators of its own, over an abstract number type without any order
  assumption, so NaN is covered. `Operators` and `SeriesLaws` say what every operator and series function is in
  integer and real arithmetic, and `Registry` relates the function names of both sides. `CodegenText` proves
  that emitted text reads back as the intended tree, `CodegenMeaning` that
  it means what the evaluator computes, `Timeseries` that the evaluator's loops are the functions used
  there, and `SeriesOffsets` where 32-bit offsets run out. `CallBinding` is the binding of labelled arguments
  to parameters; `SeriesLabels` and `CallLabels` prove exactly which labels emitter and evaluator understand
  alike. `ExprSetOrder`, `DependencyOrders`, `ExprSet`, `HiddenReads` and `ExprSetMeaning` cover ordering and
  execution of a set of definitions.
* **Name tables.** `ProbeTable` is the open-addressing table of `src/struct.c` as a class over a slot
  array, for any hash function, first capacity and load factor; the struct map and the array map are the
  same code with another value.
* **Bulk populations.** `Bytes`, `FnvValues`, `Blocks`, `Bulk`, `BulkRuns`, `SnapshotLayout`, `Snapshot`,
  `SnapshotFaults` and `StateStore` are the byte buffers, run loops, checksummed snapshots and the sorted store;
  `AgentHistories`, `Population` and `Migration` prove what whole sessions do to each agent.
* **Arithmetic and graphs.** `ValueOps`, `ValueMeaning` and `ValueLaws` are the typed value algebra over nested
  structs, `Duration` the fixed-duration parser, `Imports` and `ImportPaths` the import walk of the model code
  generator, `Windows` the window functions over sampled series.

`dafny verify dfyconfig.toml` checks everything.

## Where the code does less than one would expect

* A unary minus over text that starts with a minus sign prints `--`, which C lexes as a decrement:
  `CodegenText.EmittedTextReadsBack` gives the exact condition and `NegatedNegativeLiteral` the instance.
* `min` and `max` with a NaN first argument differ from the emitted `fmin`/`fmax` chain unless every
  argument is NaN (`CodegenMeaning.ExtremesAgreeExactly`).
* The offsets of series and cross terms are added without a check: they reach the bars they mean exactly
  while those have 32-bit offsets (`SeriesOffsets.SeriesExactly`, `SeriesOffsets.CrossExactly`), and beyond
  that the emitted value can differ from the evaluator's (`SeriesOffsets.WrapChangesMeaning`).
* The emitter picks value and bar count of `rising`, `falling` and `repeat` by label, the evaluator by position.
  They read the same bars exactly while the labels are in place (`SeriesLabels.LabelsExactly`); otherwise the
  call is refused or repeats the bar count (`SeriesLabels.SeriesPlanned`), and `rising(x, value = 2)` is denied
  for a rising series (`SeriesLabels.LabelChangesMeaning`).
* For all other calls it is the other way round: the evaluator hands arguments to the parameters they name and
  the emitter prints them as listed (`CallLabels.LabelsExactly`), so `within(x, max = 3, min = 1)` is emitted
  with its bounds exchanged (`CallLabels.LabelChangesMeaning`).
* The second attempt to bind labelled arguments never succeeds where the first failed
  (`CallBinding.SecondAttemptFails`).
* A literal that is not finite is printed as the name `inf` or `nan`, and has its value exactly when that name
  holds it (`CodegenMeaning.LiteralDenotesExactly`).
* A definition that reads another through a `$parameter`, past its first 64 references, or reads itself, need
  not be ordered after it: `HiddenReads.SearchSeesReads` gives the exact condition, and
  `HiddenReads.ParameterHidesDependency`, `HiddenReads.LateReferenceIgnored` and
  `HiddenReads.SelfReferenceAccepted` show blocks that miss a definition.
* A snapshot holds no agent ids, so restoring into a changed population hands states out by rank: an agent gets
  its own state back exactly when as many smaller ids are live as were saved
  (`AgentHistories.RollbackRestoresAgentExactly`, `AgentHistories.NewcomerTakesSavedState`).
* Restore ignores bytes 20 to 23 of a snapshot (`Snapshot.OneByteChangeDetected`).
* An int64 meets a struct only inside another struct (`ValueMeaning.TopLevelDiffers`), and repeated field
  names defeat the count check: operands that combine have the same names exactly when they have equally many
  different ones (`ValueMeaning.DoneNamesExactly`, `ValueMeaning.RepeatedNamesSlipThrough`).
* A store that never held an agent binds a null state buffer, which a model with state can neither run nor
  snapshot (`StateStore.Store.BindView`, `Population.RunAll`).
* The comment at `src/codegen.c:307` calls the min and max chain right-folded; the code nests to the left,
  and the model follows the code.

## Model

| member | source | states |
|---|---|---|
| CodegenMeaning.Preserves | src/codegen.c:352-504 | for every supported expression and base offset, the emitted C expression denotes what the evaluator computes with all leaves read that much further back |
| CodegenMeaning.EmittedTextMeans | src/codegen.c:528-544 | the text itself, lexed and parsed as C, has that value |
| CodegenMeaning.PreservesTrendCall | src/codegen.c:129-176 | rising and falling expand to a conjunction with the value of the evaluator's loop |
| CodegenMeaning.PreservesRepeatCall | src/codegen.c:178-221 | repeat expands to a conjunction with the value of the evaluator's loop, for every bar count both accept |
| CodegenMeaning.PreservesArgCall | src/codegen.c:223-338 | cross, within, min, max, nan and mapped calls keep their value |
| CodegenMeaning.ExtremesAgreeExactly | src/registry/defaults.c:34-50 | the fmin or fmax chain gives the evaluator's number, NaN for NaN, if and only if the first argument is not NaN or all are |
| CodegenMeaning.OffsetMovesLeaves | src/codegen.c:340-350 | evaluating further back is evaluating over leaves that are delayed by as much |
| CodegenMeaning.NestedLookback | src/codegen.c:449-472 | `e[n][m]` is `e[n + m]` for emitter and evaluator, failures included |
| Operators.ComparisonsMean | src/codegen.c:105-121 | the six comparisons of two int64 literals, emitted and evaluated, are the integer comparisons |
| Operators.SumMeans | src/codegen.c:105-121 | the sum of two int64 literals, emitted and evaluated, is the integer sum where that fits 64 bits, and nothing otherwise |
| Operators.DifferenceMeans | src/codegen.c:105-121 | the same for differences |
| Operators.ProductMeans | src/codegen.c:105-121 | the same for products |
| Operators.QuotientMeans | src/codegen.c:105-121 | the quotient of two int64 literals is the one whose remainder is smaller than the divisor and has the dividend's sign; none by zero or beyond 64 bits |
| Operators.LogicMeans | src/codegen.c:105-121 | and, or, equality and inequality of truth values |
| Operators.UnaryMeans | src/eval/tree.c:482-508 | negation and logical not of literals, emitted and evaluated |
| Operators.ChoiceMeans | src/codegen.c:438-446 | the conditional picks its second operand if the first is true, else its third |
| Operators.RealsMean | src/eval/tree.c:357-384 | over the reals, sums, differences, products and quotients of any two operands are those of the reals, emitted and evaluated; the evaluator refuses a zero divisor |
| Operators.RealComparisonsMean | src/eval/tree.c:386-411 | and so are the six comparisons |
| Operators.RealLiteral | src/codegen.c:358-363 | a finite number literal, with its sign, is that real number, emitted and evaluated |
| Operators.PowerMeans | src/codegen.c:407-420 | power and remainder are pow and fmod of the operands in this order |
| Operators.OffsetExactly | src/lookback.c:18-40 | an index is a lookback offset exactly if it is a number literal within the tolerance of a 32-bit natural number |
| Operators.LookbackMeans | src/codegen.c:449-472 | `x[n]` at offset k is the leaf at k + n, emitted exactly where that is below 2^32, and evaluated |
| Operators.NoHookNoLookback | src/codegen.c:384-393 | without a leaf hook a name is emitted at offset zero only, as it stands |
| Registry.EmittedAsRegistered | src/codegen.c:90-104 | every registered mathematical function is emitted as the C function that the registry calls for it |
| Registry.EmittedOtherwise | src/codegen.c:90-104 | besides those, exactly fmod, fmin and fmax are emitted as they stand |
| Registry.RegistryAgrees | src/registry/defaults.c:579-628 | with the registry's table, emitted calls without a host mapping compute what the evaluator's calls compute |
| Registry.HostMapsFirst | src/codegen.c:321-338 | a host's mapping of a function name comes before the table |
| SeriesLaws.TrendsMean | src/timeseries.c:129-148 | over the reals, rising holds exactly if each of the last n bars exceeds the one before, and falling if each is below it |
| SeriesLaws.CrossesMean | src/codegen.c:249-262 | cross_above and cross_below hold exactly if the order of the two series turned that way between the bar before and the current one |
| SeriesLaws.ExtremesMean | src/registry/defaults.c:34-50 | min and max of up to eight reals are the least and the greatest of them |
| SeriesLaws.WithinMeans | src/registry/defaults.c:371-395 | within includes both bounds unless a flag excludes one |
| CPrintParse.Precedence | src/codegen.c:407-446 | of two operators in a row the one from the tighter class of C takes the middle operand, and of one class the first |
| CodegenMeaning.LiteralDenotesExactly | src/codegen.c:60-72 | an emitted literal has the evaluator's value if and only if it is finite or the C name `inf` or `nan`, with its sign, holds that value |
| SeriesLabels.SeriesPlanned | src/codegen.c:129-221 | what a labelled series call of a leaf and a literal count is emitted as: nothing, a series over the count itself, or the series over the leaf, with the exact labels of each |
| SeriesLabels.LabelsExactly | src/codegen.c:143-151 | the emission reads the bars of the first argument if and only if the second is not labelled as the value and the first is not alone labelled as the bar count |
| SeriesLabels.MislabelledTrend | src/codegen.c:143-176 | with the value label on the count, rising and falling compare the count with itself |
| SeriesLabels.MislabelledRepeat | src/codegen.c:192-221 | with the condition label on the count, repeat never yields a truth value |
| SeriesLabels.EvaluatorIgnoresLabels | src/timeseries.c:129-136 | the evaluator reads a series call by position |
| SeriesLabels.LabelChangesMeaning | src/codegen.c:143-151 | `rising(x, value = 2)` means the evaluator's value if and only if the last two bars compare as two does with itself |
| SeriesLabels.LabelChangesMeaningHere | src/codegen.c:143-151 | a number system, target and series in which it does not |
| CallBinding.Bind | src/call/args.c:90-194 | the loops over windows and arguments compute the specified binding, which hands every argument to exactly one parameter |
| CallBinding.PlacedWell | src/call/args.c:41-69 | arguments that are taken stand in one slot each, where their name or position puts them, and slots hold nothing else |
| CallBinding.BindArgsArranges | src/call/args.c:90-194 | a bound call hands every argument to exactly one parameter |
| CallBinding.UnnamedKeepPlaces | src/call/args.c:117-135 | without names up to 32 arguments keep their places; more are refused, and so are names for no or more than 64 parameters |
| CallBinding.AliasesExactly | src/call/args.c:19-26 | a named argument reaches a parameter of that name or one of its four aliases, and no other |
| CallLabels.WithinNames | src/registry/defaults.c:278-316 | both names of the value and of each bound, and the names of the flags, reach their places in any order |
| CallBinding.SecondAttemptFails | src/call/args.c:137-193 | when no window of parameters takes the arguments, the attempt over all parameters does not either |
| CallLabels.EvaluatorFollowsLabels | src/eval/calls.c:74-88 | a labelled call has the value of the unlabelled call on the arguments in parameter order, and none if they do not bind |
| CallLabels.LabelsExactly | src/codegen.c:321-338 | for arguments emitted differently from each other, the emission is that of the call in parameter order if and only if the labels leave every argument in place |
| CallLabels.LabelChangesMeaning | src/codegen.c:266-301 | `within(x, max = 3, min = 1)` is evaluated as 1 <= x <= 3 and emitted as 3 <= x <= 1 |
| SeriesOffsets.SeriesExactly | src/codegen.c:165-175 | a series of n bars from offset k reads the leaves at k to k + n - 1 if and only if k + n is at most 2^32 |
| SeriesOffsets.CrossExactly | src/codegen.c:249-262 | a cross at offset k reads the leaves at k + 1 if and only if k + 1 is below 2^32 |
| SeriesOffsets.SeriesOffsetWraps | src/codegen.c:165-175 | at the last 32-bit offset the emitted value of rising is the evaluator's if and only if offset 0 and the bar before compare alike |
| SeriesOffsets.CrossOffsetWraps | src/codegen.c:249-262 | the same for a cross |
| SeriesOffsets.WrapChangesMeaning | src/codegen.c:165-175 | a number system, target and series in which emitted text and evaluator disagree, for rising and for a cross |
| CodegenMeaning.BarsAreSamples | src/timeseries.c:51-92 | the bar count the code generator reads is the sample count the evaluator reads, where both accept it |
| CodegenText.EmittedTextReadsBack | src/codegen.c:407-446 | emitted text parses to exactly the intended tree if and only if no unary minus stands directly before text that starts with a minus sign |
| CodegenText.EmittedTextIsOperand | src/codegen.c:249-319 | every emission is a self-delimiting operand: whatever follows it cannot change how it is parsed |
| CodegenText.NegatedNegativeLiteral | src/codegen.c:432-435 | negating a negative literal gives text that does not read back |
| CodegenText.PlanWell | src/codegen.c:165-175 | every layout is parenthesised as its operators need |
| CodegenText.PlanPlain | src/codegen.c:432-435 | a layout has a double minus exactly when the expression has a sign before a sign |
| CPrintParse.PrintParse | src/codegen.c:407-446 | printing a well-parenthesised layout and parsing the text returns its tree if and only if no two minus signs touch |
| CPrintParse.UnaryParses | src/codegen.c:432-435 | a unary or primary layout is consumed exactly, leaving the following tokens |
| CPrintParse.CondParses | src/codegen.c:438-446 | a layout of any strength is consumed exactly up to a token that closes it |
| Codegen.NearUnsignedExact | src/lookback.c:18-40 | a literal offset is accepted exactly when it is within the tolerance of a 32-bit natural number, which is then the offset |
| Emitter.Emitter.EmitAtOffset | src/codegen.c:352-504 | the buffer grows by the printed layout, and emission succeeds exactly when the expression has one |
| Emitter.Emitter.EmitCall | src/codegen.c:223-338 | the same for calls, with their expansions |
| Emitter.Emitter.EmitTrend | src/codegen.c:129-176 | the same for rising and falling |
| Emitter.Emitter.EmitRepeat | src/codegen.c:178-221 | the same for repeat |
| Emitter.Emitter.EmitExtreme | src/codegen.c:307-319 | the left-nested chain printed by two loops is the printed chain layout |
| Timeseries.TrendEval | src/timeseries.c:134-148 | the trend loop is the recursive trend used in the meaning, and true exactly when every bar compares with the one before |
| Timeseries.RepeatEval | src/timeseries.c:699-706 | the same for repeat |
| Timeseries.TrendIsAll | src/timeseries.c:134-148 | the first failing comparison decides a trend |
| ExprSetOrder.OrderDefinitions | src/codegen.c:567-607 | succeeds exactly when there is no dependency cycle of two or more definitions, with an order that is a permutation, puts every needed definition first, and puts a definition before another only if it, or one that leads to it, is listed no later |
| ExprSetOrder.Visit | src/codegen.c:575-606 | the search from one definition terminates; it fails only on a cycle and keeps stack, marks and order consistent |
| ExprSetOrder.Step | src/codegen.c:578-606 | one round keeps the stack a path of distinct unemitted definitions that never exceeds the count |
| ExprSetOrder.FindPending | src/codegen.c:579-599 | the first unemitted definition that the top of the stack refers to, in the order of its first 64 references and of the listing, self excluded |
| ExprSetOrder.StackCycle | src/codegen.c:588-593 | needing a definition that is on the stack closes a cycle |
| ExprSetOrder.OrderedMeansAcyclic | src/codegen.c:573-607 | a dependency order rules out cycles |
| ExprSet.ExprSetToC | src/codegen.c:546-626 | each outcome with its exact cause; on success one declaration per definition, in dependency order, with the emitted text |
| ExprSet.OrderingSeesReads | src/codegen.c:573-607 | for acyclic definitions, every dependency order puts what is read before its reader if and only if each reader reaches what it reads through the references the ordering looks at |
| ExprSet.BlockComputesDefinitions | src/codegen.c:546-626 | under that condition, running the declarations in order computes the one assignment that satisfies all definitions |
| ExprSetMeaning.BlockEvaluatesDefinitions | src/codegen.c:546-626 | the returned texts, read as C and run in order, give every definition the value the evaluator gives its expression |
| DependencyOrders.ClosureFirst | src/codegen.c:573-607 | acyclic definitions have a dependency order in which only what a given definition leads to stands before it |
| DependencyOrders.ListingKept | src/codegen.c:573-607 | a listing that is a dependency order is the order the search returns |
| HiddenReads.SearchSeesReads | src/codegen.c:573-607 | whatever the listing of acyclic definitions, the order the search returns puts what is read before its reader, if and only if each reader reaches what it reads through the references the search looks at |
| HiddenReads.HiddenReadMisordered | src/codegen.c:573-607 | if one does not, there is a listing that the search returns unchanged and that has the read too early |
| HiddenReads.LateReferenceIgnored | src/codegen.c:579-581 | for `a = x + xx + ... + b; b = 1` with 64 or more names before `b`, the search returns the listed order, and the block satisfies the definitions if and only if adding an input `b` is adding 1 |
| ExprSet.ExecuteSolves | src/codegen.c:609-621 | running equations that read only earlier ones satisfies them all at once |
| ExprSet.SolutionUnique | src/codegen.c:609-621 | no other assignment does |
| ExprSet.OrderIrrelevant | src/codegen.c:573-607 | any dependency order of the definitions, listed in any order, gives the same values |
| ExprSet.PlanReads | src/codegen.c:352-504 | emitted text reads only names the expression mentions |
| ExprSet.OrdinaryDefinitionsAreCaptured | src/ast/references.c:57-104 | a condition on the expressions alone that implies the exact one of OrderingSeesReads |
| HiddenReads.ParameterHidesDependency | src/ast/references.c:57-104 | for `a = $b; b = 1` the search returns the listed order, and the block satisfies the definitions if and only if an input `b` happened to be 1 |
| HiddenReads.SelfReferenceAccepted | src/codegen.c:586-586 | `a = a + 1` is no cycle, and its block satisfies the definition if and only if adding one twice is adding it once |
| ProbeTable.Replay | src/struct.c:159-343 | every history of stores, removals, clears, clones and lookups gets the answers of a plain finite map, for any hash, first capacity and load factor |
| ProbeTable.Table.Store | src/struct.c:262-304 | the map gains the entry, unless a doubling cannot be expressed; the slots double exactly when one more entry would exceed the load factor |
| ProbeTable.Table.Remove | src/struct.c:306-333 | exactly that name goes, every chain is whole again, and no free slot becomes used |
| ProbeTable.Table.Lookup | src/struct.c:335-343 | what the plain map holds |
| ProbeTable.Table.Grow | src/struct.c:175-195 | twice the slots, the same map |
| ProbeTable.Table.Clear | src/struct.c:215-223 | the empty map in the same slots |
| ProbeTable.Table.CloneFrom | src/struct.c:225-253 | the same map in another table |
| ProbeTable.FindSlot | src/struct.c:159-173 | probing terminates at the entry with the name or the first free slot of its chain |
| ProbeTable.FirstFree | src/struct.c:184-188 | the probe of the doubling, which compares no names, finds the same slot |
| ProbeTable.CloseHole | src/struct.c:319-332 | re-inserting the rest of the cluster restores the invariant and fills no slot but the hole and slots in use |
| ProbeTable.ClearOpensHole | src/struct.c:311-317 | clearing a slot harms only chains of later entries of its cluster |
| ProbeTable.ReinsertRepairs | src/struct.c:320-331 | one re-insertion moves the repaired part one slot on |
| ProbeTable.ReinsertLandsInCluster | src/struct.c:326-327 | a displaced entry lands in its own slot or in a hole before it |
| ProbeTable.RepairDone | src/struct.c:319-333 | at the end of the cluster every chain is whole |
| ProbeTable.ProbeDecides | src/struct.c:255-260 | a probe finds an entry exactly when the map has the name |
| ProbeTable.HasFree | src/struct.c:159-173 | fewer keys than slots leave a free slot, so probes terminate |
| ProbeTable.PlaceKeeps | src/struct.c:290-304 | putting a new name where its probe stopped keeps the invariant |
| Bytes.ReadWrite | src/bulk_snapshot.c:13-35 | a little-endian word reads back |
| Bytes.WriteAt | src/bulk_snapshot.c:13-21 | byte i of a word is the value divided by 256^i, modulo 256: the least significant byte comes first |
| Bytes.StepMeans | src/bulk_snapshot.c:41-42 | a hash step multiplies by 1099511628211 modulo 2^64 what differs from the running hash in exactly the bits of the byte |
| Bytes.StepFromZero | src/bulk_snapshot.c:41-42 | from a hash with a zero low byte a step adds the byte and multiplies |
| FnvValues.PublishedHashes | src/bulk_snapshot.c:37-45 | the values that draft-eastlake-fnv publishes for the empty string, "a" and "foobar" |
| Bytes.StepInjective | src/bulk_snapshot.c:37-45 | an FNV-1a step (section 2 of draft-eastlake-fnv) is injective in the byte and in the running hash modulo 2^64 |
| Bytes.FnvSeesOneByte | src/bulk_snapshot.c:37-45 | changing one byte changes the hash |
| Bytes.FnvConcat | src/bulk_snapshot.c:37-58 | hashing piecewise is hashing the concatenation |
| Bytes.HashBytes | src/bulk_snapshot.c:37-45 | the byte loop computes the hash |
| SnapshotLayout.LayoutBytesInjective | src/bulk_snapshot.c:53-85 | the hashed bytes determine name, layout id, ABI, state size and every typed field list |
| SnapshotLayout.DescriptorLayoutHash | src/bulk_snapshot.c:60-85 | hashing piece by piece computes the hash of that byte string |
| SnapshotFaults.SnapshotSpelled | src/bulk_snapshot.c:133-150 | the bytes of every snapshot: magic, format 1, header size 56, ABI 5, layout hash, sizes, counts and checksum at their places |
| SnapshotFaults.SnapshotOfA | src/bulk_snapshot.c:133-150 | the snapshot of one element whose state is the byte 0x61, with its checksum written out |
| SnapshotFaults.LayoutSpelled | src/bulk_snapshot.c:60-85 | the bytes that are hashed for a model with an input, an output and a parameter, written out |
| SnapshotFaults.OneByteChangeNamed | src/bulk_snapshot.c:168-195 | restore names the part of an accepted snapshot in which a byte was changed |
| SnapshotFaults.WrongLength | src/bulk_snapshot.c:168-193 | a snapshot cut short or continued is malformed |
| SnapshotFaults.WrongTarget | src/bulk_snapshot.c:164-195 | the exact status of restoring a snapshot into any view of any model |
| Snapshot.Create | src/bulk_snapshot.c:107-151 | the exact status, and the exact bytes of header and packed states |
| Snapshot.Restore | src/bulk_snapshot.c:153-203 | the exact status; on success the active bytes come from the snapshot, padding never changes, and on failure nothing changes |
| Snapshot.OneByteChangeDetected | src/bulk_snapshot.c:168-198 | changing one byte of an accepted snapshot is refused if and only if the byte is not one of the reserved bytes 20 to 23 |
| Snapshot.SnapshotAccepted | src/bulk_snapshot.c:107-203 | every snapshot is accepted by a view of the same count and any sufficient stride, and unpacks to the same blocks |
| Bulk.Validate | src/bulk.c:19-55 | accepts exactly the views the run loop can use; otherwise the status of the first part of the view, in checking order, that is wrong |
| Bulk.FaultsNamed | src/bulk.c:19-55 | which fault of a column, of the state buffer or of the model gives which status, with offsets as products |
| Bulk.OverflowsExactly | src/bulk.c:35-53 | the division guard refuses a stride exactly when the last offset exceeds SIZE_MAX |
| Bulk.OffsetFits | src/bulk.c:35-53 | no element offset of a validated view overflows |
| Blocks.BlocksDisjoint | src/bulk.c:47-53 | state blocks of a valid stride never overlap |
| Bulk.RunRange | src/bulk.c:57-86 | succeeds exactly on valid ranges; states, output columns and padding afterwards; nothing changes on failure |
| BulkRuns.RunInParts | src/bulk.c:57-86 | two runs on the parts of a range leave the states, columns and bytes of one run on the range |
| BulkRuns.RunDisjoint | src/bulk.c:57-86 | two runs on disjoint ranges leave the states, columns and bytes of the runs in the other order, which exist |
| BulkRuns.RunExists | src/bulk.c:57-86 | every valid range has a result of running it |
| BulkRuns.RunsCompose | src/bulk.c:57-86 | running a range is running any split of it |
| BulkRuns.RunsCommute | src/bulk.c:57-86 | disjoint ranges commute |
| BulkRuns.RunsDetermined | src/bulk.c:57-86 | a run has one result: states, columns and every byte of the state buffer |
| Bulk.RunSplits | src/bulk.c:57-86 | splitting a range changes no state block |
| Bulk.RunSplitsOutputs | src/bulk.c:73-84 | splitting a range writes the same outputs |
| Bulk.DisjointRangesCommute | src/bulk.c:57-86 | the order of disjoint ranges changes no state block |
| Bulk.DisjointRangesCommuteOutputs | src/bulk.c:73-84 | the order of disjoint ranges changes no output |
| Bulk.WrittenAt | src/bulk.c:82-83 | each element's value is found at its strided place and nothing else of the column changes |
| Bulk.ResetRange | src/bulk.c:95-113 | the blocks of the range are reset or zeroed, padding stays |
| StateStore.ResetIsFresh | src/bulk.c:105-110 | resetting a range makes its agents as good as newly added, zero bytes or the model's own reset of them, and leaves all others alone |
| StateStore.StrideExactly | src/bulk_state_store.c:18-23 | the stride is the least multiple of 16 that holds the state |
| StateStore.TooLargeExactly | src/bulk_state_store.c:48-50 | the division guards of reserve are exact |
| StateStore.LowerBound | src/bulk_state_store.c:25-42 | the exact insertion point, and whether the id is there |
| StateStore.NewStore | src/bulk_state_store.c:83-110 | an empty store, or the exact cause of refusal |
| StateStore.Store.Reserve | src/bulk_state_store.c:44-69 | granted at once when the capacity is there, else larger arrays with the same ids and blocks, or refused exactly for its size |
| StateStore.Store.Add | src/bulk_state_store.c:131-159 | duplicate, refused and stored cases exactly; the map gains a freshly reset agent and keeps all others, and a full store doubles, from eight on |
| StateStore.Store.Remove | src/bulk_state_store.c:161-177 | exactly that agent leaves |
| StateStore.Store.Find | src/bulk_state_store.c:179-187 | the offset of the agent's own bytes, exactly when it is live and has state |
| StateStore.Store.BindView | src/bulk_state_store.c:195-203 | the view has room for every agent and its offsets do not overflow; its states are null exactly while nothing was ever reserved |
| StateStore.MapDeterminesArrays | src/bulk_state_store.c:131-177 | ids and blocks depend on the id-to-state map only, not on insertion order |
| StateStore.InsertHolds | src/bulk_state_store.c:146-157 | inserting at the lower bound adds one entry and keeps the order |
| StateStore.InsertState | src/bulk_state_store.c:149-156 | moving blocks up and resetting the gap inserts a fresh block |
| StateStore.DeleteState | src/bulk_state_store.c:171-174 | moving blocks down deletes one |
| Population.Session | src/bulk_state_store.c:131-203 | any session of joins, leaves, runs, checkpoints and rollbacks on the real store, whoever is live at a rollback, leaves each agent with the fold of tick over its history |
| AgentHistories.StateIsHistory | src/bulk.c:57-86 | after every trace the state of each agent is the fold of tick over its history: its own runs since it was added, or those dealt to it by a rollback |
| AgentHistories.HistoryIsOwn | src/bulk_snapshot.c:196-202 | an agent that keeps its place at every rollback has the history of its own deeds |
| AgentHistories.OthersDoNotMatter | src/bulk_state_store.c:131-177 | then equal own deeds give equal states, whatever other agents did |
| Population.RunAll | src/bulk.c:57-86 | one run over a bound view, with input columns of any strides, ticks every live agent with the values at its places and reports its outputs at its place |
| Population.RowsAreFed | src/bulk.c:76-80 | whatever the strides, zero included, the row of an element holds the values at i times the stride of each column |
| Population.RunInterleaved | src/bulk.c:57-86 | running from one buffer of whole rows gives what running from separate columns gives |
| Population.RunColumnwise | src/bulk.c:57-86 | a run from one column per input ticks every live agent with its own inputs |
| Migration.RespacedSchedule | src/bulk.c:76-80 | spacing the inputs of a schedule differently changes neither states nor outputs |
| AgentHistories.RollbackRestoresAgentExactly | src/bulk_snapshot.c:196-202 | an agent gets its own state back, whatever was saved, if and only if as many smaller ids are live as were saved |
| AgentHistories.NewcomerTakesSavedState | src/bulk_snapshot.c:196-202 | a newcomer takes over the state of the departed agent of its rank |
| Population.CountMustMatch | src/bulk_snapshot.c:182-183 | a snapshot is accepted exactly by views of its own element count |
| Migration.RunTransferRun | src/bulk_snapshot.c:107-203 | run, snapshot, restore into a view with other strides and run on: states and outputs are those of the uninterrupted run, padding of the target is untouched |
| Migration.StatesCompose | src/bulk.c:57-86 | an interruption between two schedules leaves no trace in the states |
| Migration.OutputsCompose | src/bulk.c:57-86 | nor in the last outputs of any element |
| Migration.RunBatches | src/bulk.c:57-86 | any schedule of runs computes the composed states and shows each element's last outputs |
| Imports.BuildSource | tools/cxpr_model_codegen.c:332-353 | terminates; succeeds exactly when every file reachable by at least one import can be read and parsed; the order is that of the depth-first walk, and the text is the functions of those files in that order, then the source |
| ImportPaths.BesideIgnoresDirectory | tools/cxpr_model_codegen.c:476-490 | if every use of the root and of every file it reaches exists beside its importer, the import directory changes neither outcome nor order |
| ImportPaths.NearWins | tools/cxpr_model_codegen.c:476-481 | a use that exists beside its importer is that file |
| ImportPaths.FarServes | tools/cxpr_model_codegen.c:482-490 | a use that does not is readable if and only if the import directory has it, and then is that file |
| ImportPaths.DirnameOf | tools/cxpr_model_codegen.c:102-107 | the directory of a path is what stands before its last slash, `/` or `.` |
| ImportPaths.JoinedPath | tools/cxpr_model_codegen.c:109-119 | a name is looked up below the directory, with the suffix added unless it is there |
| ImportPaths.DirectoryOfImport | tools/cxpr_model_codegen.c:270-279 | a file found in a directory looks there for its own imports |
| ImportPaths.OwnDirectoryFirst | tools/cxpr_model_codegen.c:476-490 | `use a` in `m/root.cxpr` means `m/a.cxpr` even if the import directory has an `a.cxpr` |
| Imports.Walk.Collect | tools/cxpr_model_codegen.c:252-330 | keeps visited files, emitted files and files being expanded consistent on every import graph, cyclic or not |
| Imports.Walk.CollectOne | tools/cxpr_model_codegen.c:279-321 | a visited import is skipped, any other is expanded before its functions are appended |
| Imports.FinishedWalk | tools/cxpr_model_codegen.c:252-330 | each reachable file is emitted exactly once, and before every file that imports it unless it reaches that file in turn |
| ValueMeaning.ImplRefinesTree | src/value_ops.c:151-194 | with distinct field names, struct arithmetic is the fieldwise operation on maps at every depth, and fails exactly when that does |
| ValueLaws.Undone | src/value_ops.c:37-303 | what was subtracted can be added back and what was added subtracted: numbers, int64, timestamps, durations and structs of them at every depth |
| ValueLaws.DividedBack | src/value_ops.c:37-194 | a product divided by its right factor is the left factor, for numbers and int64 at every depth |
| ValueLaws.OrderIsInteger | src/value_ops.c:287-303 | int64 values, timestamps and durations are ordered as integers, and no other pairs but numbers are compared |
| ValueLaws.ComparisonsAgree | src/value_ops.c:50-53 | the four comparisons fit each other wherever values compare |
| ValueLaws.NumbersOverReals | src/value_ops.c:40-56 | all eight operations on numbers, over the reals |
| ValueLaws.TimesOverReals | src/value_ops.c:229-285 | timestamps, durations and numbers: what each pair gives or that it is refused |
| ValueLaws.SpansOverReals | src/value_ops.c:229-285 | the same for two durations and for two timestamps |
| ValueLaws.RoundNearest | src/value_ops.c:257-274 | scaled durations are rounded to the nearest nanosecond, halves away from zero |
| ValueLaws.RealsUndo | src/value_ops.c:40-49 | the reals have the laws that Undone and DividedBack ask of numbers |
| ValueLaws.ScalarMeetsFields | src/value_ops.c:96-115 | a number on the left of a struct of numbers meets every field as the left operand |
| ValueLaws.FieldsMeetScalar | src/value_ops.c:96-115 | and on the right, as the right operand |
| ValueLaws.RefusedByStructs | src/value_ops.c:75-88 | booleans, strings and arrays do not meet structs, and structs are not compared |
| ValueLaws.FirstErrorReported | src/value_ops.c:97-125 | the error of a struct is that of its first failing field |
| ValueLaws.IntErrors | src/value_ops.c:157-176 | which error an int64 operation fails with |
| ValueMeaning.FieldOrderIrrelevant | src/value_ops.c:65-149 | field order of either operand does not matter, at any depth |
| ValueMeaning.OperandsCommute | src/value_ops.c:196-303 | addition and multiplication commute as partial operations up to field order |
| ValueMeaning.CountDecidesNames | src/value_ops.c:103-132 | with distinct names, one inclusion and the count check decide equality of the name sets |
| ValueMeaning.DoneNamesExactly | src/value_ops.c:97-132 | for any two structs that combine, repeated names or not, the name sets agree if and only if the numbers of different names agree |
| ValueMeaning.RepeatedNamesSlipThrough | src/value_ops.c:127-132 | two structs with different name sets that combine |
| ValueMeaning.TopLevelDiffers | src/value_ops.c:196-222 | exactly the number-number and int64-struct pairs are treated differently at top level |
| ValueMeaning.NestedInt64MeetsStruct | src/value_ops.c:213-218 | an int64 and a struct are refused at top level and accepted inside a struct |
| ValueMeaning.Int64Exact | src/value_ops.c:157-182 | an int64 operation succeeds exactly when the mathematical result exists and fits, and is that result |
| ValueMeaning.QuotientTruncates | src/value_ops.c:172-176 | division rounds toward zero |
| ValueOps.StructBinaryOp | src/value_ops.c:65-149 | the field loop, which stops at the first error, computes the specified outcome |
| ValueOps.BinaryOpImpl | src/value_ops.c:151-194 | the mutually recursive entry does |
| Duration.ParseFixedDuration | src/resample.c:36-69 | accepts exactly positive decimal counts with a known unit whose nanoseconds fit an int64, and returns their value and canonical text |
| Duration.ParseCount | src/resample.c:45-51 | the digit loop returns the number, which fits a uint64, or refuses exactly when it does not |
| Duration.ParseUnit | src/resample.c:22-35 | finds the unit of that name |
| Duration.CanonicalReparses | src/resample.c:63-67 | reading the canonical text gives the same duration and the same canonical text |
| Duration.CanonicalFits | src/resample.c:63-67 | the canonical text always fits its buffer |
| Duration.UnitsRelate | src/resample.c:22-34 | each unit is worth 1000, 60 or 24 of the next smaller one, wherever that fits, and nanoseconds count themselves |
| Duration.DecimalPlaces | src/resample.c:45-51 | counts are decimal |
| Duration.FactorGuard | src/resample.c:60-62 | the second overflow guard is exact |
| Duration.MeansOne | src/resample.c:36-69 | a text has at most one meaning |
| Windows.WindowAggregate | src/timeseries.c:277-325 | sum, mean, highest, lowest and root of the variance of the samples that are not missing, zero without any |
| Windows.OnePassVariance | src/timeseries.c:319-323 | the one-pass variance is the mean squared deviation and never negative |
| Windows.MeanBetween | src/timeseries.c:316-318 | the mean lies between any bounds of the samples |
| Windows.WeightedMean | src/timeseries.c:464-492 | the weighted mean over the known samples, between any bounds of them |
| Windows.WeightsFallOff | src/timeseries.c:477-492 | the sample i bars back counts n - i parts in n(n + 1)/2 |
| Windows.BarsSinceExtreme | src/timeseries.c:327-386 | the smallest offset that attains the extreme; with a NaN direction, the first known offset |
| Windows.Overlaps | src/timeseries.c:747-783 | the latched loop is two independent existentials |

## Left out

- The host hooks that emit whole calls or whole lookbacks, and the type checks made before emission.
- Number formatting and string escaping: literals are tokens, and number literals are reals.
- The sign of zero in fmin and fmax, and the default values of parameters of host functions.
- Sample counts that are not literals, and string-valued comparisons.
- `cxpr_lookback_add_int`, which only other components use.
- Allocation failure, freeing and deep copies, except where a size check refuses a request.
- Whole arguments that are null (a store, view, snapshot or output); null buffers inside a view are modelled.
- Output columns that share storage with each other, with inputs or with states.
- Alignment other than 16 bytes, and id values beyond the natural order of `uint64_t`.
- CodegenMeaning.Preserves: says nothing where the evaluator has no value, and nothing where the two sides can differ: a literal that is not finite under another C name (LiteralDenotesExactly says when), a series or cross beyond 32-bit offsets (SeriesOffsets.SeriesExactly, SeriesOffsets.CrossExactly), labels that move arguments (SeriesLabels.LabelsExactly, CallLabels.LabelsExactly), and min or max with a NaN first argument (ExtremesAgreeExactly).
- Bulk.RunRange: takes generated code to fill exactly its own state block and outputs, as the generated interface promises; a callback that writes elsewhere is not modelled.
- TemporalOp: does not model wrap-around of timestamp and duration sums, because the source leaves signed overflow undefined there; results are exact integers.
- Rounding of floating-point numbers in the value algebra and in the window functions; the square root is a parameter.
- Evaluation errors carry no message.
- The engine, the IR, the expression parser, the registry, documents and plugins.
