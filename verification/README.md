# Verified models of the maligator tooling

This project models, in Dafny 4.11, the algorithms of the maligator repository whose whole
code is in its scripts and test drivers, and proves what they promise. Check it with
`dafny verify dfyconfig.toml`.

## What is modelled

| files | subject |
|---|---|
| `NativeCache*.dfy` | the CI native build cache: which entries a snapshot takes, what an import does to a cache one file operation at a time with a crash after any of them, when export, import and export again is a fixed point, and how a shared snapshot and a line go together |
| `PairedComparison.dfy` | the base/head benchmark comparison: pairing of samples, and resumption after any interruptions |
| `RegressionStatistics.dfy` | medians, the seeded bootstrap interval, and the classification of a metric |
| `SelfCompileCheckpoint.dfy` | the self-compile benchmark that advances one stage per process, with kills between any two file effects and inside the removal of its directory |
| `NativeGuards.dfy`, `GuardExpressions.dfy`, `GuardParentheses.dfy` | extraction of preprocessor guards, against conditional inclusion as C defines it |
| `PrimordialInventory.dfy`, `PrimordialGraph.dfy`, `PrimordialReferences.dfy`, `PrimordialIsomorphism.dfy` | the object-graph inventory: a list that grows while it is walked |
| `Argon2Gate.dfy` | the gate between the Argon2 test driver and the worker, under every schedule |
| `IsolatedTools.dfy` | publishing a directory by renaming, by any number of processes that may crash |
| `UnicodeTables.dfy`, `CombiningClassPages.dfy`, `UnicodeComposition.dfy` | the generated Unicode tables and the searches that read them |
| `CanonicalOrdering.dfy`, `CanonicalOrderingInPlace.dfy`, `UnicodeNormalization.dfy`, `CanonicalEquivalence.dfy` | normalization as the runtime performs it over those tables, and which texts it identifies |
| `AdlerDigest.dfy` | the digest of a wire buffer, and which changes it misses |
| `WirePlan.dfy` | the wire plan of the test262 runner: its writer and the in-place splitter |
| `StatsStream.dfy`, `Utf8Chunks.dfy`, `AsciiLines.dfy` | the stderr stream of a benchmarked server: bytes decoded chunk by chunk, cut into lines across chunks, and handed to whoever waits |
| `AllocationAttribution.dfy` | the sampled-allocation summary: a tree walk that charges bytes to frames |
| `Sorting.dfy`, `Numbering.dfy`, `Decimals.dfy`, `TextLines.dfy`, `Optional.dfy` | shared vocabulary: stable sorting, numbering in order of first appearance, decimal numerals, lines, optional values |

Conventions. Doubles are real numbers, so rounding is not modelled. Strings are sequences
of characters; where bytes or UTF-16 code units matter (streams, wire plans) they are
sequences of numbers. SHA-256 and the order in which
the file system lists names are parameters; the JSON of a digest or a checkpoint is the
value that is serialised. A JavaScript `Map` or `Set` whose order matters is a sequence in
insertion order. Events from outside (measurements, chunks of output, the scheduler, a
kill) are inputs, and the theorems hold for all of them.

## Where the code does not do what one would expect

- Exporting a cache, importing the snapshot into an empty cache and exporting again gives
  the same digest if and only if the import accepts everything exported and every exported
  bake still counts as used (`ReExportFixedPoint`). Both conditions can fail. A line
  snapshot with a used-since time that is not a whole millisecond loses exactly the bakes
  whose time falls below it once the fraction is dropped (`FractionalUsedSinceLosesBake`).
  And a crash inside an import can leave the temporary of a ThinLTO copy behind: its name
  starts with `llvmcache-`, so the export takes it (scripts/ci-native-cache.ts:248), but its
  dot is rejected by the import (line 270), so one interrupted import is enough to lose the
  fixed point (`LeftoverBreaksFixedPoint`, `CrashBreaksFixedPoint`). A temporary left in a
  bake directory is listed and accepted as one of its files (`BakeLeftoverListed`).
- The import copies a bake's record after its other files (scripts/ci-native-cache.ts:371-378).
  That keeps an interrupted copy from passing for a whole bake only where there was no record
  before: with one, the mixture reads as complete, and without one it never does
  (`PartlyCopiedReadsComplete`). A crash after the first file of a newer version leaves the
  new file under the old record (`OldRecordOverNewCode`).
- Each chunk of a child's output is decoded alone (scripts/bench-http-ordinary.ts:269 and
  272). A border inside a UTF-8 character puts replacement characters into the kept, raw and
  pending text: the bytes C3 and A9 in two chunks give two U+FFFD where the stream has one
  letter (`CutLetter`). The text kept is the text sent exactly when no border falls inside a
  character (`KeepsTextSent`). Statistics lines that are ASCII are not affected by any
  cutting (`AsciiStatsUnchanged`).
- The last stage of the self-compile checkpoint deletes its working directory before it
  records completion (scripts/bench.ts:1544-1546). A kill after the binary is deleted and
  before completion is recorded is the one way to make a run impossible to complete
  (`ResumableExactlyWhenNotLost`, `LossIsReachable`).
- `conditions` does not know the directives `#elifdef` and `#elifndef`. Its guards mean
  what C would compile with those lines deleted (`GuardsMeanInclusionWithout`). With `B`
  defined and `A` false, `#if A`, `#elifdef B` is misjudged both in the second branch and in
  a following `#else` (`ElifdefWrong`). At every position of every well-nested text the
  guards are right or wrong exactly as `ElifdefMisjudged` says: inside a branch the script
  overlooked they are right where neither that text nor the one it is taken for is chosen;
  elsewhere they are wrong where the script believes in every open group and one of them has
  an overlooked branch whose condition is true.
- A condition inside skipped text need not be an expression for C, but the script copies it
  into the guard line. If no copied condition closes a parenthesis it did not open, the line
  is an expression exactly when every condition copied from an open group is one
  (`GuardLineReads`; an empty condition is enough to lose it, `SkippedConditionCopied`).
  A condition that does close such a parenthesis can make the line an expression again, and
  then a right or a wrong one: under a false `O`, `A) && (B` gives a line that is false, as it
  should be, and `A) || (B` one that is true where C compiles nothing (`StrayParentheses`).
  Where C accepts the text and compiles it none of this can happen
  (`CompiledConditionsParse`).
- The two ends of the bootstrap interval, positions 50 and 1950 of 2000, are not mirror
  images: an improvement is a regression in the opposite direction, and the converse is
  decided by a neighbouring one of the sorted medians (`DirectionsAreNotMirrored`).
- Two profile frames can share one hotspot key when a function name holds a NUL
  (`KeysCollide`); two frames with one key are the same frame exactly when their function
  names are equally long (`SameKey`).
- The wire digest cannot see two inner bytes exchanged at a distance that is a multiple of
  65521 (`SwapOfTwoBytes`); every other exchange of unequal bytes changes it.

## Model

| member | source | states |
|---|---|---|
| `NativeCacheExport.SnapshotExport.Run` | scripts/ci-native-cache.ts:432-556 | the export loops produce exactly the snapshot, the exported list, the byte count and the four category totals of the plan: bakes, then used actions, then ThinLTO files, then older actions, each taken greedily within the budget |
| `NativeCacheBudget.ExportWithinBudget` | scripts/ci-native-cache.ts:464-485 | for every cache and options the bytes admitted, which are the sum of the four category totals, never exceed the budget |
| `NativeCacheBudget.ExportedActions` | scripts/ci-native-cache.ts:445-485 | an exported action was a candidate, lies inside the retention window and had all outputs present with their sizes |
| `NativeCacheBudget.ExportsEachActionOnce` | scripts/ci-native-cache.ts:464-485 | no two exported actions have the same manifest, although the used and the older pass read one list |
| `NativeCacheBudget.UsedWorkComesFirst` | scripts/ci-native-cache.ts:425-431 | caches that agree on bakes, on the actions the job used and on the sizes of their outputs export the same bakes and the same used actions, whatever older actions, other blobs and ThinLTO files they hold |
| `NativeCacheImport.CacheDirectory.CopyAtomically` | scripts/ci-native-cache.ts:280-304 | a copy makes the directory, fills a temporary that may hold anything before it holds the file, renames it and removes what is left of it; every state on the way is safe to read and has at most one temporary, and the end is the file in place and nothing else changed; the states recorded are the earlier ones and then exactly those of this copy, in order |
| `NativeCacheImport.CacheDirectory.ImportSnapshot` | scripts/ci-native-cache.ts:320-381 | for an arbitrary, possibly corrupt snapshot and any cache: the result of the import; and after every single file operation, which only writes temporaries, renames one, or sets a time, each manifest is as it was or the snapshot's with all outputs present and verified, each blob and each file of a bake is as it was or verified, a bake without a record before reads as complete only with every file in place, each ThinLTO file that is not a temporary is as it was or verified, no file of a bake disappears, and at most one temporary is there, none at the end |
| `NativeCacheImport.NotTaken` | scripts/ci-native-cache.ts:110-118 | the name of a temporary is never that of a manifest, a blob or a bake's record, and no import accepts it for a ThinLTO entry; the export's listing of ThinLTO files does take it (`LeftoverListed`) |
| `NativeCacheCompleteness.CompleteExactly` | scripts/ci-native-cache.ts:368-380 | after every operation of an import a bake reads as complete exactly when it had a record before or an accepted row of the snapshot is in place with all its files |
| `NativeCacheCompleteness.PartlyCopiedReadsComplete` | scripts/ci-native-cache.ts:371-378 | a bake with no accepted row in place reads as complete exactly when it had a record before the import |
| `NativeCacheCompleteness.OldRecordOverNewCode` | scripts/ci-native-cache.ts:371-378 | a concrete crash after the first file that leaves a new file under an old record, read as complete |
| `NativeCacheImport.RecordLastOrder` | scripts/ci-native-cache.ts:372-376 | the copying order has the same files as the row and no other file after the record |
| `NativeCacheRestore.ImportRestores` | scripts/ci-native-cache.ts:320-392 | importing an exported snapshot into an empty cache restores exactly what was exported and passes the import's checks, with times in whole milliseconds, and nothing else |
| `NativeCacheRestore.ImportsOver` | scripts/ci-native-cache.ts:320-392 | the same over a cache that holds other things of the same origin, which stay as they are |
| `NativeCacheFixedPoint.ReExportFixedPoint` | scripts/ci-native-cache.ts:432-556 | for every cache and options, export, import into an empty cache and export again: the digest rows are the same if and only if every exported blob, name and digest passes the import and every exported bake still counts as used with its truncated time or the part is shared; accepted actions and ThinLTO entries always come back |
| `NativeCacheFixedPoint.WholeMillisecondsFixedPoint` | scripts/ci-native-cache.ts:432-556 | with no used-since time, or one in whole milliseconds, the fixed point holds for a cache if and only if the import accepts everything exported |
| `NativeCacheFixedPoint.FractionalUsedSinceLosesBake` | scripts/ci-native-cache.ts:490-502 | a concrete cache for which the fixed point fails: a bake used at 1000.7 ms, exported with used-since 1000.5 ms |
| `NativeCacheFixedPoint.LeftoverBreaksFixedPoint` | scripts/ci-native-cache.ts:230-278 | an export that takes the leftover temporary of a ThinLTO copy is never a fixed point |
| `NativeCacheFixedPoint.CrashBreaksFixedPoint` | scripts/ci-native-cache.ts:230-304 | a concrete such cache: an empty one after a crash in the middle of the first ThinLTO copy |
| `NativeCacheFixedPoint.BakeLeftoverListed` | scripts/ci-native-cache.ts:188-226 | a leftover temporary in a bake directory is listed as one of its files under a name the import accepts |
| `NativeCacheFixedPoint.ImportReportsExportDigest` | scripts/ci-native-cache.ts:156-176 | an import of an exported snapshot reports the digest rows the export reported if and only if it skipped nothing |
| `NativeCacheParts.SharedAndLine` | scripts/ci-native-cache.ts:404-456 | importing a shared snapshot and then a line exported without its contents, or without the shared stages, restores exactly what the two plans name together and the imports accept; no action and no restorable bake is carried twice, and no action of the cache is left out by both except those of shared stages the shared export passed over, and a bake of the cache is wanted by the line exactly when the line used it, the line leaves out what the shared snapshot contains rather than all shared stages, and the shared import does not restore it |
| `PairedComparison.Pairing.AddPair` | scripts/bench-compare.ts:954-985 | the two loops over the metrics of a pair keep the samples and unpaired metrics equal to their definition over all pairs, and fail exactly when no metric stays paired |
| `PairedComparison.SamplesMean` | scripts/bench-compare.ts:954-985 | a metric has samples exactly if both snapshots of every pair have it, then one per pair in order; every other metric seen is unpaired, and none is both |
| `PairedComparison.UnpairedForever` | scripts/bench-compare.ts:960-969 | an unpaired metric never returns, whatever pairs follow |
| `PairedComparison.RunComparison` | scripts/bench-compare.ts:938-988 | the warm-ups and the pairing loop, with the separate file for lanes besides HTTP, end as the machine defines, with the samples of exactly the completed pairs in memory |
| `PairedComparison.ResumeIsContinuation` | scripts/bench-compare.ts:821-884 | resuming from what is stored equals one run that makes the earlier successful measurements and then sees the later events |
| `PairedComparison.InterruptionsDoNotMatter` | scripts/bench-compare.ts:551-607 | for every pattern of interruptions and failures the last invocation ends as one uninterrupted run with the same successful measurements |
| `PairedComparison.MeasuredOnce` | scripts/bench-compare.ts:821-884 | over any number of invocations the labels measured to success are all different, none was stored before, together with those stored before they are all that is stored, and nothing stored is replaced |
| `PairedComparison.ReplayGivesSameResult` | scripts/bench-compare.ts:821-884 | resuming a finished comparison measures nothing and gives the same outcome and store |
| `RegressionStatistics.BootstrapInterval` | scripts/bench-compare.ts:199-218 | the loop over 2000 resamples with one running generator gives the 51st and 1951st of the sorted resampled medians, with every index in range |
| `RegressionStatistics.IntervalBetween` | scripts/bench-compare.ts:199-218 | the lower end is at most the upper end and both lie between any bounds of the changes |
| `RegressionStatistics.Classify` | scripts/bench-compare.ts:220-260 | the status is the decision on the median change, the interval and the median absolute change |
| `RegressionStatistics.UnanimousRegression` | scripts/bench-compare.ts:220-260 | if every pair is worse by more than the threshold the status is regression, or unchanged exactly when the absolute floor is missed |
| `RegressionStatistics.UnanimousImprovement` | scripts/bench-compare.ts:220-260 | if every pair is better by more than the threshold the status is improvement, or unchanged exactly when the absolute floor is missed |
| `RegressionStatistics.EqualIsUnchanged` | scripts/bench-compare.ts:220-260 | identical base and head are unchanged under every policy |
| `RegressionStatistics.WorseIsNeverMilder` | scripts/bench-compare.ts:184-260 | making the head worse in any pairs keeps a regression a regression, and making it better keeps an improvement, unless the absolute floor is then missed |
| `RegressionStatistics.DirectionsAreNotMirrored` | scripts/bench-compare.ts:199-260 | an improvement is a regression in the opposite direction; the converse holds exactly when one more median is negative |
| `SelfCompileCheckpoint.NextStageInOrder` | scripts/bench-compare.ts:401-414 | the stage a valid checkpoint leads to is the one the announced list names for its progress, and it is complete exactly after runs + 9 |
| `SelfCompileCheckpoint.InvocationEffect` | scripts/bench.ts:1349-1548 | whatever a stage yields and wherever the process is killed: the checkpoint stays valid, with equally long node and maligator lists, and advances by at most one stage |
| `SelfCompileCheckpoint.SuccessAdvances` | scripts/bench.ts:1349-1548 | a successful process advances by exactly one stage, or reports a complete run without change |
| `SelfCompileCheckpoint.CompletesInRunsPlusNine` | scripts/bench.ts:1315-1347 | for every runs of at least 1, exactly runs + 9 successes lead from no checkpoint to a complete one, in the announced order, and its metrics then assemble |
| `SelfCompileCheckpoint.RunSnapshot` | scripts/bench-compare.ts:569-604 | the retry loop never meets its own "no checkpoint progress" error, and successes alone end it after exactly the missing stages |
| `SelfCompileCheckpoint.ResumableExactlyWhenNotLost` | scripts/bench.ts:1532-1548 | after any processes, failing or killed anywhere, inside the removal of the directory too, the run can still be completed if and only if none was killed between deleting the binary and recording completion |
| `SelfCompileCheckpoint.LossIsReachable` | scripts/bench.ts:1532-1548 | that loss can happen for every number of runs |
| `NativeGuards.Conditions` | scripts/generate-known-native-entries.ts:64-88 | the loop over the lines returns the guards of the open groups, or throws, as the line-by-line scan defines |
| `NativeGuards.CompiledWhenChosen` | scripts/generate-known-native-entries.ts:64-88 | for every well-nested text C compiles a position exactly when it chose the present branch of every open group |
| `NativeGuards.GuardsMeanInclusion` | scripts/generate-known-native-entries.ts:64-88 | for every well-nested text without `#elifdef` in an open group: the guard line is a C expression that is true exactly when C compiles the text, where the conditions copied from open groups are expressions; it is true wherever C accepts and compiles the text; and where no copied condition closes a parenthesis it did not open, it is right only where they are expressions |
| `NativeGuards.WrapperCallsWhatIsCompiled` | scripts/generate-known-native-entries.ts:128-146 | in every configuration in which the copied conditions are expressions the emitted wrapper calls the native symbol exactly when its definition is compiled, and otherwise takes the fallback; wherever C accepts and compiles the definition, the wrapper calls it |
| `NativeGuards.GuardsMeanInclusionWithout` | scripts/generate-known-native-entries.ts:64-88 | for every well-nested text whose copied conditions are expressions the guards mean what C compiles with `#elifdef` and `#elifndef` deleted, and, unless a copied condition closes a parenthesis it did not open, for no other |
| `NativeGuards.ElifdefMisjudged` | scripts/generate-known-native-entries.ts:64-88 | at every position of every well-nested text, in terms of the open groups: where the copied conditions are not expressions and close no parenthesis they did not open, the guards are wrong; where they are expressions, inside an overlooked branch the guards are right exactly where neither C chose the text nor the script believes in it; elsewhere they are wrong exactly where the script believes in every open group and one has an overlooked true branch |
| `NativeGuards.ElifdefWrong` | scripts/generate-known-native-entries.ts:67-68 | a text and a configuration for each of the two ways to be wrong |
| `NativeGuards.SkippedConditionCopied` | scripts/generate-known-native-entries.ts:64-88 | a text in which an empty condition C does not evaluate makes the guard line no expression |
| `NativeGuards.GuardLineReads` | scripts/generate-known-native-entries.ts:64-88 | for every well-nested text whose copied conditions close no parenthesis they did not open, the guard line is an expression if and only if every condition copied from an open group is one |
| `NativeGuards.CompiledConditionsParse` | scripts/generate-known-native-entries.ts:64-88 | where C accepts a text, finding every condition it evaluates an expression, and compiles it, every condition copied from an open group is an expression |
| `NativeGuards.StrayParentheses` | scripts/generate-known-native-entries.ts:64-88 | texts C accepts and does not compile whose copied condition is no expression and closes a parenthesis it did not open, while the guard line is one: right with `&&`, wrong with two bars |
| `GuardParentheses.JoinedParts` | scripts/generate-known-native-entries.ts:133 | parts that close no parenthesis they did not open, parenthesised and joined by one operator, are an expression only if each is one |
| `PrimordialInventory.Inventory.Identity` | runtime/primordial_inventory_test_main.c:55-61 | the number of an object is its place in the list, which grows by the object only if it was not there |
| `PrimordialGraph.Snapshot` | runtime/primordial_inventory_test_main.c:141-168 | the loop over the growing list ends on every finite graph, cyclic or not, and prints the records of the final numbering, although it prints numbers before later ones are given |
| `PrimordialGraph.NumbersExactlyTheReachable` | runtime/primordial_inventory_test_main.c:91-139 | the numbering lists each object once, and exactly those reachable from the roots through prototypes, values, getters, setters and symbol keys |
| `PrimordialReferences.EveryNumberHasItsNode` | runtime/primordial_inventory_test_main.c:63-139 | the nodes printed are numbered densely from 0, each once, and every number printed anywhere is that of a printed node |
| `PrimordialIsomorphism.SameInventoryIffIsomorphic` | runtime/primordial_inventory_test_main.c:91-168 | two graphs print the same inventory if and only if a one-to-one renaming of identities carries one reachable graph, with its roots, to the other |
| `Argon2Gate.PoolTest.Play` | runtime/argon2_test_main.c:60-123 | the functions of the gate, each step run on the shared fields in any order: the fields end as the machine of the two threads does, the test is not stuck, a derivation was entered for every round completed and at most one more, and where nobody can move all rounds are done |
| `Argon2Gate.EveryRoundFinishes` | runtime/argon2_test_main.c:677-696 | under every schedule with spurious wake-ups nobody is ever stuck, derivations entered are the rounds completed or one more, the moves are bounded by 11 a round, and when nobody can move all rounds are done |
| `Argon2Gate.ExitWaitIsNeeded` | runtime/argon2_test_main.c:75-89 | without waiting for the exit a stuck state is reachable exactly when there is a second round, and no further move leaves it |
| `IsolatedTools.PublishesWholeOrNothing` | scripts/isolated-tools.ts:11-31 | in every interleaving with crashes and reused pids the directory is absent or has all links and never changes again, a call that returned left it in place and its own staging gone, and none throws unless two links share a name |
| `IsolatedTools.CallsNeverWait` | scripts/isolated-tools.ts:11-31 | each step of a call brings it nearer its end and no other process sets it back |
| `UnicodeTables.Generator.Store` | scripts/generate-unicode-data.ts:77-96 | storing rows appends their values to the shared pool and lists them with their start and length |
| `UnicodeTables.PoolSlice` | scripts/generate-unicode-data.ts:77-86 | the slice a row points to holds its values, whatever is appended to the pool later |
| `UnicodeTables.FindRow` | runtime/src/unicode.c:21-29 | the binary search finds the row of a code point, or says that it has none |
| `UnicodeTables.MappingsRead` | scripts/generate-unicode-data.ts:78-89 | looking a code point up and slicing the pool gives what the map says, and the code point itself where the row was left out |
| `UnicodeTables.DecompositionsRead` | scripts/generate-unicode-data.ts:90-96 | looking a code point up in the decomposition table gives its values and compatibility flag, or nothing |
| `CombiningClassPages.JoinInjective` | scripts/generate-unicode-data.ts:109-110 | pages of one length with one comma-joined key are equal |
| `CombiningClassPages.FillClasses` | scripts/generate-unicode-data.ts:98-103 | the flat table holds the class of every code point, and filling it fails exactly when a class is no byte |
| `CombiningClassPages.BuildPages` | scripts/generate-unicode-data.ts:104-118 | reading through the page index gives the flat table at every code point, pages share an id exactly when equal, and building fails exactly when there are more than 256 different pages |
| `CombiningClassPages.ReadsFlatTable` | runtime/src/unicode.c:41-44 | the runtime's lookup equals the flat table everywhere if and only if no code point below 0x80 has a class |
| `UnicodeComposition.EveryRowUndone` | scripts/generate-unicode-data.ts:122-132 | every composition row is undone by the canonical decomposition lookup of its code point |
| `UnicodeComposition.FindComposite` | runtime/src/unicode.c:256-271 | the search over the flat sorted table finds the composite of the first eligible code point with that decomposition, Hangul syllables by arithmetic, or 0 |
| `CanonicalOrdering.SameOrderIffEquivalent` | runtime/src/unicode.c:273-305 | two texts have the same canonical ordering if and only if exchanges of neighbouring marks of different classes lead from one to the other |
| `CanonicalOrderingInPlace.OrderPoints` | runtime/src/unicode.c:273-305 | the in-place code, insertion sort for runs under 32 marks and class buckets for longer ones, leaves the canonical ordering |
| `CanonicalOrderingInPlace.BucketsAreOrder` | runtime/src/unicode.c:294-299 | emptying the class buckets in order gives the canonical ordering of a run |
| `UnicodeNormalization.CompositeKeepsFull` | runtime/src/unicode.c:256-271 | a composite decomposes fully into what its two parts decompose into |
| `UnicodeNormalization.NfdOfNfc` | runtime/src/unicode.c:307-337 | decomposing the composed form gives the decomposed form, canonical and compatibility alike |
| `UnicodeNormalization.FormsAreFixed` | runtime/src/unicode.c:307-337 | normalizing twice is normalizing once, for all four forms |
| `UnicodeNormalization.FormsAgree` | runtime/src/unicode.c:307-337 | two texts have the same composed form if and only if they have the same decomposed form |
| `CanonicalEquivalence.SameFormIffLinked` | runtime/src/unicode.c:307-337 | two texts have the same decomposed form if and only if single decompositions, taken either way, and exchanges of neighbouring marks of different classes link them; canonical decompositions alone, or compatibility ones too |
| `CanonicalEquivalence.SameComposedIffLinked` | runtime/src/unicode.c:307-337 | two texts have the same composed form if and only if they are so linked |
| `UnicodeNormalization.ComposePoints` | runtime/src/unicode.c:318-332 | the in-place composition, reading classes from the generated pages and reading and writing one array of code points, leaves the composed text |
| `UnicodeNormalization.Normalize` | runtime/src/unicode.c:307-337 | on code points, the code over the generated tables and pages computes the form asked for |
| `UnicodeNormalization.RuntimeClass` | runtime/src/unicode.c:41-44 | the class read through the generated pages is the class normalization is defined with |
| `AdlerDigest.Compute` | scripts/eval-selfhost-check.ts:35-43 | the loop gives the closed-form sums modulo 65521, the length and the end bytes |
| `AdlerDigest.WeightedIsMoments` | scripts/eval-selfhost-check.ts:35-43 | the running double sum counts each byte as often as its distance from the end |
| `AdlerDigest.Concatenation` | scripts/eval-selfhost-check.ts:35-43 | the two sums of a concatenation from those of its parts |
| `AdlerDigest.ChangeOfOneByte` | scripts/eval-selfhost-check.ts:35-43 | equally long buffers that differ in one byte have different digests |
| `AdlerDigest.ChangeOfTwoBytes` | scripts/eval-selfhost-check.ts:35-43 | a change of two bytes is missed if and only if neither is an end byte, one gains what the other loses, and they lie a multiple of 65521 apart |
| `AdlerDigest.SwapOfTwoBytes` | scripts/eval-selfhost-check.ts:35-43 | exchanging two unequal bytes is missed exactly at such distances, and never for neighbours |
| `WirePlan.ReadPlan` | runtime/test262_wire.c:58-90 | an empty plan is refused; otherwise every pointer is set, lies inside the plan and reads as its line without its line end, and the directive is taken off a plan with further lines |
| `WirePlan.SplitLines` | runtime/test262_wire.c:67-81 | the in-place loop cuts every newline and one carriage return before it, and fills exactly the counted pointers with the line starts |
| `WirePlan.RoundTrip` | src/test262/runtime.ts:881-886 | the runner reads a written plan back as it was if and only if its paths have no newline, NUL or final carriage return and a blocking plan of several wires does not begin with the directive |
| `StatsStream.ServerProcess.OnStderr` | scripts/bench-http-ordinary.ts:271-287 | handling a chunk of bytes, decoded alone, is one step of the stream machine; without capture only the bounded tail changes |
| `StatsStream.KeepsText` | scripts/bench-http-ordinary.ts:268-287 | the kept stderr is the last 8192 units of the text as decoded chunk by chunk, the raw text is all of it, and the pending text is its unfinished line |
| `StatsStream.KeepsTextSent` | scripts/bench-http-ordinary.ts:268-287 | the raw text is the decoding of all bytes received if and only if no border between chunks falls inside a character, and then tail and unfinished line are those of the text sent |
| `StatsStream.AsciiStatsUnchanged` | scripts/bench-http-ordinary.ts:276-286 | for every cutting of the bytes the statistics lines correspond one for one to the lines of bytes that begin with the mark, and each that is ASCII is delivered as sent |
| `Utf8Chunks.ChunkwiseExactly` | scripts/bench-http-ordinary.ts:268-272 | for all bytes and every cutting, well-formed or not: the concatenated decodings equal the decoding of the concatenation if and only if every border lies between two units, a unit being a character or an ill-formed piece replaced as one |
| `Utf8Chunks.WellFormedChunkwise` | scripts/bench-http-ordinary.ts:268-272 | for well-formed text that is: if and only if every border lies between two characters |
| `Utf8Chunks.DecodeEncoded` | scripts/bench-http-ordinary.ts:268-272 | the decoder gives back every text from its UTF-8 form |
| `Utf8Chunks.CutLetter` | scripts/bench-http-ordinary.ts:268-272 | the bytes C3 and A9 in two chunks give two replacement characters instead of one letter |
| `StatsStream.RestIsTail` | scripts/bench-http-ordinary.ts:276-283 | the pending text is the end of the text and has no newline |
| `StatsStream.WaiterHearsNextLine` | scripts/bench-http-ordinary.ts:294-324 | in every order of events a waiter that registered once has exactly the first statistics line completed before it was withdrawn, or nothing if there was none, and waits only while neither happened |
| `StatsStream.WaiterHearsBytes` | scripts/bench-http-ordinary.ts:294-324 | in terms of the bytes and whatever their cutting: a waiter hears something exactly when a statistics line was completed while it was registered, and an ASCII line reaches it as sent |
| `StatsStream.HeardForGood` | scripts/bench-http-ordinary.ts:300-312 | once called or withdrawn, what a waiter has never changes |
| `AllocationAttribution.Summarize` | scripts/compiler-profile-summary.ts:102-127 | the recursive walk fills both tables and the three sums with the charges of all nodes of the tree in order |
| `AllocationAttribution.OwnerIsNearest` | scripts/compiler-profile-summary.ts:71-83 | the owner is the nearest repository frame at or below `optimizeCore`, and there is one exactly if such a frame exists |
| `AllocationAttribution.Conservation` | scripts/compiler-profile-summary.ts:61-100 | for non-negative sizes, direct weights add up to the optimizer bytes and owner weights to the attributed bytes, total bytes are all self sizes, and attributed is at most optimizer is at most total |
| `AllocationAttribution.ListedIsHeaviest` | scripts/compiler-profile-summary.ts:35-53 | at most twenty keys are listed, heaviest first, no unlisted one outweighs a listed one, and ties keep the order first charged |
| `AllocationAttribution.RowsAreCharges` | scripts/compiler-profile-summary.ts:24-53 | each row shows a charged frame and everything charged under its key |
| `AllocationAttribution.SameKey` | scripts/compiler-profile-summary.ts:20-22 | frames with one key are one frame exactly when their function names are equally long, which names without NUL are |

## Left out

- The worker pool, reactor, DNS, executor, FFI, garbage collector, realm, inline-cache and HTTP-codec behaviour the other test drivers exercise: only calls into those parts are in the files modelled here.
- Process spawning, signals, timers, deadlines, git, tar and the HTTP load tool of the benchmark scripts: input and output.
- `cumulativeGcDelta`, log lines and report formatting: they would only add easy members.
- The case conversion of runtime/src/unicode.c with its contexts and locales, property ranges, UTF-16 reading and writing, and allocation failure: only the mapping tables it reads are modelled.
- JSON text, SHA-256 and regular-expression engines: values, a parameter, and predicates on strings.
- Floating-point rounding: medians, percentages and times are exact.
- Parsing of C beyond guard expressions: conditions come as tokens, with everything but `!`, `&&`, `||` and parentheses grouped into atoms; the script reads raw lines, so a condition continued on a second line reaches it cut off, and one configuration holds for a whole text, so a `#define` between directives is not seen.
- NativeGuards.Conditions: takes lines with their directive already recognised; a directive continued with a backslash is not modelled, and the guard copied from its first line need not be an expression.
- NativeCacheExport.SnapshotExport.Run: a copy through a temporary file is one step, so a crash inside an export is not modelled; the export directory is removed first.
- NativeCacheFixedPoint.ReExportFixedPoint: for a file system that lists names in one fixed order.
- NativeCacheImport.CacheDirectory.ImportSnapshot: the tags of this run's temporaries are new, as random identifiers are; one process imports at a time.
- NativeCacheParts.SharedAndLine: both snapshots come from one cache; a shared snapshot saved by another job is covered only as far as its blobs are the same.
- PairedComparison.RunComparison: the check that the captured sources did not change, which ends a comparison for good, is not modelled.
- SelfCompileCheckpoint.ResumableExactlyWhenNotLost: whether the copied sources left by an interrupted removal still compile is part of what a stage yields, which is an input.
- UnicodeNormalization.Normalize: assumes decompositions that do not form a cycle, one entry a code point, and none for ASCII, Hangul syllables or the jamo the code composes by arithmetic; texts are code points, so reading and writing UTF-16 and failing allocations are not modelled.
- UnicodeNormalization.ComposePoints: on code points, as above.
- AllocationAttribution.Conservation: for sizes that are not negative, as a profile has them.
