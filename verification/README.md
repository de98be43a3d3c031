# Bun: scripts, bundler runtime and generators, verified

This project models the parts of the Bun repository outside its native code whose correctness is hard to
see: the live log filter of the CI, the sharding and the bookkeeping of the test runner, the module and
disposal helpers that the bundler emits, the Unicode table generator, and a handful of formats and
parsers. Where the source updates state step by step, the model has a class or a method with a loop, and
its contract ties it to a specification function; the theorems are about that function.

| module | what it is about |
|---|---|
| `LogText`, `LineRewrite`, `LiveOutput`, `LogPatterns`, `LiveFilter`, `CutStreams`, `CleanLogs` | the streaming log filter: however the stream is cut into chunks, the log is the stream rewritten line by line; and exactly which streams with unusual line terminators depend on the cuts, and which leave a command in the log |
| `BinPacking`, `TightPacking`, `Sharding` | longest-processing-time-first sharding, within 4/3 − 1/(3m) of every other assignment |
| `Limiter` | the concurrency limiter, over all interleavings of calls, starts and ends |
| `TestRun`, `WholeRun` | retries, verdicts, phases and batches, and whole runs made of them: every selected test ends in exactly one list |
| `ModuleInit` | lazy once-only module evaluation over graphs with cycles |
| `ReExport` | `export *` |
| `Disposal`, `ProposalTrace` | `using` and `await using`, against the ECMAScript Explicit Resource Management proposal |
| `UnicodeTable`, `PackedTable` | the two-stage Unicode table, its bit packing and the emitted lookup |
| `Completions`, `LittleEndian` | the package name table, its reader and its letter index |
| `ZipTail`, `LittleEndian` | reading the size of a file from the end of a zip archive |
| `BuildArgs`, `BuildLine`, `BuildValues` | which argument goes where in `scripts/build.ts` |
| `LogSpans` | how long each test took, from the timestamps of a CI log |
| `Vlq` | Base64 VLQ with 32-bit arithmetic |
| `XmlText` | XML escaping and its inverse |

`Wrappers` holds what the others share. `dafny verify dfyconfig.toml` checks everything.

## What the proofs found

- **Limiter.** The comment on `createLimit` says that the rest start in the order they were passed. A
  waiter that was handed a slot starts in a later microtask, and a new call can start before it when
  another slot has become free in between (`OvertakingHappens`). Starts are in call order exactly if no
  call ever does that (`InCallOrderIffNoOvertaking`); the runner's own phases make all their calls first,
  so there it never happens (`PhasesRunEverything`).
- **Modules.** A module that was called back in a cycle returns before its importer has been evaluated. If
  the importer then throws, a later call of the module still returns (`ReturnAfterFailure`). The exact
  condition is `ReturnMeansEvaluated`.
- **Disposal.** `__callDispose` waits for the promise that a synchronous `[Symbol.dispose]` returns in an
  `await using`; the proposal ignores it. So a rejection of that promise counts here and nowhere else
  (`RefinesDisposeResources`, `FallbackRejects`). It calls what the proposal calls, in the same order, but
  waits once for every `await using x = null`, where the proposal waits once for several or not at all,
  and does not wait after a synchronous method that throws, where the proposal does
  (`TracesAgreeIff`). `__using` takes a null `[Symbol.asyncDispose]` for a method and throws; the proposal
  falls back to `[Symbol.dispose]` (`UsingRefinesCreateResource`).
- **Unicode table.** The emitted lookup answers whether the predicate differs from its value at code point
  0. So it is right exactly for the predicates that are false there (`GenerateTable`).
- **Completions.** Offsets count the groups `a` to `z` only, and a group holds both cases of its letter.
  `IndexIsRightIff` says exactly for which lists the index is right.
- **Batches.** A file in both `failed` and `incomplete` is run again twice and gets two entries, so that a
  run has more entries than tests, exactly then (`EveryTestIsAccountedFor`). The JUnit report never puts
  a file in both (`ReportRecordsEachFileOnce`); the output of a batch without a report does, when it
  says both of a file (`OutputRecordsTwice`, `CrashedAndNotStarted`).
- **Arguments.** Once flags have ended, more arguments go to the binary, except after a `-d` at the very
  end of argv, which may become an option of ninja (`MoreArgumentsGoToExec`). `--key=value` with a line
  break in the value is not recognised as a flag (`TwoWaysToWriteAFlag`). A bad boolean is reported
  without its flag, so that two flags in error can be swapped exactly if they are booleans with the same
  bad value (`FlagsCommute`).
- **Zip archives.** The scan for the end record stops at the first signature it comes across, which may be
  in the comment (`FindsEndIff`, `CommentMisleads`).
- **Log filter.** `^` also matches after U+2028 and U+2029, which the filter does not treat as line ends. So
  the output may depend on how the stream is cut, exactly if some line that does not start with a
  workflow command has a file header, a command or a group marker after such a separator that the
  filter would rewrite (`CutsDoNotMatterIff`). At the end of the stream, of a line that is held back
  although it is no command (`:`, an escape sequence, `:`), only headers are rewritten.
  A line that starts with a command and holds a separator stays in the log (`AlwaysCleanIff`).
- **Numbers.** Under `--parallel`, a test that waits for the prebuilt addons has its slot and no number yet, so
  numbers need not follow the list (`NumbersOutOfOrder`, `InListOrderIff`).

## Model

| member | source | states |
|---|---|---|
| `LogPatterns.CommandIs` | scripts/buildkite.ts:527-530 | Against literal text: outside GitHub Actions a command is `::`, there only `::group::` and `::endgroup::`. |
| `LogPatterns.HeaderIs` | scripts/buildkite.ts:528-528 | A file header is `::group::`. |
| `LogPatterns.MarkerIs` | scripts/buildkite.ts:531-531 | The four group markers. |
| `LogPatterns.TerminatorsAre` | scripts/buildkite.ts:527-531 | What ends a line, and after what else `^` matches and at what else `.` stops. |
| `LogPatterns.AnsiLenIs` | scripts/buildkite.ts:526-526 | What is recognised as an escape sequence: escape, a bracket, digits and semicolons, a letter; and at most one starts a text. |
| `LogPatterns.SkipAnsiIs` | scripts/buildkite.ts:526-526 | What is skipped is a run of escape sequences, and what is left starts with none. |
| `LogPatterns.SkipsCodes` | scripts/buildkite.ts:526-526 | And any such run is skipped. |
| `LogPatterns.VisibleIs` | scripts/buildkite.ts:492-494 | `stripAnsi` removes escape sequences and keeps every other character. |
| `LogPatterns.HeldIff` | scripts/buildkite.ts:532-542 | Exactly which incomplete lines are held back, against literal text. |
| `LogPatterns.HeldForAReason` | scripts/buildkite.ts:515-542 | Nothing is held back that could not still go on to a command or a marker. |
| `LogPatterns.LineComesOut` | scripts/buildkite.ts:505-585 | However a stream without U+2028/U+2029 is cut, for each of its lines, by the literal text it starts with: a file header becomes `test: name`; in GitHub Actions `::endgroup::` vanishes and any other command comes out unchanged; elsewhere every command vanishes; in Buildkite a marker is defused; everything else is unchanged. |
| `LogPatterns.ErrorsAreForGitHub` | scripts/buildkite.ts:508-513 | An `::error` line comes out unchanged in GitHub Actions, and vanishes elsewhere. |
| `LineRewrite.ReplaceShrinks` | scripts/buildkite.ts:526-531 | A global multiline replacement changes nothing exactly if its pattern matches nowhere that `^` matches, and makes the text shorter otherwise. |
| `LineRewrite.TransformLine` | scripts/buildkite.ts:574-575 | The three replacements rewrite a text line by line, whatever is in it, also where a dropped line brings two others together. |
| `LineRewrite.RewritesSafely` | scripts/buildkite.ts:526-575 | A line that starts with no command, and in which nothing is matched after a separator, is rewritten as one: markers are defused, the rest stays. |
| `LineRewrite.RewritesPlainLine` | scripts/buildkite.ts:526-575 | A line without separators is rewritten as one: `::group::` headers become `test: name`, workflow commands vanish with their line end, Buildkite markers are defused, the rest stays. |
| `LineRewrite.RewritesMore` | scripts/buildkite.ts:526-575 | If something is matched after a separator, the line gets shorter than that. |
| `LiveOutput.CommandPrefixIsHeld` | scripts/buildkite.ts:535-542 | Every prefix of a line that starts with (escape sequences, then) `::` is held back, also one that ends inside an escape sequence. |
| `LiveOutput.MarkerPrefixIsHeld` | scripts/buildkite.ts:535-542 | In Buildkite, every proper prefix of a group marker is held back. |
| `LiveOutput.UnheldContent` | scripts/buildkite.ts:535-576 | A line that was started and not held back is rewritten the same however it goes on. |
| `LiveOutput.HeldLater` | scripts/buildkite.ts:535-542 | The start of a line that is held back later although it was written holds no separator. |
| `LiveOutput.FeedSplit` | scripts/buildkite.ts:546-577 | A chunk with complete lines in front is filtered as these lines and then the rest, at the start of a line and in the middle of one. |
| `LiveOutput.FeedStep` | scripts/buildkite.ts:546-577 | One call, from any reachable state and for every continuation of the stream: what it writes, then what the new state owes, is what the old state owed. |
| `LiveFilter.FinishIsOwed` | scripts/buildkite.ts:578-583 | `end()` writes exactly what is still owed when nothing more arrives. |
| `LiveFilter.TotalIsOwed` | scripts/buildkite.ts:544-583 | From any state, the output for the rest of a stream depends on the rest of the stream alone, not on how it is cut. |
| `LiveFilter.TotalIsFiltered` | scripts/buildkite.ts:505-585 | For every stream in which nothing that matters comes after a separator and every way of cutting it, the outputs and `end()` together are its lines, each filtered on its own. |
| `LiveFilter.PlainIsRewritten` | scripts/buildkite.ts:505-585 | A stream without U+2028/U+2029 is such a stream, and its lines are rewritten as the documentation says. |
| `LiveFilter.ChunkingDoesNotMatter` | scripts/buildkite.ts:505-585 | For every way of cutting a stream: what is written is its lines, each filtered on its own, if nothing that matters comes after a separator (which is exactly when the cuts do not matter, `CutsDoNotMatterIff`); and the whole stream rewritten line by line as documented, if there is no U+2028/U+2029. |
| `LiveFilter.RewriteAllIsClean` | scripts/buildkite.ts:508-513 | No line of a rewritten text starts with what would be rewritten: no file header, no command that is to be dropped, in Buildkite no group marker. |
| `LiveFilter.KeptIffClean` | scripts/buildkite.ts:508-513 | A text is left unchanged exactly if none of its lines needs a rewrite. |
| `CleanLogs.LineStarts` | scripts/buildkite.ts:526-575 | What a complete line leaves is nothing, or it starts with what is to be rewritten exactly if the line starts with a command that a separator cuts off. |
| `CleanLogs.AlwaysCleanIff` | scripts/buildkite.ts:505-585 | The exact law, for every stream: however it is cut, no line of the log starts a file header or a command, and none of a Buildkite log a group, if and only if no line shows that starts with a command and has a separator; such a line is hidden only behind one that has lost its line end. |
| `CleanLogs.FilteredLogIsClean` | scripts/buildkite.ts:508-585 | The log of such a stream is clean; and without separators, filtering it again, cut in any other way, changes nothing. |
| `CleanLogs.SurvivorStaysInLog` | scripts/buildkite.ts:527-574 | A stream that leaves a command in the log. |
| `CutStreams.SomeCutMatters` | scripts/buildkite.ts:526-583 | For any other stream: a place to cut it such that the output in two chunks differs from that in one. |
| `CutStreams.CutsDoNotMatterIff` | scripts/buildkite.ts:522-585 | The exact law, for every stream: the output does not depend on the cuts if and only if every line starts with a workflow command, or has nothing after a separator that is rewritten. |
| `CutStreams.SeparatorsBreakIt` | scripts/buildkite.ts:527-574 | Streams with U+2028 and U+2029 for which cuts matter. |
| `CutStreams.SeparatorAsText` | scripts/buildkite.ts:527-574 | One for which they do not, since nothing is matched after the separator. |
| `CutStreams.SeparatorInCommand` | scripts/buildkite.ts:535-574 | One for which they do not, since its line is held back whole. |
| `LiveFilter.LiveOutputFilter.constructor` | scripts/buildkite.ts:522-545 | A new filter owes the rewrite of the whole stream. |
| `LiveFilter.LiveOutputFilter.Filter` | scripts/buildkite.ts:546-577 | The closure does what the specification does, and keeps: log so far, then what is owed for any continuation, is the rewrite of everything. |
| `LiveFilter.LiveOutputFilter.End` | scripts/buildkite.ts:578-583 | The log is now the whole stream, filtered line by line, and the filter is ready for another one. |
| `BinPacking.Balanced` | scripts/runner.node.ts:2696-2702 | Longest first, least loaded bin: no bin is ahead of another by more than any one of its own jobs. |
| `BinPacking.AverageBound` | scripts/runner.node.ts:2696-2702 | Before a job is placed, its bin holds at most the best possible load less 1/m of the job. |
| `BinPacking.BigLastJob` | scripts/runner.node.ts:2696-2702 | If a job is longer than a third of the largest load of some other assignment, it does not lift its bin above that load. |
| `BinPacking.GrahamBound` | scripts/runner.node.ts:2696-2702 | Graham's bound: every load is at most 4/3 − 1/(3m) times the largest load of any other assignment. |
| `TightPacking.GrahamBoundIsTight` | scripts/runner.node.ts:2696-2702 | The packing of the runner, which takes the first of the least loaded bins, attains the bound for every number of bins, on the jobs 2m−1, 2m−1, …, m+1, m+1, m, m, m. |
| `Sharding.PackShards` | scripts/runner.node.ts:2694-2702 | The packing loop computes the assignment of the specification, job by job. |
| `Sharding.ShardTests` | scripts/runner.node.ts:2690-2707 | The shard a machine computes for itself; a shard number out of range is a TypeError. |
| `Sharding.PackIsGreedy` | scripts/runner.node.ts:2696-2702 | Every job goes to a bin that is least loaded at that moment. |
| `Sharding.LeastBinIsFirst` | scripts/runner.node.ts:2698-2699 | The bin that is chosen is the first of the least loaded ones: every bin before it has a larger load. |
| `Sharding.PackTakesFirst` | scripts/runner.node.ts:2696-2702 | So it is for every job, at the moment when it is packed. |
| `Sharding.OrderIsLongestFirst` | scripts/runner.node.ts:2690-2693 | The jobs are packed by cost, largest first, and those of equal cost in the order of the test list. |
| `Sharding.ShardsPartition` | scripts/runner.node.ts:2680-2707 | Over all shard numbers, every place of the test list is run exactly once. |
| `Sharding.ShardIsSubsequence` | scripts/runner.node.ts:2703-2707 | Each shard is a subsequence of the test list. |
| `Sharding.ShardsAreNearOptimal` | scripts/runner.node.ts:2678-2707 | The time of every shard is at most 4/3 − 1/(3m) times the longest time under any other split of the tests. |
| `Sharding.ShardsAreBalanced` | scripts/runner.node.ts:2678-2707 | No shard takes longer than another by more than the cheapest of its tests. |
| `Limiter.EveryRunIsSafe` | scripts/runner.node.ts:602-620 | In every interleaving: slots in use are the executing and the granted callers, never above the limit; somebody waits only if all slots are in use; every caller is in exactly one place. |
| `Limiter.AllSettledIsIdle` | scripts/runner.node.ts:612-617 | No slot leaks: everything has settled exactly if no slot is in use and nobody waits. |
| `Limiter.NobodyIsStuck` | scripts/runner.node.ts:606-617 | While something is unsettled, somebody executes or is about to. |
| `Limiter.RunsComeToAnEnd` | scripts/runner.node.ts:602-620 | Without new calls every run is bounded, and where it stops everything has settled. |
| `Limiter.InCallOrderIffNoOvertaking` | scripts/runner.node.ts:597-620 | Callers start in call order exactly if no call finds a free slot while a granted waiter has not started. |
| `Limiter.OvertakingHappens` | scripts/runner.node.ts:597-620 | A run with limit 2 in which the fourth caller starts before the third. |
| `Limiter.WaitersAreServedInOrder` | scripts/runner.node.ts:612-615 | Callers that had to wait start in the order in which they were passed, in every run. |
| `Limiter.PhasesDoNotOverlap` | scripts/runner.node.ts:1249-1258 | While a phase runs, only its own tests execute, at most as many as it is wide; so no parallel-safe test overlaps a serial one. |
| `Limiter.PhasesRunEverything` | scripts/runner.node.ts:1249-1258 | After all phases every test has started once, in call order, and all have settled. |
| `Limiter.Limit.constructor` | scripts/runner.node.ts:602-604 | No slot in use. |
| `Limiter.Limit.Acquire` | scripts/runner.node.ts:605-610 | A call, as a step of the state machine; whether it starts at once. |
| `Limiter.Limit.Release` | scripts/runner.node.ts:611-617 | The end of a call, as a step: the slot goes to the first waiter or becomes free. |
| `ModuleInit.EachBodyRunsAtMostOnce` | src/runtime.js:327-338 | On every import graph, cycles included, after any calls: each body was started at most once. That `Call` is a function at all says that evaluation ends. |
| `ModuleInit.AnswersAreForGood` | src/runtime.js:327-338 | A module that threw throws the identical value, and one that returned returns the same value, after any calls in between, and nothing is evaluated for it. |
| `ModuleInit.FirstCallEndsAsBody` | src/runtime.js:328-338 | The first call of a module returns what its body returns and throws what that throws. |
| `ModuleInit.BodyRunsInOrder` | src/runtime.js:328-338 | A body does one thing after the other, up to the first that throws. |
| `ModuleInit.OneStatement` | src/runtime.js:328-338 | An import calls the module, and throws what that throws. |
| `ModuleInit.ReturnMeansEvaluated` | src/runtime.js:328-338 | After any calls whatsoever: if a call returns, it added no error, and along each import path every module has completed exactly if none of them had thrown before. |
| `ModuleInit.ReturnsMeanEvaluated` | src/runtime.js:328-338 | As long as every call has returned, the first one included, everything reachable from what was called has completed, cycles or not. |
| `ModuleInit.ReturnAfterFailure` | src/runtime.js:328-338 | A cycle in which a module returns although the module it imports has thrown. |
| `ModuleInit.BodiesFinishInDependencyOrder` | src/runtime.js:328-338 | On acyclic graphs every body finishes after the bodies of all its imports. |
| `ModuleInit.WithoutCyclesReturnMeansEvaluated` | src/runtime.js:328-338 | On acyclic graphs a return means that everything reachable has completed, whatever failed before. |
| `ModuleInit.Bundle.constructor` | src/runtime.js:328-328 | No module has been started. |
| `ModuleInit.Bundle.Init` | src/runtime.js:328-338 | The wrapper, with its three variables overwritten in place, does what the specification says, and ends. |
| `ModuleInit.Bundle.Evaluate` | src/runtime.js:328-338 | A body: its imports in order, up to the first that throws. |
| `ReExport.Modules.CopyKeys` | src/runtime.js:31-36 | The loop over the keys: the target gets a getter for each key it did not have, except `default`. |
| `ReExport.Modules.ReExport` | src/runtime.js:27-48 | Both targets, and nothing else, are changed. |
| `ReExport.FirstModuleWins` | src/runtime.js:27-48 | After any sequence of `export *` with one or two targets, where the modules may be the targets themselves or no objects: each key of each target is its own, else that of the first module that had it; `default` is never added; nothing else changes. |
| `ReExport.SecondTargetAlike` | src/runtime.js:38-47 | A call with two targets is two calls, and each target gets what it would get from a call of its own. |
| `ReExport.EveryReadEnds` | src/runtime.js:18-48 | However exports are chained, in cycles too, reading a key comes to a value. |
| `ReExport.ReadsCurrentValue` | src/runtime.js:18-36 | An added key reads what the module's own key reads, after any later writes and merges. |
| `Disposal.DisposalIsOrderly` | src/runtime.bun.js:19-36 | For every stack and every pattern of throws and rejections, at every moment: what has happened is a prefix of the one orderly story, last in first out, each asynchronous entry settled before the next one starts; at the end the error is the fold of SuppressedError over the disposal errors in order. |
| `Disposal.EachMethodOnceLastInFirstOut` | src/runtime.bun.js:24-35 | At the end each dispose method was called exactly once, in reverse order of declaration. |
| `Disposal.OutcomeNests` | src/runtime.bun.js:20-23 | After one more error the outcome is a SuppressedError whose error is the new one and whose suppressed error is the outcome before it. |
| `Disposal.RefinesDisposeResources` | src/runtime.bun.js:19-36 | The outcome is that of DisposeResources exactly if no synchronous method used in place of a missing asynchronous one returned a promise that rejects. |
| `Disposal.UsingRefinesCreateResource` | src/runtime.bun.js:4-17 | A declaration does what CreateDisposableResource says, exactly unless the asynchronous method is null and there is a synchronous one. |
| `ProposalTrace.TracesAgreeIff` | src/runtime.bun.js:19-36 | The methods are called as in DisposeResources, always; and awaited as there, exactly if no synchronous fallback throws or returns a promise that rejects, and every null comes before all that is awaited and not right before another asynchronous resource. |
| `ProposalTrace.BlockRefinesProposal` | src/runtime.bun.js:4-36 | From any list of declarations to the end of the block: up to the first one whose asynchronous method is null and which has a synchronous one, the same resources, up to the same declaration that throws; there, if it is reached, the helper throws and the proposal goes on; what was declared before is disposed of with the same calls, the outcome of the proposal exactly if nothing strays, and its waits exactly as above. |
| `ProposalTrace.FallbackRejects` | src/runtime.bun.js:27-28 | A resource whose error the proposal does not see. |
| `Disposal.Block.constructor` | src/runtime.bun.js:4-4 | An empty stack. |
| `Disposal.Block.Declare` | src/runtime.bun.js:4-17 | Pushes an entry, or throws a TypeError and changes nothing. |
| `Disposal.Block.Failed` | src/runtime.bun.js:20-23 | The new error suppresses the one before. |
| `Disposal.Block.Proceed` | src/runtime.bun.js:24-34 | The loop of `next`, up to the next promise or the end. |
| `Disposal.Block.Settle` | src/runtime.bun.js:28-28 | The promise settles, and disposal goes on. |
| `Disposal.Block.Leave` | src/runtime.bun.js:19-36 | Leaving the block: it comes to an end, the stack is empty, and the outcome is the fold of the errors. |
| `UnicodeTable.FileElement` | misctools/unicode-generator.ts:40-57 | The index of an element, which is appended if it is new. |
| `UnicodeTable.FileBlock` | misctools/unicode-generator.ts:58-87 | The offset of a block, which is appended if it is new; fails exactly on the 257th distinct block. |
| `UnicodeTable.Generate` | misctools/unicode-generator.ts:30-91 | Succeeds exactly if elements and blocks fit in 16 bits, and then every block is found through `stage1`, and each distinct block is stored once. |
| `UnicodeTable.LookupFindsElement` | misctools/unicode-generator.ts:30-91 | For any element type, `stage3[stage2[stage1[cp >> 8] + (cp & 255)]]` is the element of `cp`, all indexes in range. |
| `UnicodeTable.DistinctIsDistinct` | misctools/unicode-generator.ts:43-48 | The third stage holds elements of code points only, and no two that are equal. |
| `UnicodeTable.EqualBlocksShareTheirPlace` | misctools/unicode-generator.ts:68-83 | Blocks have the same place exactly if they are equal, and different blocks do not overlap. |
| `PackedTable.BitsToWords` | misctools/gen-unicode-table.ts:26-38 | As many 64-bit words as needed; bit `j` of word `w` is bit `64 w + j` of the input, and the rest is zero. |
| `PackedTable.LookupTellsFromZero` | misctools/gen-unicode-table.ts:40-59 | The emitted lookup is in range up to 0x10FFFF and says whether the predicate differs from its value at 0. |
| `PackedTable.BooleansFit` | misctools/unicode-generator.ts:30-91 | For a predicate, only the number of distinct blocks can be too large. |
| `PackedTable.GenerateTable` | misctools/gen-unicode-table.ts:26-59 | The emitted lookup agrees with the predicate on every code point exactly if the predicate is false at 0, and is its negation otherwise. |
| `TestRun.VerdictMeans` | scripts/runner.node.ts:771-822 | Ok, flaky and failed, each exactly characterised by the attempts: a flaky test never had an always-failure before it passed. |
| `TestRun.PhasesPartition` | scripts/runner.node.ts:1241-1258 | Each selected test is in exactly one phase, as often as it was selected, and a batch has at least 8 files. |
| `TestRun.PhaseOfTest` | scripts/runner.node.ts:1241-1258 | Which phase a test is in: the wide one exactly if it is parallel-safe; else the first one exactly if it was modified; else the batch exactly if it is a candidate and there are at least 8 of these; else the other serial one. Each phase keeps the order of the tests. |
| `TestRun.ReadReport` | scripts/runner.node.ts:1132-1140 | Which files failed and which are incomplete, by the JUnit report. |
| `TestRun.ReadBatch` | scripts/runner.node.ts:1132-1166 | Which files are run again. |
| `TestRun.GoodBatchPasses` | scripts/runner.node.ts:1132-1170 | After a batch that succeeded every file passes with it. |
| `TestRun.ReportMeans` | scripts/runner.node.ts:1135-1170 | After one that failed, with a report: exactly the files that have a suite without failures pass with it, and exactly the others are run again, those that failed first. |
| `TestRun.OutputMeans` | scripts/runner.node.ts:1141-1170 | After one that failed, without a report: exactly the files that the output says something about are run again, or all of them if it says nothing. |
| `TestRun.ReadOutput` | scripts/runner.node.ts:1141-1164 | The same by the output of a batch without a report: the loop over its lines with the list it is in. |
| `TestRun.OutputSays` | scripts/runner.node.ts:1141-1164 | Exactly which lines put a file in which set: one that ended it, or one that lists it under a header with nothing but listed files in between. |
| `TestRun.RecordedCount` | scripts/runner.node.ts:1132-1190 | How often a file of a batch is recorded, passing with it or run again: once, and once more if it is in both sets. |
| `TestRun.BatchRecordsEachFileOnce` | scripts/runner.node.ts:1132-1190 | Each file of a batch is recorded once, exactly if none is both failed and incomplete. |
| `TestRun.ReportRecordsEachFileOnce` | scripts/runner.node.ts:1132-1141 | The JUnit report never puts a file in both sets. |
| `TestRun.OutputRecordsTwice` | scripts/runner.node.ts:1141-1164 | The output puts a file in both exactly if it says both. |
| `TestRun.CrashedAndNotStarted` | scripts/runner.node.ts:1141-1164 | An output that does. |
| `WholeRun.EveryRunFilesWhatIsDue` | scripts/runner.node.ts:763-936 | In every interleaving, in which a test may wait for its number after it has its slot: phase after phase, installs first, the tests of the phase are numbered, and each of the three lists ends up with exactly the entries that are due there for these numbers. |
| `WholeRun.PhasesInOrder` | scripts/runner.node.ts:1249-1258 | What is numbered, in order: the installs, the modified tests, the other serial ones, what passes with the batch, what is run again of it, the parallel-safe tests; each phase in the order of its list if it has a width of 1. |
| `WholeRun.InListOrderIff` | scripts/runner.node.ts:768-936 | Numbers follow the list exactly if tests are numbered in the order in which they took their slots. |
| `WholeRun.OneAtATime` | scripts/runner.node.ts:768-1258 | With one test at a time they always do. |
| `WholeRun.NumbersOutOfOrder` | scripts/runner.node.ts:881-936 | With two at a time they need not: the first test waits, and the second one is number 1. |
| `WholeRun.EveryTestIsAccountedFor` | scripts/runner.node.ts:717-1258 | For every run: each number from 1 to `i` has one entry in one list; if the installs succeed, the entries are those of the installs and the selected tests exactly if no file of the batch is both failed and incomplete, and then `i` is their number and, with at most two installs, at most `total`; the run passes exactly if no verdict is a failure; a flaky test had no attempt that is never retried. |
| `WholeRun.EveryPlanCanRun` | scripts/runner.node.ts:860-1258 | Every plan has a complete run. |
| `WholeRun.PassesIff` | scripts/runner.node.ts:1514-1515 | Flaky entries are left out of the results, so `every(ok)` is that no verdict is a failure. |
| `WholeRun.Results.constructor` | scripts/runner.node.ts:717-724 | Empty lists. |
| `WholeRun.Results.BeginTest` | scripts/runner.node.ts:763-768 | The first half of `runTest`, whatever else is running: the test gets the next number. |
| `WholeRun.Results.EndTest` | scripts/runner.node.ts:770-822 | The second half, whatever else is running: one entry, under that number and with the first failure, goes to the list that the verdict names, and to no other. |
| `WholeRun.Results.PassBatch` | scripts/runner.node.ts:1168-1185 | The files of a batch that are not run again get the next numbers and pass. |
| `Completions.WriteTable` | misctools/generate-add-completions.ts:42-61 | The table, or a failure exactly if a name or the list is too long for its length field. |
| `Completions.BuildTable` | misctools/generate-add-completions.ts:130-152 | The reader; None where it would read out of bounds. |
| `Completions.TableRoundTrip` | misctools/generate-add-completions.ts:47-61 | Every table that can be written is read back name by name. |
| `Completions.GroupNames` | misctools/generate-add-completions.ts:22-40 | The length of the group of each letter. |
| `Completions.BuildIndex` | misctools/generate-add-completions.ts:76-84 | The offsets and lengths of the 26 letters. |
| `Completions.IndexIsRightIff` | misctools/generate-add-completions.ts:160-167 | On sorted names, `get_packages` gives every letter exactly its names, in order, if and only if no name starts with a capital and either nothing sorts before `a` or no name starts with a letter. |
| `Completions.DigitComesFirst` | misctools/generate-add-completions.ts:76-84 | A list for which it does not. |
| `ZipTail.ScanForEnd` | scripts/binary-size.ts:321-327 | The last place where an end record could start. |
| `ZipTail.WalkDirectory` | scripts/binary-size.ts:333-342 | The walk over the headers, which ends. |
| `ZipTail.ZipBinarySize` | scripts/binary-size.ts:311-345 | Scan, walk and the errors, on any bytes. |
| `ZipTail.FindsEndIff` | scripts/binary-size.ts:321-327 | The scan stops at the record of the archive exactly if it comes across no other signature before. |
| `ZipTail.ReadsArchives` | scripts/binary-size.ts:311-345 | On every archive written by sections 4.3.12 and 4.3.16 of the PKWARE APPNOTE whose end record, with its comment, is in the last 65536 bytes: the answer is what is read from the last place of the record that looks like one; if that is the record, it is the largest file, or the right error if the directory is not in these bytes or there is no file that is not empty. |
| `ZipTail.NoEndRecordIff` | scripts/binary-size.ts:321-328 | On any file there is no record exactly if no place of the scan has the signature. |
| `ZipTail.CommentMisleads` | scripts/binary-size.ts:321-343 | A comment that makes every archive look empty. |
| `ZipTail.LargestFileIsMax` | scripts/binary-size.ts:338-340 | That size is the maximum over the entries whose name does not end in `/`. |
| `ZipTail.DirectoryNames` | scripts/binary-size.ts:340-340 | Which names end in `/`. |
| `ZipTail.Signatures` | scripts/binary-size.ts:323-334 | The bytes of the two signatures. |
| `BuildArgs.Handle` | scripts/build.ts:514-618 | One turn of the loop. |
| `BuildArgs.ParseFrom` | scripts/build.ts:501-632 | The loop does what the specification does, from any state. |
| `BuildArgs.ParseArgs` | scripts/build.ts:501-632 | The whole parser. |
| `BuildArgs.ExecArgsAreASuffix` | scripts/build.ts:514-618 | Arguments for the binary are the end of argv, word for word, and there are none beside a ninja tool, whose arguments are what follows `-t`. |
| `BuildArgs.MoreArgumentsGoToExec` | scripts/build.ts:514-618 | Once flags have ended, more arguments only make for more arguments to the binary, exactly unless argv ended in a `-d` that becomes an option of ninja. |
| `BuildArgs.TwoWaysToWriteAFlag` | scripts/build.ts:567-618 | `--key=value` and `--key value` are the same exactly if the value is on one line. |
| `BuildArgs.LineBreakInValue` | scripts/build.ts:570-577 | A value for which they are not. |
| `BuildArgs.FlagsCommute` | scripts/build.ts:567-643 | Adjacent flags with different keys can be swapped, exactly unless both are in error and they are not two booleans with the same bad value; and then it is an error either way. |
| `BuildArgs.OrderOfBadBooleans` | scripts/build.ts:613-643 | Two flags in error, swapped: the same complaint exactly if the values are the same. |
| `BuildLine.EveryFieldIsAsWritten` | scripts/build.ts:501-632 | On every command line written from switches, ninja options and flags in any order and number, then nothing, `--` or `-t`: every field is what was written for it; switches are on exactly if given, lists hold everything given, in order, single values and overrides the last value given, and the end of the line goes to the binary or to the ninja tool. |
| `BuildLine.FirstBadFlagIsReported` | scripts/build.ts:578-643 | The first flag that is unknown or has a bad value is the one complained about, whatever comes after it: by its name if it is unknown, by name and value if it is a number, and by its value alone if it is a boolean. |
| `BuildValues.BooleanFlag` | scripts/build.ts:613-644 | A boolean is set to true by on, true, yes and 1, to false by off, false, no and 0, in any case of letters, and by nothing else. |
| `BuildValues.NumberFlag` | scripts/build.ts:613-637 | A number is set by the decimal digits of every number, also with zeros in front, and by nothing that has another character or none. |
| `BuildValues.TextFlag` | scripts/build.ts:613-617 | A text is set to the text. |
| `BuildValues.CamelIs` | scripts/build.ts:579-579 | Words joined by dashes become one word, with capitals where they were joined. |
| `BuildValues.KeyIs` | scripts/build.ts:570-570 | Which texts are keys. |
| `BuildValues.OneLineIs` | scripts/build.ts:570-570 | Which values are on one line. |
| `BuildValues.MatchFlagIff` | scripts/build.ts:570-583 | Exactly which arguments are flags, with which key and value. |
| `BuildValues.SpacedFlag` | scripts/build.ts:578-596 | A key that is known takes the next argument for its value, and is in error without one; any other key ends the flags. |
| `BuildValues.NinjaIs` | scripts/build.ts:534-537 | Which options are ninja's, by their first letter. |
| `BuildValues.NinjaDebugIs` | scripts/build.ts:482-533 | Which debug modes are ninja's after `-d`. |
| `BuildValues.OtherDashIs` | scripts/build.ts:534-577 | Any other option with one dash ends the flags, but for `-h`. |
| `BuildValues.HelpIs` | scripts/build.ts:562-565 | `--help` shows the help. |
| `LogSpans.ParseLog` | scripts/ci-slowest-tests.ts:27-79 | The loop does what the specification does. |
| `LogSpans.ChargesAreTheSpans` | scripts/ci-slowest-tests.ts:33-77 | What is charged is exactly the span of each announced test, from its header to the next header, batch line or phase or else to the end of the log, and the time of each batch line. |
| `LogSpans.ChargesAreDisjoint` | scripts/ci-slowest-tests.ts:33-77 | If time goes forward: each file gets the sum of its own spans and batch times, spans are disjoint and charged in full or, in a concurrent phase, up to 500 ms, and together they are no longer than the log from the first of them on. |
| `LogSpans.PrefixChargesLess` | scripts/ci-slowest-tests.ts:73-77 | A log that breaks off charges every file at most what the whole log does. |
| `Vlq.EncodeVLQ` | bench/sourcemap/append-vlq-bench.ts:17-28 | The do-while loop writes the digits of the shifted value, with 32-bit operators. |
| `Vlq.OneRoundTrip` | bench/sourcemap/append-vlq-bench.ts:17-28 | A value is decoded back exactly if it is a 32-bit integer; −2^31 is written as the negative zero that ECMA-426 reads as −2^31. |
| `Vlq.RoundTrip` | bench/sourcemap/append-vlq-bench.ts:17-28 | A list of values, written one after the other, is decoded back exactly if all of them are 32-bit integers. |
| `Vlq.AtMostSevenDigits` | bench/sourcemap/append-vlq-bench.ts:17-28 | One to seven digits each. |
| `XmlText.EscapeIsPerCharacter` | scripts/runner.node.ts:3350-3357 | The five global replacements, one after the other, are one replacement character by character. |
| `XmlText.EscapeRoundTrip` | scripts/buildkite.ts:587-595 | Unescaping an escaped text gives it back, for every text, also one that holds entities already. |
| `XmlText.DecodesReference` | scripts/buildkite.ts:589-589 | A numeric reference is decoded. |

## Left out

- Regular expressions: the fixed patterns of the filter are recognisers over characters, which the greedy match determines; patterns that classify lines of a log or of a batch, test names and errors are given from outside.
- Strings are sequences of characters, not of UTF-16 code units.
- Test durations are natural numbers (milliseconds) under any cost function; loading them, the median and the choice of a column are not modelled.
- ZipTail.ReadsArchives: when the scan stops at another signature, the answer is what is read there, which may be right by accident. Zip64 archives can be read but nothing is said about them. The two requests see the same file.
- WholeRun.EveryTestIsAccountedFor: no file of the batch is listed twice among the tests, there is no `--bail`, nothing throws, and there are no vendor tests. `total` counts two more than the tests, for the installs.
- WholeRun: tests of a phase take their slots in the order of the list, which `Limiter.PhasesRunEverything` shows of the limiter. What a test waits for before it is numbered is not modelled, only that it may.
- ModuleInit: bodies that are synchronous; modules with top-level await are not modelled.
- Disposal: a `Promise.resolve` that throws while it looks up `constructor` or `then` is not modelled; a value is seen through the two methods and what they do when called.
- ReExport: objects are maps from keys to data or getters; frozen objects and proxies are not modelled.
- UnicodeTable: the hash of a block is taken to be injective.
- Completions: zstd is taken to be the identity, names are ASCII and not empty (trimmed and filtered by the generator).
- Vlq: digits are indexes into the Base64 alphabet.
- XmlText.DecodesReference: what a numeric reference decodes to is any function.
- BuildArgs: the precision of `Number` for huge integers.
- Process spawning, signals, timers, the Buildkite and GitHub clients, cloud scripts and benchmarks.
- The decorator helpers, `__toESM`, `__toCommonJS` and the class-private helpers of src/runtime.js, which need a model of JavaScript objects for modest properties.
- The native runtime.
