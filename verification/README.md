# Verified cores of the Code Editor tree

A Dafny model of the parts of this VS Code fork in which a small amount of code carries a large promise. Each module
follows one component, in the component's own form: objects whose fields are updated in place are classes, loops are
loops with invariants, and every such method is proved against a function or relation whose own properties are lemmas.

| files | component |
|---|---|
| `Common.dfy`, `Slashes.dfy` | notions that several components share |
| `Graphs.dfy` | paths, reachability and acyclicity, used by the loader and the bundler |
| `LoaderState.dfy`, `LoaderSteps.dfy`, `LoaderTheorems.dfy` | the AMD module manager in `loader.js` |
| `ModuleIds.dfy` | module id normalisation in `loader.js` |
| `Streams.dfy` | the duplex stream multiplexer in `rpc.rs` |
| `Vlq.dfy`, `SourceMaps.dfy`, `SourceMapBuilder.dfy`, `Bundler.dfy` | source-map concatenation and bundling in `playground-server.ts` |
| `CssPaths.dfy` | the path algebra behind CSS URL rewriting in `css.build.ts` |
| `LruLists.dfy`, `CacheTasks.dfy`, `DownloadCache.dfy` | the LRU download cache and its persisted list in `download_cache.rs` and `state.rs` |
| `Framing.dfy` | streaming message decoding in `msgpack_rpc.rs` |
| `Keyring.dfy` | splitting a credential over keyring entries in `auth.rs` |

**Module manager.** `ModuleManager` has the source's fields (module table, inverse lists, known ids, cycle flag) and
ghost logs (declarations, requests and their answers, completions, factory calls, cut edges, errors raised, errorbacks
called, errors reported). The invariant is indexed by what is in progress: `owed` counts decrements that a running completion still has
to hand out, `frames` says how far each running `_resolve` has come. Between events both are empty. The script loader is
the environment: a define call carries a finite tree of answers for the scripts it requests (the define calls their
scripts make before the loader returns, over all paths it tries, and whether it then reports a failure), so synchronous
loaders are nested calls and a loader that answers later makes no calls. Special dependencies
(`require`, `exports`, `module`) are settled at once, as in the source, yet are followed by the cycle search, which
compares raw ids.

**Streams.** One stream is a state machine whose steps are the critical sections, the pipe writes (of any number of
bytes), the pipe failures and the shutdowns. A run is any interleaving of steps of any tasks. The map of streams is then
a class whose methods are proved to take those steps.

**Source maps.** The reference is an independent decoder of Version 3 mappings in unbounded arithmetic ("Proposed
Format" of the Source Map Revision 3 Proposal) that knows nothing of the builder. The builder's byte loop, its wrapping
32-bit arithmetic and its growing buffer are proved to produce text that this decoder reads as the sources' own meaning,
line after line, with source names.

**Download cache.** Only the update of the list is locked; the calls are asynchronous, and one process runs several at
once (patched-vscode/cli/src/commands/serve_web.rs:639-642). The cache is therefore a state machine whose steps are the
file system operations and the locked updates, and a run is any interleaving of the steps of any calls. The class with the
persisted list is proved to take these steps when its calls run to their end one after the other. The locked update of a
touch is one step although it also looks at a folder: nothing else reads the list in between, so the steps of others can be
moved in front of or behind it.

**Where the code does not meet the simple promise.** Each case has a concrete instance and an exact condition:

- `_resolve` gives up on a failed dependency without telling the modules that wait on the one giving up, so those stay
  unfinished for ever (`StrandedByFailedDependency`). A define call does this exactly when the id is new, one of its
  dependencies has already failed, and an unfinished module waits on it (`StrandedExactly`); a load failure never does
  (`FailureStrandsNobody`).
- A cache folder can end up finished but unlisted, so that nothing ever evicts it: six creates at once (`SixAtOnce`), or a
  create overtaking a delete of the same name (`OvertakenDelete`). A step does this exactly under one of two guards
  (`OrphanedExactly`), and what the other tasks may touch and drop between a create's list update and its rename is
  `FinishedIsListedExactly`: while they only touch their own names, five is one too many (`FinishedUnlessFive`).
- VLQ numbers come back if and only if their absolute value is below 2^30 (`Vlq.RoundTrip`, `OverflowsAtTwoToThirty`).
- A builder keeps one semicolon per newline if and only if no added line contains a newline (`Bundler.Build`, `TwoLinesInOne`).
- A relative path leads back to every normal target without empty segments if and only if the folder of the file it starts
  from has no `./`, `../` or empty pieces (`RoundTripExactly`, `LocalFileIsMissed`); which other targets it leads back to
  is `RelativePathRoundTrip`.
- A value whose length is a multiple of the chunk size gets no terminating entry, so reading it finds a missing entry or
  appends what an earlier, longer value left behind (`Keyring.RoundTrip`, `StaleChunksLeakIn`, `OneChunkIsLost`).

## Model

| member | source | states |
|---|---|---|
| `Loader.ModuleManager.constructor` | patched-vscode/src/vs/loader.js:1232-1250 | a new manager is empty and satisfies the invariant |
| `Loader.ModuleManager.HasDependencyPath` | patched-vscode/src/vs/loader.js:1505-1541 | true exactly when a non-empty path of recorded dependency edges leads from one id to the other; the search ends on every graph, cyclic or not |
| `Loader.ModuleManager.PropagateError` | patched-vscode/src/vs/loader.js:1469-1494 | the breadth-first walk marks exactly the modules that wait, directly or not, on the failed one, calls each errorback among them once, and reports whether there was one |
| `Loader.ModuleManager.AddPlaceholder` | patched-vscode/src/vs/loader.js:1466-1468 | a failed script that never defined its module gets an empty record and nothing else changes |
| `Loader.ModuleManager.OnLoadError` | patched-vscode/src/vs/loader.js:1464-1498 | exactly the affected modules take the error, nothing else changes, the global handler runs exactly when no affected module has an errorback; the invariant is kept even inside a running call |
| `LoaderSteps.FailureSparesCompleted` | patched-vscode/src/vs/loader.js:1464-1498 | a module that completed normally and is not the failed one keeps its record |
| `LoaderSteps.FailureMarksAffected` | patched-vscode/src/vs/loader.js:1172-1180 | marking the reached set is marking the affected set, and the notified modules are the affected ones with an errorback |
| `LoaderSteps.FailureKeeps` | patched-vscode/src/vs/loader.js:1464-1498 | a failure keeps the counting invariant, the acyclic waits, the request log and the blame relation |
| `Loader.ModuleManager.Complete` | patched-vscode/src/vs/loader.js:1139-1168 | completing logs the module once, stores and reports the exception of its factory, hands out the inverse list, and shrinks the set of incomplete modules |
| `Loader.ModuleManager.RunFactory` | patched-vscode/src/vs/loader.js:1141-1163 | a factory runs if there is one; its exception, and nothing else, is raised and reported |
| `Loader.ModuleManager.Finish` | patched-vscode/src/vs/loader.js:1761-1764 | the record is complete and keeps neither dependencies nor callbacks, and the inverse list is taken out of the table |
| `Loader.ModuleManager.Release` | patched-vscode/src/vs/loader.js:1769-1775 | one decrement per occurrence in the list; a waiter whose counter reaches zero completes |
| `Loader.ModuleManager.OnModuleComplete` | patched-vscode/src/vs/loader.js:1722-1776 | the recursion keeps the invariant for every pending decrement and terminates because incomplete modules shrink |
| `LoaderSteps.StartCompletion` | patched-vscode/src/vs/loader.js:1761-1764 | completing a module whose counter is zero turns its inverse list into owed decrements and keeps everything else |
| `LoaderSteps.DeliverOne` | patched-vscode/src/vs/loader.js:1769-1774 | paying one owed decrement keeps the counters equal to the occurrences, and a counter at zero means the module can complete |
| `Loader.ModuleManager.LoadModule` | patched-vscode/src/vs/loader.js:1591-1633 | an id that is neither defined nor known is requested exactly once, on behalf of the dependency at hand; the define calls of the answer are made, in order and before the failure it may report; a failure marks the affected modules and tells their errorbacks, or else the global handler |
| `Loader.ModuleManager.RunScripts` | patched-vscode/src/vs/loader.js:1443-1450 | each call of an answer leaves its id in the table, under its own declaration if it is the first to supply that id; everything nested in it is carried out too |
| `LoaderSteps.CarriesTrans` | patched-vscode/src/vs/loader.js:1591-1633 | everything new in the table comes from the definitions at hand, every request is one of theirs, and every answer stays carried out, over consecutive calls |
| `Loader.ModuleManager.ResolveDependency` | patched-vscode/src/vs/loader.js:1661-1716 | each dependency is settled, cut, or waited for and, if new, requested; the module gives up exactly if the dependency has failed, with its error; with a loader that answers later only its own record and the lists it joins change |
| `Loader.ModuleManager.CountDown` | patched-vscode/src/vs/loader.js:1663-1684 | a settled dependency takes one from the counter and keeps the invariant |
| `Loader.ModuleManager.GiveUp` | patched-vscode/src/vs/loader.js:1678-1681 | the module takes the dependency's error and its own errorback is called once; no other record changes and nobody who waits on it is told |
| `Loader.ModuleManager.CutCycle` | patched-vscode/src/vs/loader.js:1685-1695 | an edge that leads back is given up, the cycle is flagged and the invariant kept |
| `Loader.ModuleManager.WaitFor` | patched-vscode/src/vs/loader.js:1696-1698 | recording an inverse edge when no path leads back keeps the waits acyclic and the counter equal to the occurrences |
| `Loader.ModuleManager.Resolve` | patched-vscode/src/vs/loader.js:1658-1721 | walking a fresh module's dependencies keeps the invariant; with a loader that answers later the module fails if and only if one of them had failed, and then no wait is lost |
| `Loader.ModuleManager.DefineModule` | patched-vscode/src/vs/loader.js:1352-1370 | a second definition changes nothing; a first one declares the module, keeps the invariant, takes nothing back and carries out every answer it gets at any depth; with a loader that answers later it fails exactly if a dependency had failed |
| `LoaderSteps.WalkWaits` | patched-vscode/src/vs/loader.js:1685-1698 | the step that records an inverse edge keeps the invariant up to the request still to be made |
| `LoaderSteps.WalkCuts` | patched-vscode/src/vs/loader.js:1685-1695 | cutting an edge that lies on a dependency cycle keeps the invariant |
| `LoaderSteps.WalkAbandons` | patched-vscode/src/vs/loader.js:1677-1681 | giving up on a failed dependency keeps the invariant and names a failed dependency as the reason |
| `LoaderSteps.WalkEnds` | patched-vscode/src/vs/loader.js:1718-1720 | at the end of the walk a counter at zero means that the module can complete, any other that it is waiting |
| `LoaderState.OccurrencesUpdate` | patched-vscode/src/vs/loader.js:1696-1698 | replacing one inverse list changes the number of occurrences by exactly the difference of the two lists |
| `LoaderState.WaitAcyclic` | patched-vscode/src/vs/loader.js:1685-1698 | an edge recorded when no dependency path leads back closes no cycle of waits |
| `LoaderState.CompletableIsFree` | patched-vscode/src/vs/loader.js:1718-1720 | a module at zero is in no inverse list and each of its dependencies completed or was cut |
| `LoaderState.CompleteKeeps` | patched-vscode/src/vs/loader.js:1761-1764 | logging the module, dropping its dependency list and clearing its inverse list keep the whole invariant, with the waiters owed |
| `LoaderState.MarkKeeps` | patched-vscode/src/vs/loader.js:1478-1494 | marking any set of modules as failed keeps the invariant |
| `LoaderTheorems.CounterIsOccurrences` | patched-vscode/src/vs/loader.js:1658-1776 | between events the counter of an unfinished module is its number of occurrences over all inverse lists, duplicates included, and is positive |
| `LoaderTheorems.WaitsAreAcyclic` | patched-vscode/src/vs/loader.js:1685-1698 | between events the waits-for graph is acyclic |
| `LoaderTheorems.AwaitedIsRequestedOnce` | patched-vscode/src/vs/loader.js:1591-1596 | an awaited id without a record has been requested, and no id is requested twice |
| `LoaderTheorems.AwaitedIsNotCompleted` | patched-vscode/src/vs/loader.js:1762-1764 | no module waits on one that completed |
| `LoaderTheorems.UnfinishedIsBehindError` | patched-vscode/src/vs/loader.js:1658-1721 | once everything awaited is defined, an unfinished module waits, through others, on a failed one: cycles never deadlock |
| `LoaderTheorems.CompletedExactly` | patched-vscode/src/vs/loader.js:1658-1776 | once everything awaited is defined, a module completed if and only if it neither failed nor waits behind a failure |
| `LoaderTheorems.EveryoneEnds` | patched-vscode/src/vs/loader.js:1658-1776 | as long as nobody is stranded, every module completes or fails once everything awaited is defined |
| `LoaderTheorems.StrandedExactly` | patched-vscode/src/vs/loader.js:1677-1681 | a define call strands someone if and only if its id is new, a dependency had already failed and an unfinished module waits on it: all checkable before the call |
| `LoaderTheorems.DefineAwaiting` | patched-vscode/src/vs/loader.js:1352-1370 | the same of the call itself, with a loader that answers later |
| `LoaderTheorems.FailureStrandsNobody` | patched-vscode/src/vs/loader.js:1464-1498 | whoever is unfinished behind an error after a load failure was so before |
| `LoaderTheorems.ErrorFreeRunsFinish` | patched-vscode/src/vs/loader.js:1658-1776 | if no error was ever raised and everything awaited is defined, every defined module completed |
| `LoaderTheorems.CompletionOrder` | patched-vscode/src/vs/loader.js:1658-1776 | the cycle flag is set only if the declarations are cyclic; without it the completion log is a topological order |
| `LoaderTheorems.FactoriesRunOnce` | patched-vscode/src/vs/loader.js:1139-1168 | a factory runs at most once, for a completed module, after each dependency that was not cut on a cycle |
| `LoaderTheorems.Guarantees` | patched-vscode/src/vs/loader.js:1658-1776 | the invariant between events implies all of the above at once |
| `LoaderTheorems.Run` | patched-vscode/src/vs/loader.js:1352-1498 | after every sequence of define calls and load failures, whatever the loader answers: acyclic waits, exact counters, topological log unless a declared cycle was met, no factory or request twice; once everything awaited is defined, exactly the modules not behind a failure complete; every answer was carried out and nothing else is in the table |
| `LoaderTheorems.SynchronousLoader` | patched-vscode/src/vs/loader.js:1591-1633 | a loader that always answers at once, with a failure or the module asked for, leaves nothing awaited undefined |
| `LoaderTheorems.SpecialsLeadNowhere` | patched-vscode/src/vs/loader.js:1505-1541 | with ids 0, 1 and 2 reserved, the cycle search finds exactly the paths over modules |
| `LoaderTheorems.StrandedByFailedDependency` | patched-vscode/src/vs/loader.js:1677-1681 | a run in which everything awaited is defined and a module is still unfinished, because the one it waits on gave up silently |
| `Graphs.AcyclicAdd` | patched-vscode/src/vs/loader.js:1685-1698 | adding an edge to an acyclic relation keeps it acyclic if its end does not reach its start |
| `Graphs.NoSinkHasCycle` | patched-vscode/src/vs/loader.js:1658-1721 | a finite non-empty set in which every element has a successor contains a cycle |
| `ModuleIds.NormalizeModuleId` | patched-vscode/src/vs/loader.js:1061-1078 | the rewriting loops end and compute the one-pass stack normaliser's result on every id, empty segments included |
| `ModuleIds.NormalizedSegments` | patched-vscode/src/vs/loader.js:1061-1078 | in front of its last segment a normalised id has no `.`, and `..` only at the start, behind another `..` or behind an empty segment |
| `ModuleIds.ParentsLead` | patched-vscode/src/vs/loader.js:1061-1078 | without empty segments, `..` is left only as a leading run |
| `ModuleIds.NormalizeIsIdempotent` | patched-vscode/src/vs/loader.js:1061-1078 | normalising twice changes nothing |
| `ModuleIds.NormalizeTwice` | patched-vscode/src/vs/loader.js:1061-1078 | the result of the rewriting loops is normal and is a fixed point of them |
| `ModuleIds.LeadingDotLaw` | patched-vscode/src/vs/loader.js:1068-1069 | a leading `./` says nothing |
| `ModuleIds.DotLaw` | patched-vscode/src/vs/loader.js:1063-1067 | nor does `/./` |
| `ModuleIds.ParentLaw` | patched-vscode/src/vs/loader.js:1070-1074 | `/../` takes back the segment in front of it |
| `ModuleIds.LeadingParentLaw` | patched-vscode/src/vs/loader.js:1075-1076 | also at the start |
| `ModuleIds.NormalLaw` | patched-vscode/src/vs/loader.js:1061-1078 | an id stays if and only if nothing of the kind is left in it |
| `ModuleIds.FindDot` | patched-vscode/src/vs/loader.js:1063-1067 | finds the leftmost `/./`, or there is none |
| `ModuleIds.FindCancelled` | patched-vscode/src/vs/loader.js:1070-1074 | finds the leftmost slash followed by a segment other than `..` and `/../`, or there is none |
| `ModuleIds.RemoveDot` | patched-vscode/src/vs/loader.js:1063-1067 | each rewriting shortens the id and keeps its normal form |
| `ModuleIds.RemoveCancelled` | patched-vscode/src/vs/loader.js:1070-1074 | cancelling a segment with the `..` behind it shortens the id and keeps its normal form |
| `ModuleIds.DropLeadingDot` | patched-vscode/src/vs/loader.js:1068-1069 | after the first loop and this rewriting no `.` segment is left in front of the last, and the normal form is kept |
| `ModuleIds.DropCancelledHead` | patched-vscode/src/vs/loader.js:1075-1077 | a single head rewriting after the loop suffices to reach the normal form |
| `ModuleIds.ResolveModule` | patched-vscode/src/vs/loader.js:1048-1090 | ids that start with `./` or `../` are normalised against the folder of the requiring module; all others come back unchanged |
| `Streams.StepKeeps` | patched-vscode/cli/src/rpc.rs:531-631 | every atomic step of every task keeps: one owner of the write half, byte order, a stored half means an empty queue and a stream not ended |
| `Streams.RunKeeps` | patched-vscode/cli/src/rpc.rs:543-631 | so does every interleaving |
| `Streams.AcceptedInOrder` | patched-vscode/cli/src/rpc.rs:564-573 | the accepted bytes are the concatenation of the buffers written while the record existed, in order |
| `Streams.FailedExactly` | patched-vscode/cli/src/rpc.rs:623-627 | a pipe has failed if and only if a write of the run failed |
| `Streams.AllAccepted` | patched-vscode/cli/src/rpc.rs:564-573 | until a stream is ended, everything written is accepted |
| `Streams.EveryInterleaving` | patched-vscode/cli/src/rpc.rs:543-631 | over every run delivered, in-flight and queued bytes are the accepted ones in order, delivered bytes are a prefix even after a pipe failure, the half has one owner, a filled queue has a loop, and a shutdown happens at most once and, absent pipe failure, after everything accepted was delivered |
| `Streams.Quiescent` | patched-vscode/cli/src/rpc.rs:587-631 | when no task is left everything accepted was delivered unless the pipe failed, and a stream that was ended has been shut down exactly once |
| `Streams.EndedStaysEnded` | patched-vscode/cli/src/rpc.rs:543-557 | once ended, in whatever interleaving, a stream stays ended |
| `Streams.ProgressWorks` | patched-vscode/cli/src/rpc.rs:596-631 | every step of a running task, pipe failures included, leaves less to do |
| `Streams.CanProgress` | patched-vscode/cli/src/rpc.rs:596-631 | whenever a task is running one of its steps can happen, and needs no failure while the pipe works |
| `Streams.EverySchedule` | patched-vscode/cli/src/rpc.rs:596-631 | without new calls every schedule of such steps is bounded by the work at hand, and one that cannot go on has left no task |
| `Streams.EventuallyQuiescent` | patched-vscode/cli/src/rpc.rs:543-631 | after any interleaving, letting the tasks go on ends; if no write failed the pipe has then received, in order, every buffer written while the record existed, which is every buffer if the stream was never ended; an ended stream is shut down exactly once |
| `Streams.Multiplexer.Insert` | patched-vscode/cli/src/rpc.rs:575-584 | a new stream is the one from which every run starts, other streams unchanged |
| `Streams.Multiplexer.Write` | patched-vscode/cli/src/rpc.rs:564-573 | takes exactly the write step of that stream, nothing for an unknown one |
| `Streams.Multiplexer.Remove` | patched-vscode/cli/src/rpc.rs:543-562 | takes exactly the remove step of that stream, nothing for an unknown one |
| `Streams.Multiplexer.WriteLoop` | patched-vscode/cli/src/rpc.rs:596-631 | undisturbed, the loop ends having delivered everything accepted, with the half back in the record or, if ended, shut down |
| `Vlq.DecodeDigits` | patched-vscode/scripts/playground-server.ts:642-658 | the reader's wrapping arithmetic, continued from any partial number, reads back the written digits |
| `Vlq.DecodedIsSmall` | patched-vscode/scripts/playground-server.ts:642-658 | whatever was encoded, what is decoded lies strictly between -2^30 and 2^30 |
| `Vlq.RoundTrip` | patched-vscode/scripts/playground-server.ts:721-740 | a number comes back, and exactly its bytes are consumed, if and only if its absolute value is below 2^30 |
| `Vlq.OverflowsAtTwoToThirty` | patched-vscode/scripts/playground-server.ts:721-740 | 2^30 does not come back, 2^30 - 1 does |
| `Vlq.Alphabet` | patched-vscode/scripts/playground-server.ts:688-696 | the two tables are those of the written-out alphabet, and no other byte has a value |
| `Vlq.KnownEncodings` | patched-vscode/scripts/playground-server.ts:721-740 | the encodings of some small numbers, written out |
| `Vlq.DynamicBuffer.EnsureCapacity` | patched-vscode/scripts/playground-server.ts:707-714 | growing keeps what was written and reaches the capacity |
| `Vlq.DynamicBuffer.AddByte` | patched-vscode/scripts/playground-server.ts:716-719 | appends one byte, across any growth |
| `Vlq.DynamicBuffer.AddVLQ` | patched-vscode/scripts/playground-server.ts:721-740 | appends exactly the encoding of the number, for every number |
| `Vlq.DynamicBuffer.AddBuffer` | patched-vscode/scripts/playground-server.ts:749-753 | appends all bytes, across any growth |
| `SourceMaps.RunEncode` | patched-vscode/scripts/playground-server.ts:721-740 | the reference decoder reads an encoded number below 2^30 as one field |
| `SourceMaps.RunSegment` | patched-vscode/scripts/playground-server.ts:613-629 | the bytes written for a segment decode to that segment |
| `SourceMaps.CommitTracks` | patched-vscode/scripts/playground-server.ts:613-629 | a commit makes the output say of this source what the input said so far |
| `SourceMaps.SeparatorTracks` | patched-vscode/scripts/playground-server.ts:632-640 | so does each separator with the commit before it |
| `SourceMaps.DigitArithmetic` | patched-vscode/scripts/playground-server.ts:642-658 | on good text the 32-bit shifts and adds equal unbounded arithmetic |
| `SourceMaps.FinishTracks` | patched-vscode/scripts/playground-server.ts:662-666 | after the last commit and the padding the output has gained exactly the source's lines and stands at column zero |
| `SourceMaps.RemapKeepsNames` | patched-vscode/scripts/playground-server.ts:592-600 | renumbering the sources keeps the name of every mapped source |
| `SourceMaps.LinesAreSemicolons` | patched-vscode/scripts/playground-server.ts:632-637 | the finished lines of a mappings text are its semicolons |
| `SourceMaps.KnownMeaning` | patched-vscode/scripts/playground-server.ts:588-667 | what `AAAA;IACE` means, written out |
| `SourceMapBuilders.CountNewlines` | patched-vscode/scripts/playground-server.ts:760-766 | counts the newlines |
| `SourceMapBuilders.NewSource` | patched-vscode/scripts/playground-server.ts:552-569 | non-empty content ends in a newline, and the line count is the number of newlines |
| `SourceMapBuilders.ReadableStops` | patched-vscode/scripts/playground-server.ts:641-643 | what is read of a text ends exactly at its first invalid byte |
| `SourceMapBuilders.SourceMapBuilder.AddLine` | patched-vscode/scripts/playground-server.ts:582-586 | appends one line that means nothing; one more semicolon, and one more newline than the text has |
| `SourceMapBuilders.SourceMapBuilder.AddNames` | patched-vscode/scripts/playground-server.ts:592-600 | every name is found where the table says; no name is registered twice; earlier names keep their places |
| `SourceMapBuilders.SourceMapBuilder.Commit` | patched-vscode/scripts/playground-server.ts:613-629 | appends exactly the pending segment as deltas and moves the last positions to it |
| `SourceMapBuilders.SourceMapBuilder.CommitMapped` | patched-vscode/scripts/playground-server.ts:621-627 | the four deltas of a segment with a source |
| `SourceMapBuilders.SourceMapBuilder.Separator` | patched-vscode/scripts/playground-server.ts:632-640 | one separator keeps every loop variable in agreement with the two decoders |
| `SourceMapBuilders.SourceMapBuilder.CopyMappings` | patched-vscode/scripts/playground-server.ts:630-661 | the byte loop fails exactly on an invalid byte and otherwise ends with the output tracking the whole input |
| `SourceMapBuilders.SourceMapBuilder.Finish` | patched-vscode/scripts/playground-server.ts:662-666 | the decoded output is what was there plus the source's lines, renumbered |
| `SourceMapBuilders.SourceMapBuilder.AddSource` | patched-vscode/scripts/playground-server.ts:588-667 | the meaning of the mappings grows by exactly the source's own meaning, the output by its content; fails exactly on an invalid byte |
| `SourceMapBuilders.FinishMeaning` | patched-vscode/scripts/playground-server.ts:588-667 | appended, renumbered lines mean, with names, the old meaning followed by the source's |
| `Bundler.Walk.Visit` | patched-vscode/scripts/playground-server.ts:377-386 | the walk emits what is reachable and not yet visited, each once, dependencies first unless they lead back |
| `Bundler.BundleOrder` | patched-vscode/scripts/playground-server.ts:373-388 | every module reachable from the entry exactly once on any finite graph, the entry last; each dependency before its dependents or leading back to them, so before them on acyclic graphs |
| `Bundler.Build` | patched-vscode/scripts/playground-server.ts:582-667 | after any sequence of addLine and addSource calls the mappings mean the concatenated meanings with an empty line per added one, and have one semicolon per newline of the output if and only if every added text is a single line |
| `Bundler.Apply` | patched-vscode/scripts/playground-server.ts:582-667 | one call adds exactly its meaning and its content, and at most its names |
| `Bundler.MeaningAt` | patched-vscode/scripts/playground-server.ts:588-667 | line i of call k sits behind all lines of the calls before it and means what it meant alone |
| `Bundler.ContentLines` | patched-vscode/scripts/playground-server.ts:552-569 | the newlines of the output are the lines of all calls and the newlines inside added texts |
| `Bundler.NoBreaks` | patched-vscode/scripts/playground-server.ts:582-586 | there are none of the latter if and only if every added text is a single line |
| `Bundler.TwoLinesInOne` | patched-vscode/scripts/playground-server.ts:582-586 | an added text of two lines gets one semicolon for two newlines |
| `Bundler.BundleWithDependencies` | patched-vscode/scripts/playground-server.ts:373-397 | the bundle is the contents of everything reachable, each once and in that order, and a last line for the map; the map says of each line what the source's map said |
| `Slashes.PathOf` | patched-vscode/src/vs/css.build.ts:175-182 | the folder is a prefix that is empty or ends in a slash, and no slash follows it |
| `CssPaths.Push` | patched-vscode/src/vs/css.build.ts:203-231 | the cutting loop pushes the pieces of the path in order |
| `CssPaths.ComputeJoinPaths` | patched-vscode/src/vs/css.build.ts:189-241 | computes the join over pieces, protocol prefixes included |
| `CssPaths.HereLaw` | patched-vscode/src/vs/css.build.ts:203-207 | a `./` anywhere in the joined path says nothing |
| `CssPaths.UpLaw` | patched-vscode/src/vs/css.build.ts:208-218 | a `../` takes back the segment in front of it |
| `CssPaths.RootLaw` | patched-vscode/src/vs/css.build.ts:208-213 | but goes no higher than a root |
| `CssPaths.RootedLaw` | patched-vscode/src/vs/css.build.ts:235-237 | what a rooted path is joined to does not matter |
| `CssPaths.ShiftLaw` | patched-vscode/src/vs/css.build.ts:233-238 | a folder can be moved from one side of the join to the other |
| `CssPaths.PlainLaw` | patched-vscode/src/vs/css.build.ts:220-221 | plain paths are put together |
| `CssPaths.NormalLaw` | patched-vscode/src/vs/css.build.ts:189-241 | a path stays if and only if it is normal |
| `CssPaths.ProtocolLaw` | patched-vscode/src/vs/css.build.ts:191-201 | behind a protocol and a host, joining works on the path |
| `CssPaths.JoinedHere` | patched-vscode/src/vs/css.build.ts:203-207 | `a/b/` and `./c` give `a/b/c` |
| `CssPaths.JoinedUp` | patched-vscode/src/vs/css.build.ts:208-218 | `a/b/` and `../c` give `a/c` |
| `CssPaths.JoinedUrl` | patched-vscode/src/vs/css.build.ts:198-201 | `http://h/a/` and `/b` give `http://h/b` |
| `CssPaths.CommonPrefix` | patched-vscode/src/vs/css.build.ts:243-251 | the longest common prefix |
| `CssPaths.ComputeRelativePath` | patched-vscode/src/vs/css.build.ts:262-278 | computes one `../` per folder below the shared one, then the rest of the target |
| `CssPaths.RelativeShared` | patched-vscode/src/vs/css.build.ts:253-270 | a relative path does not mention the folders that both sides share |
| `CssPaths.RelativePathRoundTrip` | patched-vscode/src/vs/css.build.ts:189-278 | joining a file's folder with the relative path to a normal target gives the target if and only if it is rooted, or is a URL and the file has no folder, or does not go on with a slash right behind that folder |
| `CssPaths.NoEmptyLeadsBack` | patched-vscode/src/vs/css.build.ts:262-278 | targets without empty segments always lead back |
| `CssPaths.RoundTripExactly` | patched-vscode/src/vs/css.build.ts:189-278 | for every file: all normal targets without empty segments come back if and only if its folder has no `./`, `../` or empty pieces |
| `CssPaths.LocalFileIsMissed` | patched-vscode/src/vs/css.build.ts:262-278 | from any folder with such pieces, a protocol included, the target `z` is missed |
| `CssPaths.JoinPathsIsNormal` | patched-vscode/src/vs/css.build.ts:189-241 | joining anything to a folder without a protocol yields a leading run of `../` and then neither `./` nor `../` |
| `CssPaths.RewrittenUrlKeepsTarget` | patched-vscode/src/vs/css.build.ts:159-164 | any rewritten URL, read from the new file, points where the original pointed if and only if that target leads back |
| `CssPaths.RewrittenPlainUrl` | patched-vscode/src/vs/css.build.ts:159-164 | which it does if neither the original file nor the URL has empty segments |
| `CssPaths.RewrittenRootedUrlKeepsTarget` | patched-vscode/src/vs/css.build.ts:159-164 | and, from any folder without a protocol, if the URL starts with a slash |
| `DownloadCaches.PersistedState.LoadOrGet` | patched-vscode/cli/src/state.rs:46-59 | the cached value wins over the file, the file over the default |
| `DownloadCaches.PersistedState.Save` | patched-vscode/cli/src/state.rs:61-70 | the value in memory is the new one even when writing fails |
| `LruLists.TouchedRecent` | patched-vscode/cli/src/download_cache.rs:113-133 | touching keeps the list ordered by last touch |
| `LruLists.TouchedLoses` | patched-vscode/cli/src/download_cache.rs:120-129 | exactly the last name is lost, and only by an eviction |
| `LruLists.TouchKeepsBehind` | patched-vscode/cli/src/download_cache.rs:113-133 | a name with fewer than five others ahead survives every touch of another, whatever the length of the list |
| `LruLists.TouchEvicts` | patched-vscode/cli/src/download_cache.rs:120-129 | in a list of at most five a name with five others ahead is evicted |
| `CacheTasks.StepKeeps` | patched-vscode/cli/src/download_cache.rs:46-133 | every atomic step of every call keeps the list ordered by last touch and finished folders on disk |
| `CacheTasks.EveryInterleaving` | patched-vscode/cli/src/download_cache.rs:46-133 | over every interleaving, whatever fails: the list is ordered and duplicate-free, and holds at most five names if it started so and the evictions' removals work |
| `CacheTasks.FoldersExactly` | patched-vscode/cli/src/download_cache.rs:46-133 | which folder each step takes away, makes or finishes, and that it touches no other |
| `CacheTasks.OrphanedExactly` | patched-vscode/cli/src/download_cache.rs:63-65 | a step leaves a folder finished but unlisted if and only if it is a delete's list update for a folder finished since, or a create's rename to a name no longer listed; evictions never do it |
| `CacheTasks.ListedExactly` | patched-vscode/cli/src/download_cache.rs:113-133 | over every interleaving a name whose place the locked updates keep is listed; with at most five names and working removals, exactly then |
| `CacheTasks.FinishedIsListedExactly` | patched-vscode/cli/src/download_cache.rs:93-108 | the folder a create finishes is listed if, and in that regime only if, the updates of others between its list update and its rename keep its place |
| `CacheTasks.FewOthers` | patched-vscode/cli/src/download_cache.rs:113-133 | fewer than five other names touched, and no drop of its own, keep a name's place, whatever is dropped besides |
| `CacheTasks.FiveOthers` | patched-vscode/cli/src/download_cache.rs:113-133 | without drops, fewer than five is exact |
| `CacheTasks.FinishedUnlessFive` | patched-vscode/cli/src/download_cache.rs:93-108 | a finished folder is orphaned if and only if five or more others touched their names in between |
| `CacheTasks.SixAtOnce` | patched-vscode/cli/src/download_cache.rs:72-111 | a run of six creates from an empty cache that orphans the first one's folder |
| `CacheTasks.OvertakenDelete` | patched-vscode/cli/src/download_cache.rs:57-66 | a run of a delete and a create of the same name that orphans its folder |
| `DownloadCaches.TouchKeepsListed` | patched-vscode/cli/src/download_cache.rs:113-133 | the locked update of a touch keeps every finished folder listed |
| `DownloadCaches.DownloadCache.constructor` | patched-vscode/cli/src/download_cache.rs:31-36 | a duplicate-free list that covers the folders on disk is a valid start |
| `DownloadCaches.DownloadCache.Touch` | patched-vscode/cli/src/download_cache.rs:113-133 | takes exactly the locked step of the state machine and keeps the new list even if writing it fails |
| `DownloadCaches.DownloadCache.Exists` | patched-vscode/cli/src/download_cache.rs:46-54 | run alone, takes steps of the state machine: reports the folder and moves its name to the front |
| `DownloadCaches.DownloadCache.Delete` | patched-vscode/cli/src/download_cache.rs:57-66 | run alone: a folder that cannot be removed keeps its name; otherwise folder and name go, whether or not the list is written |
| `DownloadCaches.DownloadCache.Create` | patched-vscode/cli/src/download_cache.rs:72-111 | run alone: succeeds exactly if the folder is there afterwards, which is if it was there, or staging, filling and one of 21 renames work and the listing did not evict the staging folder; a created folder is listed; a failure before filling ends leaves the list alone |
| `DownloadCaches.DownloadCache.StageAndFill` | patched-vscode/cli/src/download_cache.rs:87-91 | the staging folder is made anew and filled, or nothing follows |
| `DownloadCaches.DownloadCache.RenameStaging` | patched-vscode/cli/src/download_cache.rs:94-108 | succeeds exactly if the staging folder is there and one of 21 attempts works |
| `DownloadCaches.Run` | patched-vscode/cli/src/download_cache.rs:46-133 | as long as calls do not overlap: every finished folder stays listed whatever fails, and the calls are one of the interleavings of their steps |
| `Framing.DrainAppend` | patched-vscode/cli/src/msgpack_rpc.rs:66-98 | draining after more bytes continues where the first drain stopped |
| `Framing.ChunkingIsIrrelevant` | patched-vscode/cli/src/msgpack_rpc.rs:66-98 | frames and outcome depend only on the concatenated bytes, however they were split into reads |
| `Framing.DrainLeavesIncomplete` | patched-vscode/cli/src/msgpack_rpc.rs:139-162 | only an incomplete suffix stays buffered |
| `Framing.EveryMessageOnce` | patched-vscode/cli/src/msgpack_rpc.rs:66-98 | any split of concatenated encodings, and part of one more, yields exactly those messages with their exact bytes and keeps the part |
| `Framing.BadDataEnds` | patched-vscode/cli/src/msgpack_rpc.rs:151-154 | bad data behind some messages ends the loop with an error after exactly those messages, however it was split |
| `Framing.MsgPackReader.Decode` | patched-vscode/cli/src/msgpack_rpc.rs:139-162 | takes exactly the object's bytes off the buffer, nothing when incomplete or bad |
| `Framing.MsgPackReader.OnRead` | patched-vscode/cli/src/msgpack_rpc.rs:66-98 | one read yields exactly what draining the buffer yields |
| `Framing.Receive` | patched-vscode/cli/src/msgpack_rpc.rs:66-98 | the loop over all reads, stopping at the first error |
| `Keyring.ReadAfterStore` | patched-vscode/cli/src/auth.rs:309-353 | what reading returns after a store, for every value and whatever was stored before |
| `Keyring.RoundTrip` | patched-vscode/cli/src/auth.rs:309-353 | the value comes back if its length is no multiple of the chunk size and its last chunk does not end in the marker; with nothing stored behind it, only then |
| `Keyring.StaleChunksLeakIn` | patched-vscode/cli/src/auth.rs:335-345 | at a multiple, what an earlier value left behind is appended, or the value counts as missing |
| `Keyring.OneChunkIsLost` | patched-vscode/cli/src/auth.rs:335-345 | a value of one chunk is missing on an empty keyring, and grows by a leftover entry |
| `Keyring.EntriesFit` | patched-vscode/cli/src/auth.rs:333-345 | no entry exceeds the limit |
| `Keyring.KeyringStorage.Store` | patched-vscode/cli/src/auth.rs:331-353 | succeeds exactly if every entry can be written and then holds the chunks; otherwise it stops at the first entry that cannot, with the chunks before it stored |
| `Keyring.KeyringStorage.Read` | patched-vscode/cli/src/auth.rs:309-329 | fails exactly when an entry it reaches cannot be read, and otherwise returns the assembled chunks or nothing |

## Left out

- Loader plugins, build mode and build information, configuration merging and the concrete script loaders: only the define
  calls and failures that they produce matter here.
- Factories and errorbacks that call back into the loader: a factory is a log entry that may throw. Exceptions are taken
  to be caught, as the product configures it (patched-vscode/src/bootstrap-amd.js:41); with that option off, its default,
  they leave the manager in the middle of a call.
- Values of `exports`, the printed cycle path, and the table between string ids and numbers.
- Module records are values in a map; nothing in the modelled code depends on aliasing them.
- Hot reload, which removes entries from the module table.
- RPC calls and their replies, the reading side of streams, and reuse of stream ids after the 32-bit counter wraps. A pipe
  that failed is taken to stay failed.
- `Streams.Multiplexer.WriteLoop`: runs undisturbed over a pipe that takes every byte; interleaved runs and failures are
  the subject of `Streams.EveryInterleaving` and `Streams.EventuallyQuiescent`.
- `SourceMapBuilders.SourceMapBuilder.AddSource`: asks for mappings whose segments have one, four or more fields, with
  positions between 0 and 2^30, source indices in range and nothing mapped past the last line; the code does not check
  any of these. Segment names are dropped, as in the code.
- `Bundler.BundleWithDependencies`: collects the emission order first and then adds the sources in that order; the
  numbers of all source names together stay within 2^30.
- JSON and base64 of the map line, UTF-8, module parsing, the web server and its file watching.
- Scanning CSS text for URLs and inlining images. Original files with a protocol, and new files whose folder is not made of
  names, are the cases in which `CssPaths.RewrittenUrlKeepsTarget` does not apply.
- Encryption and serialisation of credentials, non-ASCII sealed text, the list of keyring handles, clearing.
- `Framing.Receive`: the message parser is a parameter whose objects and errors do not change when bytes follow; dispatch
  and replies are not modelled.
- The file system: whether an operation succeeds is a parameter, folders have no contents, and a failed write of the list may
  leave anything behind. Two processes sharing one cache are not modelled.
- `DownloadCaches.Run`: speaks of calls that do not overlap; overlapping calls are the subject of
  `CacheTasks.EveryInterleaving` and `CacheTasks.OrphanedExactly`.
