# Verification of the shared framework and the factory bootloader

This project models the parts of the S1 quadrocopter code base whose
correctness does not show in any single routine, and proves what they promise:
the protocols and data structures of the shared C# framework, and the C program
that installs the baseband bootloader. `dafny verify dfyconfig.toml` checks it.

| file | what it models |
|---|---|
| `Wrappers.dfy`, `Sequences.dfy`, `Bytes.dfy` | options and results, removing from lists, bytes |
| `Connectivity.dfy`, `UnionFind.dfy`, `Graph.dfy` | Kruskal's algorithm over union-find with union by rank and path compression |
| `SlowAction.dfy` | the action that coalesces triggers and never runs twice at once |
| `LogFile.dfy` | the guarded queue, and the file logger that composes it with a slow action |
| `ProducerConsumerQueue.dfy` | the bounded queue on two semaphores |
| `ProcessorPool.dfy` | the pool that limits and revokes concurrent item handlers |
| `FactoryBootloader.dfy` | the crash-safe installation of the firmware image in the EEPROM |
| `MicroCompiler.dfy`, `MicroCompilerPrinter.dfy`, `MicroCompilerRoundTrip.dfy`, `MicroCompilerErrors.dfy` | the expression parser, a printer with every freedom that the parser allows, their relation, and how much of the text decides a value or an error |
| `CollectionSource.dfy`, `MappedSource.dfy` | observable lists with categories, refreshing, and lists coupled to each other |
| `FieldSource.dfy`, `TimeRange.dfy` | fields that change each other |
| `VolatileList.dfy` | the monitor of objects that die unless they are touched |
| `SegmentedStream.dfy` | the concatenation of streams |
| `ProgressMonitor.dfy` | trees of monitors that throttle their reports |

Code that changes state is modelled by classes and methods with loops, which are
proved against functions on values; what the code promises is then proved of
these functions. Protocols between threads are state machines: every section
under a lock, every wait and every release is one step, a run is any legal
sequence of steps, and the theorems are about all runs. The class beside such a
machine holds the guarded fields, and the machine uses the same functions.

Where the code does not do what its documentation or its purpose suggests, the
model follows the code:

- `UnionFind` allots one parent fewer than there are items, so the last vertex of
  a graph can have no edge (`MinSpanTree` states exactly when it succeeds,
  `LastVertexIsOutOfReach` gives an input).
- The comment on `Trigger` promises the handle of the first execution started
  after triggering; with `soft` set during an execution it returns the handle of
  the execution that is under way, as the comment on `SoftTrigger` says.
  `HandleIsFreshExactly` states when the promise is kept.  Where it is not, the
  handle may have been set already, and no execution need follow
  (`SoftTriggerHandle` says what it stands for in each phase,
  `SoftTriggerMayComeTooLate` and the run `SoftTriggerComesTooLate` when that is).
- A null message ends the drain loop of the logger.  All lines are sure to be
  written exactly if no null is logged before a line (`WrittenExactly`);
  `LinesBehindNullAreStranded` gives a run for every other list of messages, and
  `NullMessageStrandsLines` the shortest one.
- `Refresh` is documented to replace the data.  It takes over which items there
  are, how often each occurs, and their order only under conditions:
  `RefreshTakesOver`, `RefreshTakesOverCounts` and `RefreshTakesOverOrder` state
  them exactly, `RefreshKeepsStaleDuplicate` and `RefreshDropsNewDuplicate` give
  inputs.
- A lazily coupled `MappedSource` may be constructed without a conversion to the
  origin, but then no commit succeeds, even of an unchanged list
  (`CommitNeedsConversion`, `UnchangedCommitFails`).
- Connected fields whose conversions do not settle may change each other without
  end (`FieldsSettleExactly`, `CascadeNeverEnds`).  So may coupled lists:
  `AdditionEndsExactly` and `MappedAdditionEndsExactly` state when an addition
  ends, `CoupledExactlyIfInverse` when it leaves the lists coupled, and
  `AdditionsNeverEnd` gives conversions with which none of this holds.
- The bootloader does not read back the destroyed header: it is safe exactly if
  the header differs from the image's from then on (`BodyPhaseIsSafeExactly`).
- The monitor of the volatile list can sleep past a deadline by the time between
  its scan and its sleep (`OversleepsByTheSlack`).  During an unlimited sleep it
  misses objects that are made volatile, exactly if no touch is under way
  (`MissedExactly`, and the run `MadeVolatileOversleeps`).
- Later segments of a segmented stream are not rewound by a seek, and reads and
  writes do not move `Position` (`BackwardSeekLosesOrder`, `ReadsAreConsecutive`).
  `ReadsMoveByDataExactly` and `WritesOverwriteExactly` state when reads and
  writes follow the concatenation all the same.
  Reading until a read delivers nothing stops at an empty segment and otherwise
  fails at the end (`LoopDeliversAll`); a stream that does not stand at its
  beginning cannot be taken whole (`Whole`).
- Completion of a progress monitor is said to be reported exactly once whatever
  the minimum step, which by default is 0.  Calls after completion report it again
  exactly if no monitor on their way has a positive step (`CompletionCount`).
- A failing item provider keeps its slot, and so does a handler whose item throws
  while it is disposed of (`SlotsAreConserved` accounts for both); such a handler
  stays listed and may be the one that is revoked (`KillRevokesTheOldest`).

## Model

| member | source | states |
|---|---|---|
| `Connectivity.ConnectedIsEquivalence` | shared-c#/Framework/UnionFind.cs:9-12 | "in the same set", generated by the pairs passed to `Union`, is an equivalence relation that contains these pairs |
| `Connectivity.ConnectedIsLeast` | shared-c#/Framework/UnionFind.cs:9-12 | … and the least such relation: any other equivalence that contains the pairs relates at least as much |
| `Connectivity.ClassesAfterPair` | shared-c#/Framework/UnionFind.cs:36-51 | a union of two different sets leaves one set less, any other union leaves their number |
| `UnionFinds.UnionFind.constructor` | shared-c#/Framework/UnionFind.cs:18-23 | every item starts as its own set of rank 0; there is one parent fewer than there are items |
| `UnionFinds.UnionFind.Find` | shared-c#/Framework/UnionFind.cs:25-34 | returns the representative; afterwards no item has another representative, the whole path from the item points straight at it and nothing else changed; the number d of recursive calls satisfies 2^d <= number of items |
| `UnionFinds.UnionFind.Union` | shared-c#/Framework/UnionFind.cs:36-51 | afterwards two items have the same representative exactly if the pairs united so far, this one included, relate them; returns true exactly if the two items were not related before; the forest stays balanced |
| `UnionFinds.UnionFind.Hang` | shared-c#/Framework/UnionFind.cs:45-50 | exactly one root is hung below the other, the one of lower rank; on a tie the second below the first, whose rank alone grows |
| `UnionFinds.CompressKeepsForest` | shared-c#/Framework/UnionFind.cs:33 | linking an item to its representative changes no representative, and ranks and member counts stay in bounds |
| `UnionFinds.HungIsForest` | shared-c#/Framework/UnionFind.cs:45-50 | union by rank keeps: rank grows strictly along parent links, and a root of rank r has at least 2^r members |
| `UnionFinds.HungAgrees` | shared-c#/Framework/UnionFind.cs:42-51 | hanging one root below the other relates exactly what adding the pair relates |
| `UnionFinds.HeightIsLogarithmic` | shared-c#/Framework/UnionFind.cs:25-28 | no path to a representative is longer than the logarithm of the number of items |
| `Graphs.Graph.AddVertex` | shared-c#/Framework/Graph.cs:13-16 | appends the vertex |
| `Graphs.Graph.SortEdges` | shared-c#/Framework/Graph.cs:23 | the edges in place are a permutation of what they were, ordered by the comparison |
| `Graphs.Graph.JoiningEdges` | shared-c#/Framework/Graph.cs:24-25 | the filter keeps exactly the edges whose ends the earlier edges do not connect; it fails exactly if there is no vertex or an edge touches the last one |
| `Graphs.Graph.MinSpanTree` | shared-c#/Framework/Graph.cs:18-26 | for every total preorder the result is a minimum spanning forest of the edges: acyclic, connecting exactly what all edges connect, and no other such set of edges is lighter under any weighting that respects the comparison; it succeeds exactly if there is a vertex and no edge touches the last one, and the edges are left sorted |
| `Graphs.KeptIsSpanningForest` | shared-c#/Framework/Graph.cs:25 | the edges kept of any list form an acyclic set that connects the same vertices as the list |
| `Graphs.FewerLightEdges` | shared-c#/Framework/Graph.cs:23-25 | below every weight an acyclic selection has at most as many edges as the kept ones |
| `Graphs.MoreLightIsLighter` | shared-c#/Framework/Graph.cs:23-25 | of two equally long lists, the one with more edges below every weight weighs no more |
| `Graphs.KeptIsMinimal` | shared-c#/Framework/Graph.cs:18-26 | the edges kept of a sorted list are a minimum spanning forest |
| `Graphs.MinimumIgnoresOrder` | shared-c#/Framework/Graph.cs:23 | being a minimum spanning forest does not depend on the order of the edges |
| `Graphs.MinimumIgnoresIsolated` | shared-c#/Framework/UnionFind.cs:21 | as long as no edge touches it, leaving out the last vertex changes no minimum spanning forest |
| `Graphs.LastVertexIsOutOfReach` | shared-c#/Framework/UnionFind.cs:21 | a single edge between two vertices has a spanning tree, but touches the vertex for which no parent is allotted |
| `SlowActions.SlowAction.ShouldExecute` | shared-c#/Framework/SlowAction.cs:59-76 | under the lock: which handle the caller gets, whether a worker must be launched, and both fields afterwards |
| `SlowActions.SlowAction.AcquireHandleForExecution` | shared-c#/Framework/SlowAction.cs:81-89 | the next handle becomes the current one and is returned, and there is no next one any more |
| `SlowActions.AlwaysInv` | shared-c#/Framework/SlowAction.cs:59-108 | the invariant of the protocol holds after every interleaving of triggers and worker steps |
| `SlowActions.NeverConcurrent` | shared-c#/Framework/SlowAction.cs:21-22 | in every interleaving at most one worker is owed or alive, and one is exactly while the current handle is non-null; executions never overlap and never outnumber the triggers |
| `SlowActions.NoTriggerLost` | shared-c#/Framework/SlowAction.cs:91-108 | in every interleaving, a hard trigger whose handle is not set yet has the next handle, or the handle of a running execution that is the first to have started after the trigger |
| `SlowActions.SoftTriggerEnqueuesNothing` | shared-c#/Framework/SlowAction.cs:62-65 | a soft trigger during an execution changes neither the fields nor the workers |
| `SlowActions.SoftTriggerHandle` | shared-c#/Framework/SlowAction.cs:62-65 | the handle of a soft trigger in each phase of the worker: the execution owed, the one under way, the one that returned and has not set its handle, or, between setting a handle and acquiring the next, the handle that was set |
| `SlowActions.HandleIsFreshExactly` | shared-c#/Framework/SlowAction.cs:59-76 | after every run, the handle that a trigger gets belongs to an execution that has not started, if and only if the trigger is hard, or no execution counts as in progress, or the one that does has not acquired its handle |
| `SlowActions.SoftTriggerMayComeTooLate` | shared-c#/Framework/SlowAction.cs:102-105 | in that last window, unless another execution is due, no execution follows the soft trigger and the worker ends |
| `SlowActions.SoftTriggerComesTooLate` | shared-c#/Framework/SlowAction.cs:62-65 | a run that reaches that window: a soft trigger would get the handle that was set |
| `SlowActions.StepApproaches` | shared-c#/Framework/SlowAction.cs:96-108 | no trigger delays a handle that was given to a trigger, hard or soft, and every worker step brings it one step closer |
| `SlowActions.BoundedResponse` | shared-c#/Framework/SlowAction.cs:91-127 | however triggers are interleaved, the handle of a trigger, hard or soft, is set within five worker steps: the rest of the execution under way and one more |
| `SlowActions.WorkerIsEnabled` | shared-c#/Framework/SlowAction.cs:100-106 | while the handle of a trigger is not set, some worker step is possible |
| `LogFiles.SafeQueue.Dequeue` | shared-c#/Framework/LogFile.cs:25-35 | takes the first item, or yields the default value and changes nothing if there is none |
| `LogFiles.SafeQueue.Enqueue` | shared-c#/Framework/LogFile.cs:37-45 | appends the item |
| `LogFiles.LoggerStepIsSlowStep` | shared-c#/Framework/LogFile.cs:100-113 | every step of the logger is a step of its slow action or leaves it alone, so all that holds of slow actions holds of the logger |
| `LogFiles.AlwaysLogInv` | shared-c#/Framework/LogFile.cs:96-114 | the invariant of the composition holds after every interleaving of callers and drain loops |
| `LogFiles.EveryLineOnceInOrder` | shared-c#/Framework/LogFile.cs:96-114 | as long as no file operation failed, null messages or not: lines written, the line in hand and the queue together are the logged lines in order; and a queued line whose caller has triggered has a due execution or a running one that has not seen the queue empty, or the message taken last was null |
| `LogFiles.NoLineTwice` | shared-c#/Framework/LogFile.cs:96-114 | whatever fails and whatever is null, the lines in the file are logged lines in their order, none of them twice |
| `LogFiles.AllWrittenWhenQuiet` | shared-c#/Framework/LogFile.cs:96-114 | once every caller has triggered and the worker is gone, without failures: messages remain only behind a null taken last, and unless a line is among them the file holds exactly the logged lines |
| `LogFiles.WrittenExactly` | shared-c#/Framework/LogFile.cs:96-114 | for every list of messages: all runs that log it, end quiet and meet no file failure write exactly its lines in order, if and only if no null comes before a line |
| `LogFiles.AllWritten` | shared-c#/Framework/LogFile.cs:96-114 | if messages are non-null and file operations succeed, the file then holds exactly the logged lines in order |
| `LogFiles.LinesBehindNullAreStranded` | shared-c#/Framework/LogFile.cs:96-114 | for every list of messages with a null: in some such run exactly the lines before the first null are written, and no execution is due for those behind it |
| `LogFiles.QuietRunExists` | shared-c#/Framework/LogFile.cs:96-114 | for every list of messages there is a run that logs it and ends quiet without failures |
| `LogFiles.NoFailures` | shared-c#/Framework/LogFile.cs:100-108 | non-null messages stay so in the queue, and file operations that succeed count no failure |
| `LogFiles.NullMessageStrandsLines` | shared-c#/Framework/LogFile.cs:104 | a null message ends the loop early: in a concrete run the line behind it stays queued with no execution due or running |
| `LogFiles.LogStepApproaches` | shared-c#/Framework/LogFile.cs:100-113 | a message that is logged delays a handle by two steps of the worker at most, a trigger not at all, and every step of the worker, failing ones included, brings it closer |
| `LogFiles.LoggerResponds` | shared-c#/Framework/LogFile.cs:100-113 | whatever is null, whatever fails and however callers interleave: the handle of a trigger is set after nine steps of the worker and two for every message that was queued or is logged meanwhile |
| `LogFiles.LoggerIsEnabled` | shared-c#/Framework/LogFile.cs:100-113 | unless all is quiet some caller can trigger or the worker can go on, and the worker can go on as long as there is one |
| `LogFiles.BecomesQuiet` | shared-c#/Framework/LogFile.cs:100-113 | once nothing more is logged every run becomes quiet, after at most eight steps for every caller that has not triggered, two for every queued message, and ten |
| `ProducerConsumerQueues.AlwaysInv` | shared-c#/Framework/LogFile.cs:50-91 | in every interleaving: free slots, producers holding one, items and consumers about to free one add up to the capacity; used slots, consumers holding one and items not yet announced add up to the queue |
| `ProducerConsumerQueues.BoundedAndInOrder` | shared-c#/Framework/LogFile.cs:56-82 | the queue never exceeds its capacity, and items taken followed by items queued are the items that went in, in order |
| `ProducerConsumerQueues.NeverOverReleased` | shared-c#/Framework/LogFile.cs:59-60 | no release exceeds the maximum of its semaphore |
| `ProducerConsumerQueues.ConsumerFindsItem` | shared-c#/Framework/LogFile.cs:68-75 | a consumer holding a used slot finds the oldest item that was not taken |
| `ProducerConsumerQueues.EndOfProduction` | shared-c#/Framework/LogFile.cs:70-71 | the end of production is reported only without a used slot: the unclaimed items are then those whose `Enqueue` has not returned |
| `ProducerConsumerQueues.NobodyBlockedInVain` | shared-c#/Framework/LogFile.cs:68-82 | with no call under way a producer can proceed exactly if the queue is not full, a consumer exactly if it is not empty |
| `ProducerConsumerQueues.CallGoesOn` | shared-c#/Framework/LogFile.cs:68-82 | a call that has got its slot is not blocked again, and is over after its two steps, whatever other calls do |
| `ProducerConsumerQueues.TerminationFreesConsumers` | shared-c#/Framework/LogFile.cs:68-90 | a consumer can go on if and only if there is a used slot or production was terminated at any time before |
| `ProducerConsumerQueues.ItemsOfCalls` | shared-c#/Framework/LogFile.cs:68-82 | what went in are the items that the calls of `Enqueue` brought, in the order in which they put them, and as many came out as consumers have dequeued |
| `ProducerConsumerQueues.ProducerConsumerQueue.constructor` | shared-c#/Framework/LogFile.cs:56-61 | all slots are free, none is used, and the queue is empty |
| `ProducerConsumerQueues.ProducerConsumerQueue.Create` | shared-c#/Framework/LogFile.cs:56-61 | refused, as the semaphores do, exactly if the capacity is not positive |
| `ProducerConsumerQueues.ProducerConsumerQueue.Enqueue` | shared-c#/Framework/LogFile.cs:77-82 | a call that is not interrupted blocks exactly if no slot is free, and otherwise is the three steps of a producer in the interleavings |
| `ProducerConsumerQueues.ProducerConsumerQueue.Dequeue` | shared-c#/Framework/LogFile.cs:68-75 | a call that is not interrupted takes the first item if a slot is used, as the three steps of a consumer; otherwise it reports the end of production or blocks |
| `ProducerConsumerQueues.ProducerConsumerQueue.Terminate` | shared-c#/Framework/LogFile.cs:87-90 | announces the end of production and changes nothing else |
| `ProcessorPools.OldestIsFirstLaunched` | shared-c#/Framework/ProcessorPool.cs:116 | the aggregation yields a thread launched no later than any other, the last of these in the list |
| `ProcessorPools.ProcessorPool.Create` | shared-c#/Framework/ProcessorPool.cs:42-45 | all slots are free; refused, as the semaphore does, exactly if there is none |
| `ProcessorPools.ProcessorPool.KillOldestThread` | shared-c#/Framework/ProcessorPool.cs:112-124 | cancels and forgets the oldest thread without releasing its slot; returns false and changes nothing exactly if there is none |
| `ProcessorPools.ProcessorPool.AddThread` | shared-c#/Framework/ProcessorPool.cs:98-101 | the thread is the last in the list |
| `ProcessorPools.ProcessorPool.EndThread` | shared-c#/Framework/ProcessorPool.cs:91-95 | a handler that ends is forgotten if it was not revoked, and releases one slot either way |
| `ProcessorPools.AlwaysInv` | shared-c#/Framework/ProcessorPool.cs:58-124 | the invariant of the pool holds after every interleaving of acceptors and handlers |
| `ProcessorPools.SlotsAreConserved` | shared-c#/Framework/ProcessorPool.cs:58-124 | free slots, slots held by acceptors, handlers still running (revoked or not), handlers that died before releasing and failed item providers always add up to the number of slots; so no more handlers ever run at once |
| `ProcessorPools.ReleasedOnce` | shared-c#/Framework/ProcessorPool.cs:91-95 | a handler can release its slot exactly as long as it runs; it does so at most once, revoked or not, and the semaphore is not full when it does |
| `ProcessorPools.KillRevokesTheOldest` | shared-c#/Framework/ProcessorPool.cs:64-69 | an acceptor that times out revokes a listed handler that was launched no later than any other that runs unrevoked, and waits again; the revoked one runs exactly if no exception ended it before it released its slot. The acceptor fails only if nothing is listed, and then all running handlers have been revoked |
| `ProcessorPools.AcceptorRounds` | shared-c#/Framework/ProcessorPool.cs:61-102 | over every run, for every acceptor, up to what it is doing now: each round begins with one look for a cancellation, each time-out is followed by one attempt to revoke, and each slot leads to one handler or one failure |
| `ProcessorPools.AcceptorIsEnabled` | shared-c#/Framework/ProcessorPool.cs:61-69 | an acceptor can always go on: while it waits it finds a slot, its cancellation, or that time is up |
| `ProcessorPools.AcceptorGoesOn` | shared-c#/Framework/ProcessorPool.cs:61-102 | an acceptor goes on to its next item, also after launching a handler or failing to obtain an item: unless it is cancelled, waits too long or fails, one of any four steps of it launches a handler |
| `ProcessorPools.CancelledAcceptorEnds` | shared-c#/Framework/ProcessorPool.cs:61-66 | a cancelled acceptor ends after at most three steps of its own |
| `ProcessorPools.CancelledExactly` | shared-c#/Framework/ProcessorPool.cs:61-66 | over every run, an acceptor is to end exactly if it was cancelled |
| `ProcessorPools.AcceptorEndsOnlyThen` | shared-c#/Framework/ProcessorPool.cs:61-68 | an acceptor ends only if it was cancelled, or waited too long and found no handler to revoke |
| `ProcessorPools.LaunchedWhenObtained` | shared-c#/Framework/ProcessorPool.cs:81 | every handler carries the time at which its item was obtained |
| `ProcessorPools.ListedInLaunchOrder` | shared-c#/Framework/ProcessorPool.cs:91-121 | the list holds the handlers that were neither revoked nor have finished, in the order in which they were launched |
| `FactoryBootloader.BodyPhaseIsSafe` | factory_bootloader/main.c:98-101 | if the header differs from the one of the image, any content that differs in the body only is safe: a matching header implies the whole image |
| `FactoryBootloader.BodyPhaseIsSafeExactly` | factory_bootloader/main.c:98-101 | writing the body is safe, whatever is torn, exactly if the header differed before (or there is no body) |
| `FactoryBootloader.HeaderPhaseIsSafe` | factory_bootloader/main.c:102-103 | with a complete body, any content that differs in the header only is safe |
| `FactoryBootloader.HeaderPhaseIsSafeExactly` | factory_bootloader/main.c:102-103 | writing the header is safe, whatever is torn, exactly if the body was complete before |
| `FactoryBootloader.DestroyedHeaderDiffers` | factory_bootloader/main.c:66-69 | a destroyed header differs from the one of the image exactly if that is not all zero |
| `FactoryBootloader.DestroyedIsSafe` | factory_bootloader/main.c:66-69 | destroying the header makes the content safe exactly if the image header is not all zero or the body is complete already |
| `FactoryBootloader.Eeprom.Write` | shared-c/hardware/i2c_eeprom.c:22-41 | no page transfer crosses a page boundary; whatever is torn and whatever is reported, all contents on the way differ in the range only; an error is returned exactly if a page transfer failed, and if reported successes of page transfers are true, so is the success of the whole, with the data at its address |
| `FactoryBootloader.PageIsFilled` | shared-c/hardware/i2c_eeprom.c:22-41 | if not all bytes fit into the page, those that do fill it |
| `FactoryBootloader.Bootloader.WriteFirmware` | factory_bootloader/main.c:38-47 | all contents on the way differ from before in the given range only, whatever is reported; it succeeds exactly if no transfer fails, and if reported successes are true, success means that the chunks together are the range of the image |
| `FactoryBootloader.Bootloader.FlashFirmware` | factory_bootloader/main.c:34-62 | all contents on the way differ from before in the given range only; success means that no transfer failed and the range was read back and equals the image, whatever the writes left behind and reported; corrupt data means that it was read back different, which cannot be if reported successes are true; an I/O error means that a transfer failed |
| `FactoryBootloader.Bootloader.VerifyFirmware` | factory_bootloader/main.c:49-61 | success means that the range that was read back equals the image, corrupt data that it does not, and an I/O error that a transfer failed |
| `FactoryBootloader.Bootloader.DestroyFirmware` | factory_bootloader/main.c:66-69 | touches the header only and succeeds exactly if no transfer fails; if reported successes are true, success means that it is all zero |
| `FactoryBootloader.Bootloader.Run` | factory_bootloader/main.c:98-109 | with writes that may leave anything in their range and report anything: if the header differs from the one of the image after the destroy step, every later content is safe, and after the body was verified every content is safe in any case; the reset is reached if and only if no transfer fails and the whole image is in place in the end, which is sure if all transfers complete and store their data; every failure is reported instead, as an I/O error exactly if a transfer failed |
| `MicroCompiler.ConsumeWhitespace` | shared-c#/Framework/Extensions.cs:211-216 | advances to the first character that is not white space, or to the end |
| `MicroCompiler.ParseNumber` | shared-c#/Framework/MicroCompiler.cs:169-177 | returns exactly what the number grammar gives: the integer, a syntax error, or running out of text |
| `MicroCompiler.ParseString` | shared-c#/Framework/MicroCompiler.cs:182-188 | returns the text between the quotes and the position behind them, or the error |
| `MicroCompiler.ParseMember` | shared-c#/Framework/MicroCompiler.cs:139-164 | returns the member access or the call with its argument list in order, or the error |
| `MicroCompiler.ParseArguments` | shared-c#/Framework/MicroCompiler.cs:151-158 | the loop collects the arguments in order, up to the first character that is not a comma, or passes on the first error |
| `MicroCompiler.ParseHead` | shared-c#/Framework/MicroCompiler.cs:117-126 | the branches return the member, text, number or group in front of the first dot, or the error |
| `MicroCompiler.ParseExpression` | shared-c#/Framework/MicroCompiler.cs:111-134 | returns the expression and the position in front of the first character that is not part of it, or the error; terminates |
| `MicroCompiler.ExpressionAt` | shared-c#/Framework/MicroCompiler.cs:111-134 | a successful parse strictly advances the position and stops in front of a character of the text |
| `MicroCompilerRoundTrip.ParserAcceptsExactly` | shared-c#/Framework/MicroCompiler.cs:105-188 | the parser returns an expression and a position exactly if the text up to there is some layout of that expression (white space, parentheses and number format chosen freely) that what follows does not continue |
| `MicroCompilerRoundTrip.ParsingUndoesShowing` | shared-c#/Framework/MicroCompiler.cs:105-188 | every layout, with white space wherever the parser skips it, is read back to the expression that it denotes, and parsing stops exactly at its end |
| `MicroCompilerRoundTrip.SameTextSameMeaning` | shared-c#/Framework/MicroCompiler.cs:105-110 | the grammar is unambiguous: layouts with the same text denote the same expression |
| `MicroCompilerRoundTrip.ParsingUndoesPrinting` | shared-c#/Framework/MicroCompiler.cs:105-188 | every expression with identifier names, quote-free texts and 32-bit integers is printed and read back unchanged, in front of any terminating character |
| `MicroCompilerRoundTrip.NameIsRead` | shared-c#/Framework/MicroCompiler.cs:117 | a name of letters, digits and underscores that does not start with a digit is read as that property, in front of any character that does not go on with it |
| `MicroCompilerRoundTrip.IntTextParses` | shared-c#/Framework/MicroCompiler.cs:166-175 | the decimal form of every 32-bit integer converts back to it |
| `MicroCompilerErrors.DecidesAtPosition` | shared-c#/Framework/MicroCompiler.cs:105-188 | a result at a position, be it a value or a syntax error, is the result in every shorter text that includes the character at that position, and in a text that ends before it the parser runs out of the text |
| `MicroCompilerErrors.RunsOutExactly` | shared-c#/Framework/MicroCompiler.cs:105-188 | the parser runs out of the text if and only if it matters what follows the text |
| `CollectionSources.CollectionSource.SetCategoryFactory` | shared-c#/Framework/DataSource.cs:352-361 | refused exactly if the list is not empty; otherwise the categories start empty and match |
| `CollectionSources.MatchMeaning` | shared-c#/Framework/DataSource.cs:339-344 | matching categories: names do not repeat, each member count is the positive number of items with that label, and every label in use has a category |
| `CollectionSources.MatchAdded` | shared-c#/Framework/DataSource.cs:315-323 | counting an added item keeps the categories matching |
| `CollectionSources.MatchRemoved` | shared-c#/Framework/DataSource.cs:289-295 | counting a removed item, and dropping categories without members, keeps the categories matching |
| `CollectionSources.DecrementMatching` | shared-c#/Framework/DataSource.cs:292-293 | every category with the name loses one member, all others stay |
| `CollectionSources.IncrementOrAppend` | shared-c#/Framework/DataSource.cs:318-322 | the first category with the name gains one member; without one, a category with one member is appended |
| `CollectionSources.CollectionSource.HandleRemoved` | shared-c#/Framework/DataSource.cs:287-299 | the handler of a removed item makes the categories match the list without it, and announces the removal once |
| `CollectionSources.CollectionSource.HandleAdded` | shared-c#/Framework/DataSource.cs:313-326 | the handler of an added item makes the categories match the list with it, and announces the addition once |
| `CollectionSources.CollectionSource.Insert` | shared-c#/Framework/DataSource.cs:405-408 | inserts at the index, raising one event; categories match; refused exactly if the index is out of range |
| `CollectionSources.CollectionSource.Add` | shared-c#/Framework/DataSource.cs:417-420 | appends, raising one event; categories match |
| `CollectionSources.CollectionSource.RemoveAt` | shared-c#/Framework/DataSource.cs:413-416 | removes at the index, raising one event; categories match; refused exactly if the index is out of range |
| `CollectionSources.CollectionSource.Remove` | shared-c#/Framework/DataSource.cs:446-449 | removes the first occurrence and announces it, or changes nothing; categories match |
| `CollectionSources.CollectionSource.Replace` | shared-c#/Framework/DataSource.cs:376-380 | replaces the item, announcing a removal and then an addition; categories match |
| `CollectionSources.CollectionSource.RemoveEach` | shared-c#/Framework/DataSource.cs:241-242 | the loop removes the first occurrence of each of the items and announces each removal |
| `CollectionSources.CollectionSource.AddEach` | shared-c#/Framework/DataSource.cs:243-244 | the loop appends the items in order and announces each addition |
| `CollectionSources.CollectionSource.Refresh` | shared-c#/Framework/DataSource.cs:234-245 | removes what vanished, adds what is new, and announces exactly that; categories match |
| `CollectionSources.RefreshedCount` | shared-c#/Framework/DataSource.cs:239-244 | how often every item occurs after a refresh |
| `CollectionSources.ExceptPicks` | shared-c#/Framework/DataSource.cs:239-244 | the set differences list each item at its first position, in the order of the list |
| `CollectionSources.RefreshTakesOver` | shared-c#/Framework/DataSource.cs:234-245 | after a refresh the list holds the same items as the new data, not counting how often, exactly if no vanished item was in the list twice |
| `CollectionSources.RefreshTakesOverCounts` | shared-c#/Framework/DataSource.cs:234-245 | it holds each item as often as the new data exactly if, besides, every new item occurs as often as before, or once if it was not there |
| `CollectionSources.RefreshTakesOverOrder` | shared-c#/Framework/DataSource.cs:234-245 | it equals the new data, order included, exactly if no vanished item was there twice and the new data begins with the items that stay, in their present order, followed by the others, each once |
| `CollectionSources.RefreshKeepsStaleDuplicate` | shared-c#/Framework/DataSource.cs:240-242 | refreshing two equal items with an empty list leaves one of them behind |
| `CollectionSources.RefreshDropsNewDuplicate` | shared-c#/Framework/DataSource.cs:239-244 | refreshing an empty list with two equal items leaves one of them out |
| `MappedSources.AddToOriginKeepsCoupled` | shared-c#/Framework/DataSource.cs:515-543 | with inverse conversions, adding to the origin ends after at most one addition on each side; the mapped list equals the origin mapped element by element exactly if the item was absent |
| `MappedSources.AddToMappedKeepsCoupled` | shared-c#/Framework/DataSource.cs:515-543 | the same for adding to the mapped list |
| `MappedSources.OrbitIsClosed` | shared-c#/Framework/DataSource.cs:515-543 | with inverse conversions, an item and its image are such a set whatever the lists hold |
| `MappedSources.ClosedEnds` | shared-c#/Framework/DataSource.cs:515-543 | with any conversions, an addition ends if converting back and forth from the item, up to the first item that is there already, stays within finitely many items; it takes at most as many additions as these lists lack |
| `MappedSources.AdditionEndsExactly` | shared-c#/Framework/DataSource.cs:515-543 | an addition to the origin ends if and only if there are such finite sets of items |
| `MappedSources.MappedAdditionEndsExactly` | shared-c#/Framework/DataSource.cs:515-543 | an addition to the mapped list ends if and only if there are such finite sets of items |
| `MappedSources.CoupledExactlyIfInverse` | shared-c#/Framework/DataSource.cs:515-543 | adding an absent item on either side of any coupled lists ends with coupled lists if and only if the conversions are inverse to each other |
| `MappedSources.AdditionsNeverEnd` | shared-c#/Framework/DataSource.cs:515-543 | conversions that are not inverse may add items without end: successors on both sides, of an item above all that the lists hold |
| `MappedSources.AdditionsFollowOrbit` | shared-c#/Framework/DataSource.cs:515-543 | whatever the conversions, an addition that ends appends the items that converting back and forth yields, one side in turn with the other, and ends where the next one is there |
| `MappedSources.LimitDoesNotMatter` | shared-c#/Framework/DataSource.cs:515-543 | an addition that ends, ends with the same lists whatever bound is given |
| `MappedSources.RemoveKeepsCoupled` | shared-c#/Framework/DataSource.cs:520-544 | with inverse conversions, removing an item from either side ends with all its occurrences gone on both sides and the lists coupled |
| `MappedSources.WithoutAllOnce` | shared-c#/Framework/DataSource.cs:520-544 | without duplicates, that is the one occurrence |
| `MappedSources.RemovalsFollowOrbit` | shared-c#/Framework/DataSource.cs:520-544 | whatever the conversions and the lists, a removal removes one occurrence of each item that converting back and forth yields, one side in turn with the other, up to the first that is not there |
| `MappedSources.UpdateAnnouncedOnce` | shared-c#/Framework/DataSource.cs:522-560 | an update of an origin item is announced once on each side exactly if converting back and forth yields the item |
| `MappedSources.MappedUpdateAnnouncedOnce` | shared-c#/Framework/DataSource.cs:522-560 | an update of a mapped item is always announced once on each side |
| `MappedSources.MappedSource.AddToOrigin` | shared-c#/Framework/DataSource.cs:515-519 | whenever the cascade of re-entrant handlers ends at all, it ends with the lists of the specification |
| `MappedSources.MappedSource.AddToMapped` | shared-c#/Framework/DataSource.cs:539-543 | whenever the cascade of re-entrant handlers ends at all, it ends with the lists of the specification |
| `MappedSources.MappedSource.RemoveFromOrigin` | shared-c#/Framework/DataSource.cs:520 | the re-entrant handlers terminate and leave the lists of the specification |
| `MappedSources.MappedSource.RemoveFromMapped` | shared-c#/Framework/DataSource.cs:544 | the re-entrant handlers terminate and leave the lists of the specification |
| `MappedSources.MappedSource.UpdateOrigin` | shared-c#/Framework/DataSource.cs:522-535 | the guarded handlers terminate, announce the updates of the specification, and leave the guard list as it was |
| `MappedSources.MappedSource.UpdateMapped` | shared-c#/Framework/DataSource.cs:546-560 | the guarded handlers terminate, announce the updates of the specification, and leave the guard list as it was |
| `Sequences.RemoveAllIsFilter` | shared-c#/Framework/Extensions.cs:290-295 | removing the first occurrence of every item that fails the test leaves exactly the items that pass it, in order |
| `MappedSources.LazyMappedSource.Commit` | shared-c#/Framework/DataSource.cs:566-575 | succeeds exactly if there is a conversion, with the kept items followed by the converted new ones; otherwise it throws after the removals, one exception if there are new items and another if there are none |
| `MappedSources.CommitNeedsConversion` | shared-c#/Framework/DataSource.cs:566-575 | when a commit succeeds, and which exception it throws otherwise |
| `MappedSources.UnchangedCommitFails` | shared-c#/Framework/DataSource.cs:566-575 | without a conversion even the commit of an unchanged list throws, though there is nothing to do |
| `MappedSources.CommitAgrees` | shared-c#/Framework/DataSource.cs:563-575 | if new items convert back to themselves, the origin maps to exactly the items of the committed list |
| `MappedSources.CommitOrder` | shared-c#/Framework/DataSource.cs:566-575 | after a commit the origin holds the items whose images are in the list, at all their positions and in their order, followed, if there is a conversion, by the converted new items in the order of their first positions |
| `MappedSources.CommitTwice` | shared-c#/Framework/DataSource.cs:563-575 | … and a second commit changes nothing |
| `FieldSources.SetFirstSettles` | shared-c#/Framework/DataSource.cs:1069-1083 | if converting forth, back and forth is converting forth: after `Set` on the first field the second holds the conversion of the new value and of the first field |
| `FieldSources.SetSecondSettles` | shared-c#/Framework/DataSource.cs:1069-1083 | after `Set` on the second field the fields agree exactly if the first field changes or the value survives converting back and forth |
| `FieldSources.CascadeEnds` | shared-c#/Framework/DataSource.cs:1069-1083 | if the conversions settle, handling the announcements one after the other is over after four, with exactly the values stated for setting either field |
| `FieldSources.FieldsSettleExactly` | shared-c#/Framework/DataSource.cs:1052-1086 | two writable fields (the second of a type with more than one value) settle after every `Set` of the first to a convertible value, within however many announcements, with its conversion in the second and both in agreement, if and only if converting forth, back and forth is converting forth |
| `FieldSources.CascadeNeverEnds` | shared-c#/Framework/DataSource.cs:1069-1083 | conversions that do not settle may never come to an end, however many announcements are handled |
| `FieldSources.LimitDoesNotMatter` | shared-c#/Framework/DataSource.cs:1069-1083 | a cascade that ends, ends with the same values whatever bound is given |
| `FieldSources.ConnectedFields.FirstChanged` | shared-c#/Framework/DataSource.cs:1069-1075 | whenever the cascade of handlers ends at all, it ends with the values of handling the announcements one after the other |
| `FieldSources.ConnectedFields.SecondChanged` | shared-c#/Framework/DataSource.cs:1077-1083 | whenever the cascade of handlers ends at all, it ends with the values of handling the announcements one after the other |
| `FieldSources.ConnectedFields.Set1` | shared-c#/Framework/DataSource.cs:1014-1021 | whenever the mutually re-entrant setters end at all, they end with the values of handling the announcements one after the other; an equal value changes nothing; refused exactly if the field is read-only |
| `FieldSources.ConnectedFields.Set2` | shared-c#/Framework/DataSource.cs:1014-1021 | the same for the second field |
| `FieldSources.ConnectedFields.Connect` | shared-c#/Framework/DataSource.cs:1052-1086 | connecting applies the first field to the second; if the conversions settle, they agree if it converts |
| `TimeRanges.EditsKeepConsistent` | shared-c#/Framework/TimeRange.cs:18-28 | under any sequence of edits of the proposal and valid updates of the source, every value that the source ever takes is valid, the transient ones included, and it equals the proposal whenever that is valid |
| `TimeRanges.SourceStaysValidExactly` | shared-c#/Framework/TimeRange.cs:18-28 | from a consistent start with a valid past, every value that the source ever takes is valid if and only if all its updates are |
| `TimeRanges.EditsKeepAgreement` | shared-c#/Framework/TimeRange.cs:18-28 | under any edits and any updates, and whatever the source was, it equals the proposal whenever that is valid, if it did so at the start |
| `TimeRanges.InvalidUpdate` | shared-c#/Framework/TimeRange.cs:23-24 | after an invalid update the source is valid exactly if it took the new start with the old end |
| `TimeRanges.UpdateArrives` | shared-c#/Framework/TimeRange.cs:23 | a valid update is the value of the source afterwards, and every update that changes the source becomes the proposal; an update to the same value changes nothing |
| `TimeRanges.ProposalArrives` | shared-c#/Framework/TimeRange.cs:24-27 | a proposal is kept as it is, and is the value of the source afterwards exactly if it is valid; otherwise the source does not change |
| `TimeRanges.LastEditDecides` | shared-c#/Framework/TimeRange.cs:18-28 | over every sequence of edits and valid updates, each end of the proposal is the one that was set last, by an edit or by an update that changed the source, and the source is the last update or the last valid proposal |
| `TimeRanges.SourceIsLastInHistory` | shared-c#/Framework/TimeRange.cs:18-28 | after any edits the source has the value that it took last |
| `TimeRanges.TimeRange.constructor` | shared-c#/Framework/TimeRange.cs:18-21 | the proposal starts as the value of the source; if that is valid, they are consistent |
| `TimeRanges.TimeRange.PropositionChanged` | shared-c#/Framework/TimeRange.cs:24 | the source takes the proposal exactly if it is valid and different |
| `TimeRanges.TimeRange.SetProposedStart` | shared-c#/Framework/TimeRange.cs:26 | the nested setters terminate; the proposal has the new start and its old end, and the source takes it exactly if it is valid and different |
| `TimeRanges.TimeRange.SetProposedEnd` | shared-c#/Framework/TimeRange.cs:27 | the nested setters terminate; the proposal has the new end and its old start, and the source takes it exactly if it is valid and different |
| `TimeRanges.TimeRange.SetSource` | shared-c#/Framework/TimeRange.cs:23-27 | a valid update is the value of the source afterwards; an update that changes the source sets both ends of the proposal, with the transient values of the source in between |
| `VolatileLists.VolatileList.Touch` | shared-c#/Framework/VolatileList.cs:78-91 | a touch announces the object as found exactly if it is new, and sets the event; what becomes of its life is stated by `LivesFromLastRenewal` for the same function |
| `VolatileLists.VolatileList.MakeResilent` | shared-c#/Framework/VolatileList.cs:96-100 | the object never dies |
| `VolatileLists.VolatileList.MakeVolatile` | shared-c#/Framework/VolatileList.cs:105-109 | the object dies after the lifespan |
| `VolatileLists.VolatileList.Clear` | shared-c#/Framework/VolatileList.cs:125-132 | every object is announced as lost once, and the list is empty |
| `VolatileLists.DetermineDeprecated` | shared-c#/Framework/VolatileList.cs:48-61 | whatever the order of the dictionary and the clock readings: exactly the overdue objects are listed, each once, and the wait is the shortest time to the death of any other object, unlimited exactly if none is due |
| `VolatileLists.VolatileList.RemoveDeprecated` | shared-c#/Framework/VolatileList.cs:64-67 | removes exactly the listed objects and announces each as lost once |
| `VolatileLists.VolatileList.Scan` | shared-c#/Framework/VolatileList.cs:51-68 | removes exactly the overdue objects, announcing each once |
| `VolatileLists.AlwaysInv` | shared-c#/Framework/VolatileList.cs:43-132 | the invariant of the monitor holds after every interleaving with a monotone clock |
| `VolatileLists.NeverOversleeps` | shared-c#/Framework/VolatileList.cs:69 | a bounded sleep ends no later than any object in the list is due, touched meanwhile or not, plus the time that went by between scanning and falling asleep |
| `VolatileLists.OversleepsByTheSlack` | shared-c#/Framework/VolatileList.cs:51-69 | the bound is met: with all clock readings taken when the scan begins and no changes, the monitor sleeps past some object by exactly that time |
| `VolatileLists.UnlimitedSleepIsOwedAWake` | shared-c#/Framework/VolatileList.cs:69-91 | during an unlimited sleep, if an object is due that was not made volatile since the scan, or was touched after that, the event is set or a touch is about to set it |
| `VolatileLists.WakesOfTouches` | shared-c#/Framework/VolatileList.cs:69-90 | over every run, every touch sets the event once, and the event, once set, wakes the monitor once |
| `VolatileLists.ScanMissesNothing` | shared-c#/Framework/VolatileList.cs:51-69 | when a scan decides to sleep without limit, no object is due without a wake set or owed |
| `VolatileLists.MissedExactly` | shared-c#/Framework/VolatileList.cs:105-109 | from there on, as long as the sleep lasts, a step keeps this if and only if it does not make an object volatile while no touch has set the event or is about to |
| `VolatileLists.SlackOversleeps` | shared-c#/Framework/VolatileList.cs:51-69 | a run in which the monitor sleeps past a due object |
| `VolatileLists.MadeVolatileOversleeps` | shared-c#/Framework/VolatileList.cs:105-109 | an object made volatile during an unlimited sleep can be overdue while nothing is going to wake the monitor |
| `VolatileLists.FoundAndLostAlternate` | shared-c#/Framework/VolatileList.cs:64-87 | if objects are made resilent or volatile only while in the list, found and lost alternate for every object, and the list holds exactly the objects found and not lost since |
| `VolatileLists.LivesFromLastRenewal` | shared-c#/Framework/VolatileList.cs:78-109 | over every run: the list holds the objects touched or given a lifespan and not lost since, and each dies a lifespan after it was last touched or made volatile, or never exactly if it was made resilent and not made volatile since |
| `VolatileLists.AnnouncedExactly` | shared-c#/Framework/VolatileList.cs:52-132 | what each step of a run announces of an object: a touch exactly if it is touched, that it was found exactly if it is touched and not in the list, and that it is lost exactly if the list is cleared or a scan reads the clock when its life is over; each once |
| `VolatileLists.OverdueIsLost` | shared-c#/Framework/VolatileList.cs:47-69 | an object that is overdue, and not renewed, is gone after three steps of the monitor, whatever else happens in between |
| `VolatileLists.MonitorIsEnabled` | shared-c#/Framework/VolatileList.cs:69 | the monitor can go on unless it was stopped, sleeps for a time that is not over, or waits for a touch that has not come |
| `VolatileLists.StopsExactly` | shared-c#/Framework/VolatileList.cs:69 | the monitor has stopped exactly if it was cancelled |
| `SegmentedStreams.SegmentAtIsUnique` | shared-c#/Framework/SegmentedStream.cs:58-59 | an offset lies in exactly one segment, the one that the loop finds, if it is below the length, and in none otherwise |
| `SegmentedStreams.SeekArrives` | shared-c#/Framework/SegmentedStream.cs:55-61 | setting the position succeeds exactly below the length, moves to that offset of the concatenation and the cursor of that segment only, and changes no byte |
| `SegmentedStreams.ForwardSeekKeepsOrder` | shared-c#/Framework/SegmentedStream.cs:55-61 | a forward seek leaves the later segments at their start |
| `SegmentedStreams.ReadDelivers` | shared-c#/Framework/SegmentedStream.cs:82-89 | a read delivers the bytes that follow in the concatenation, at most to the end of the segment, and moves on by as many exactly if it stays in the segment or the next one stands at its start |
| `SegmentedStreams.ReadsAreConsecutive` | shared-c#/Framework/SegmentedStream.cs:82-89 | while later segments stand at their start, successive reads deliver consecutive bytes of the concatenation; the `Position` property does not follow |
| `SegmentedStreams.ReadsMoveByDataExactly` | shared-c#/Framework/SegmentedStream.cs:82-89 | from any state: all sequences of reads that do not fail move on by exactly the bytes that they deliver, if and only if the later segments stand at their start |
| `SegmentedStreams.LoopStopsAtEmptySegment` | shared-c#/Framework/SegmentedStream.cs:82-89 | a loop that reads until a read delivers nothing gets exactly the bytes up to the first segment with nothing left, and ends there; without one it gets all that is left and fails behind the last segment |
| `SegmentedStreams.LoopDeliversAll` | shared-c#/Framework/SegmentedStream.cs:82-89 | so it gets all that is left and ends exactly if some segment has nothing left and all segments behind it are empty |
| `SegmentedStreams.BackwardSeekLosesOrder` | shared-c#/Framework/SegmentedStream.cs:55-61 | after a backward seek reads need not be consecutive: later segments are not rewound |
| `SegmentedStreams.WriteOverwrites` | shared-c#/Framework/SegmentedStream.cs:100-107 | while later segments stand at their start, a write overwrites exactly its range of the concatenation and succeeds exactly if that fits; otherwise it fills the rest and fails |
| `SegmentedStreams.WriteFitsExactly` | shared-c#/Framework/SegmentedStream.cs:91-107 | wherever the cursors stand, a write succeeds if and only if the bytes fit in front of the cursors of the current and the later segments |
| `SegmentedStreams.WritesOverwriteExactly` | shared-c#/Framework/SegmentedStream.cs:91-107 | from any state: every write overwrites its range of the concatenation as far as that goes, if and only if the later segments stand at their start |
| `SegmentedStreams.SegmentedStream.constructor` | shared-c#/Framework/SegmentedStream.cs:23-26 | segments begin where their streams stand; they lie within their streams exactly if these are long enough, and then the stream starts at offset 0 with later segments at their start |
| `SegmentedStreams.SegmentedStream.Whole` | shared-c#/Framework/SegmentedStream.cs:31-34 | taking the whole length of each stream, segments lie within their streams exactly if all of these stand at their beginning |
| `SegmentedStreams.SegmentedStream.SetPosition` | shared-c#/Framework/SegmentedStream.cs:55-61 | the loop finds the specified segment and offset, or runs past the last segment with the position already overwritten |
| `SegmentedStreams.SegmentedStream.Read` | shared-c#/Framework/SegmentedStream.cs:82-89 | returns the specified bytes and leaves the specified state, or fails behind the last segment |
| `SegmentedStreams.SegmentedStream.WriteEx` | shared-c#/Framework/SegmentedStream.cs:91-98 | writes what fits into the segment; writing the rest afterwards is the same as the whole write |
| `SegmentedStreams.SegmentedStream.Write` | shared-c#/Framework/SegmentedStream.cs:100-107 | the loop terminates, across empty segments too, with the result of the specification |
| `ProgressMonitors.ProgressIsFraction` | shared-c#/Framework/ProgressMonitor.cs:104-113 | the progress of any tree of monitors lies between 0 and 1, and is 1 exactly if all leaves are complete |
| `ProgressMonitors.RegisterKeepsMarked` | shared-c#/Framework/ProgressMonitor.cs:40-52 | looking at the progress keeps: reports rise by at least the step or to 1, completion is reported, and what is known from below is not more than a step ahead of the last report |
| `ProgressMonitors.CallKeepsSound` | shared-c#/Framework/ProgressMonitor.cs:76-93 | a call at any leaf, with all reports that it causes on the way up, keeps this for every monitor of the tree, and no progress falls |
| `ProgressMonitors.CallRaisesProgress` | shared-c#/Framework/ProgressMonitor.cs:76-113 | a call at a leaf raises the progress of the root by what it raises the leaf, times the share of each stage on the way, whatever the other stages are and whatever is reported |
| `ProgressMonitors.AlwaysSound` | shared-c#/Framework/ProgressMonitor.cs:40-128 | after every run of calls that starts with fresh monitors, all monitors of the tree are in order |
| `ProgressMonitors.EveryMonitorKeepsItsStep` | shared-c#/Framework/ProgressMonitor.cs:18-22 | after every run, for every monitor of the tree, whatever its step: reports but the last rise by at least the step, the last is 1 exactly if all leaves below are complete, and the progress is ahead of it by no more than the step and the mean of what may go unreported below; with a positive step also: at most floor(1/step)+1 reports, and 1 reported exactly once if all leaves below are complete and never otherwise |
| `ProgressMonitors.EagerReportsAlways` | shared-c#/Framework/ProgressMonitor.cs:40-128 | if all minimum steps on the way are 0, every call makes the root report the progress that it leads to |
| `ProgressMonitors.CompletedReportsExactly` | shared-c#/Framework/ProgressMonitor.cs:40-128 | in a completed tree, a call at a leaf makes the root report completion again exactly if no monitor on the way has a positive step |
| `ProgressMonitors.CompletionCount` | shared-c#/Framework/ProgressMonitor.cs:18-22 | over every run, the root of a tree reports completion once when all leaves are complete and once more for every later call on a way without a positive step; so exactly once if and only if there is no such call |
| `ProgressMonitors.DefaultStepRepeatsCompletion` | shared-c#/Framework/ProgressMonitor.cs:22 | a run with the default step of 0 in which completion is reported twice |
| `ProgressMonitors.LookedIsRegister` | shared-c#/Framework/ProgressMonitor.cs:40-52 | while progress is a number, looking at it is what monitors of trees do |
| `ProgressMonitors.EmptyMonitorReportsAlways` | shared-c#/Framework/ProgressMonitor.cs:63 | with a maximum of 0, every look is reported whatever the step, as something that is not a number or infinite |
| `ProgressMonitors.LinearProgressMonitor.RegisterProgessChange` | shared-c#/Framework/ProgressMonitor.cs:40-52 | the last report and the raised events afterwards are those of the specification, for quotients that are not numbers too |
| `ProgressMonitors.LinearProgressMonitor.Advance` | shared-c#/Framework/ProgressMonitor.cs:76-82 | adds the points and reports; an object that is a leaf of a tree is then the leaf after the call |
| `ProgressMonitors.LinearProgressMonitor.Complete` | shared-c#/Framework/ProgressMonitor.cs:87-93 | reaches the maximum; the last report is 1 then, unless the maximum is 0; an object that is a leaf of a tree is then the leaf after the call |
| `ProgressMonitors.MultiStageProgress` | shared-c#/Framework/ProgressMonitor.cs:104-113 | the loop computes the weighted mean of the progress of the stages |
| `ProgressMonitors.SumWeights` | shared-c#/Framework/ProgressMonitor.cs:119-128 | the weights are summed up, whatever they are; refused exactly if their sum is 0 |

## Left out

- Graph: the lists are passed to the constructor, because the original never initialises them; sorting is represented by its contract, any order that the comparison allows; comparisons are total preorders.
- UnionFind: an index that is out of range is an exception, which is modelled in the filter that calls `Union`.
- SlowAction: cancellation tokens, the activity tracker, `TriggerPeriodically` and the waiting helpers; an action that throws counts as one that returns, as in the original.
- LogFile: buffering and closing of the stream writer; a failing open or write ends the execution early and its line is lost, and for runs with such failures only `NoLineTwice` is promised.
- ProducerConsumerQueue: a call that blocks returns at once in the class; waiting is part of the state machine only.
- ProcessorPool: the delay itself and the source of timestamps, which are arbitrary; events to subscribers.
- FactoryBootloader: signalling, delays, the bus driver and `nvm_write`; a page transfer may leave arbitrary bytes in its range and report anything, and a read either fails or delivers what is stored. Whether transfers store their data when they say so, and whether they all complete, are two constants of the device. The image is an arbitrary byte sequence that fits the EEPROM.
- FactoryBootloader.Bootloader.Run: ends at the first failure, as `bug_check` does not return; what the device does after that is not modelled.
- MicroCompiler: `Invoke` and the reflection behind it; characters are classified by parameters that are only required not to overlap (`Ascii` is one instance), and the library's conversion of numbers is a parameter, for the printer the one of decimal 32-bit integers.
- MicroCompiler: parsing starts within the text or at its end; after an error only the position in the message is kept.
- CollectionSource: `Clear`, whose handler throws, moves, the events about categories (never raised by the modelled operations), and everything asynchronous; comparing items is equality.
- MappedSource: the lambda that submits, `JointSource`, and refreshing through the origin; categories of coupled sources; the lazily coupled variant is a class of its own.
- MappedSources.MappedSource.AddToOrigin: takes a bound on the number of additions, as does `AddToMapped`, because cascades that do not end have no outcome; any bound that is large enough will do (`LimitDoesNotMatter`), and 2 is for inverse conversions.
- FieldSources.ConnectedFields.Set1: takes a bound on the number of announcements, as do the other methods of the class, because cascades that do not end have no outcome; any bound that is large enough will do (`LimitDoesNotMatter`), and 4 is if the conversions settle.
- FieldSource: validity callbacks and other subscribers; fields store what they are given.
- TimeRange: subscribers of the proposal that change it again.
- VolatileList: touch data, subscribers that call back into the list, and overflow of dates.
- SegmentedStream: the inner streams are values, so two segments cannot share one; they never deliver fewer bytes than asked, and reads and writes are modelled for segments that lie within their streams. Buffers with offset and count are the bytes that they denote, and positions are not negative. `ReadByte` and `WriteByte`, which read outside empty segments, `Flush`, `Seek` by origin.
- ProgressMonitor: floating point rounding; in trees, leaves driven beyond their maximum, maxima and weights that are not positive, negative steps, observers whose monitor is missing or replaced, status texts, monitors that are stages of two others. The tree of monitors is a value; only the leaf is also a class, and reports of one call on the way up are one step.
- User interface, network, database, configuration, remote control and simulation code, and the small string, argument and byte-order helpers of the framework, are not modelled.
