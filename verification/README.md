# Verification of the folo workspace

Dafny models of the stateful and text-handling cores of the folo repository, with proofs about
every run, every interleaving and every input. `dafny verify dfyconfig.toml` checks all of it.

## What is modelled

**Awaiter sets** (`awaiter_set`). `AwaiterSets` has the linked list as classes whose methods
change the links in place; `AwaiterQueue` has the same operations on a plain sequence, and
`AwaiterSetRuns` proves that a sequence of calls on the list is that sequence of calls on the
plain queue. Claims about whole runs are then proved on the queue: `GenerationOrder` (the head
test is exact, with a tight bound on the number of advances), `Drain` (reentrant drains) and
`Fairness` (first in, first out). `NotificationProtocol` is a second model, in which the holder of
the lock moves by small steps and owners act without the lock in between: they consume
notifications, free their awaiters and reuse the addresses. `NotificationInvariant`,
`NotificationRegistration` and `NotificationRemoval` carry an invariant through every step; from
it `NotificationSafety` proves that nothing freed is touched and that the books balance,
`NotificationRefinement` that the operations are linearizable, and `NotificationProgress` that
every call returns and no notification is lost; `NotificationRace` is a schedule of the worst
case.

**Allocation tracking** (`alloc_tracker`). `AllocationCounters`, `ThreadSpans`, `ProcessSpans`,
`OperationMetrics` and `AllocationTracking` are the objects; `SpanPeaks` proves that a single
watermark cell measures every span of a nest, `RegistryScan` with `ScanWitnesses` what a sum read
beside running writers can be, `TrackingRuns` what the threads of `TrackingProcess` conserve, any
number of them, while some are creating their counters, `TrackingSteps` what each of their steps
does and that every creation ends, and `MetricsAlgebra` with `Reports` that splitting measurements
into sessions and merging their reports loses nothing.

**Rolling comments** (`cargo-bench-history-github`). `Markers` prints and reads the metadata
markers, `StaleBanner` is the rewriter of warning banners, down to Rust's `lines()` and `join`
(`Texts`); `BannerLaws`, `RepeatedBanner`, `BannerLookups` and `Messages` prove what survives it.

**Synthetic histories** (`cargo-bench-history-stress`). `HistoryStream` writes the stream,
`FastImport` interprets the commands of git-fast-import(1) that it uses (`commit`, `mark`,
`committer`, `data`, `from` and inline `M`) and refuses everything else; `SeededHistory` proves
what is imported, `ExportedMarks` that the commit IDs are found again.

**Synthetic output and generated assets** (`cargo-bench-history-faker`, `folo_utils`,
`cargo-bench-history-figures`). `OutputPaths`, `OutputWrites` and `OutputCases` relate the
collision scan to writes into a case-insensitive tree, over names made by `FileNames`;
`GeneratedAssets` and `AssetLaws` have the writer and the checker of a registry over the file
trees of `FileTrees`.

## Where the code does not do all that is promised

Each of these has a lemma with an input that shows it, and one with the condition under which the
promise holds.

- The generation of an awaiter set is documented as never decreasing; it wraps. Draining is exact
  below 2^64 - 1 advances and fails at that count (`HeadTestIsExact`, `OneAdvanceTooMany`); beyond
  it, `WrappedRunAgreesExactlyWhen` says which runs get all their answers right.
- A peak is cut off at 2^63 - 1 bytes above the entry level (`OneCellMeasuresEverySpan`,
  `FarPeaksSaturate`).
- The totals of a thread wrap. A span reports its true traffic exactly if none wrapped during it
  (`DeltasAreTrueExactlyWhen`), as the source says; if one did, the span may even panic
  (`WrappedSpanPanics`). Its peak, and all enclosing spans' peaks, are right all the same.
- The totals of the process wrap as well: a process span has true deltas exactly if none wrapped
  between what its two scans read (`ProcessDeltasAreTrueExactlyWhen`), and may panic if one did
  (`WrappedTotalsPanic`).
- A second warning replaces the first one only under `SecondWarningReplacesFirstExactlyWhen`
  (`UnterminatedStartIsLost`, `TrailingLineIsLost`). When the first marker that is kept is an
  unterminated stale start, the first banner terminates it, and the second pass removes that line.
  Each pass also splits the lines and joins them again, so it takes one carriage return from a
  line that ends in several, and an empty last line.
- The loss of a carriage return can also turn lines that were no delimiters into a second
  complete block (`ExactlyOneBlockExactlyWhen`, `HiddenBlockAppears`).
- The same loss can make a marker readable that was not
  (`LookupSurvivesExactlyWhen`, `HiddenStateIsExposed`).
- A feature branch without any main commit forks from a mark that does not exist, and the import
  refuses it; without any commit at all there is no branch to reset to (`StreamImportsExactlyWhen`,
  `BuildRepo`).

## Conventions

Machine words are `int` with every wrap, saturation and overflow check written out
(`MachineIntegers`). Thread spans are dropped in reverse order of creation, which their callers
promise (`ClosingOrderMatters` and `ClosingOrderLosesPeaks` show why). A method that the original
ends by panicking answers `false`, `None` or an error value here. Names of the form
`...ExactlyWhen` state both directions. Where a specification has history (what was registered,
the true levels of a thread, the totals at the start of a scan), it is kept in fields that no step
reads.

## Model

| member | source | states |
|---|---|---|
| AwaiterSets.Awaiter.TakeNotification | packages/awaiter_set/src/awaiter.rs:146-150 | true exactly if the awaiter was notified; then and only then it becomes idle |
| AwaiterSets.AwaiterSet.Register | packages/awaiter_set/src/set.rs:177-231 | a waiting awaiter keeps its place and gets the new waker; any other one is appended with the current generation; the chain stays readable both ways |
| AwaiterSets.AwaiterSet.Unregister | packages/awaiter_set/src/set.rs:245-285 | a waiting awaiter leaves the chain wherever it stands and becomes idle; a notified one stays as it is |
| AwaiterSets.AwaiterSet.NotifyOne | packages/awaiter_set/src/set.rs:298-311 | the head (or, with debug assertions, head or tail by address) leaves, is marked notified, and exactly its waker is returned; none exactly for an empty set |
| AwaiterSets.AwaiterSet.NotifyOnePriorGeneration | packages/awaiter_set/src/set.rs:338-361 | the same for the head alone, if its stamp is below the generation |
| AwaiterSets.AwaiterSet.AdvanceGeneration | packages/awaiter_set/src/set.rs:323-325 | the generation grows by one, wrapping at 64 bits, and nothing else changes |
| AwaiterSets.AwaiterSet.Detach | packages/awaiter_set/src/set.rs:369-411 | one removal from any place: links, phase, waker and the described sequence |
| AwaiterSets.AwaiterSet.Unlink | packages/awaiter_set/src/set.rs:443-473 | the four pointer cases of taking a node out of the chain |
| AwaiterSets.AwaiterSet.PickOne | packages/awaiter_set/src/set.rs:475-491 | release builds pick the head, builds with debug assertions the end with the higher address |
| AwaiterSetRuns.Perform | packages/awaiter_set/src/set.rs:177-361 | one call on the linked structure is one step of the plain sequence; sets and awaiters elsewhere do not change |
| AwaiterSetRuns.PerformAll | packages/awaiter_set/src/set.rs:177-361 | every sequence of calls: final state, all returned wakers and all takes are those of the plain sequence, and other sets are untouched |
| AwaiterSetRuns.OwnersSeeTheState | packages/awaiter_set/src/awaiter.rs:130-163 | what an owner sees of its awaiter is its place in the plain state: registered if waiting or notified, and never both |
| AwaiterQueue.RunKeepsOrder | packages/awaiter_set/src/set.rs:119-131 | generations never decrease from head to tail and never exceed that of the set, for every run below the wrap |
| AwaiterQueue.RunKeepsConsistent | packages/awaiter_set/src/set.rs:111-131 | no awaiter waits twice, or waits and is notified at once |
| AwaiterQueue.WokenByLatestWaker | packages/awaiter_set/src/set.rs:187-193 | every wake-up hands out the waker registered last for that awaiter |
| AwaiterQueue.StepMovesOneAwaiter | packages/awaiter_set/src/set.rs:177-361 | each call is about one awaiter: entries, order and notifications of all others stay; that one waits, left, or is notified as the call says, and a take tells whether it was notified |
| GenerationOrder.HeadTestIsExact | packages/awaiter_set/src/set.rs:338-361 | below 2^64 - 1 advances, looking at the head alone gives in every run the answers of a full search with an unbounded counter |
| GenerationOrder.NoneMeansNobodyIsPrior | packages/awaiter_set/src/set.rs:328-361 | none is returned if and only if no waiting awaiter predates the last advance |
| GenerationOrder.WrappedStepAgrees | packages/awaiter_set/src/set.rs:313-325 | every other operation commutes with wrapping, at any count |
| GenerationOrder.WrappedHeadTestAgreesExactlyWhen | packages/awaiter_set/src/set.rs:338-361 | in any ordered state, past the bound or not, one head test is right if and only if the wrapped stamps compare the right way |
| GenerationOrder.WrappedRunAgreesExactlyWhen | packages/awaiter_set/src/set.rs:323-361 | for runs with any number of advances: the 64-bit set gives all answers of the reference if and only if the wrapped stamps compare right at every head test, and then ends in the same state |
| GenerationOrder.ReferenceStepKeepsOrder | packages/awaiter_set/src/set.rs:119-131 | the states of every reference run are consistent and ordered, however many advances there were |
| GenerationOrder.OneAdvanceTooMany | packages/awaiter_set/src/set.rs:323-325 | the bound is tight: with exactly 2^64 - 1 advances a waiting awaiter is missed |
| Drain.AdvanceOwesEverybody | packages/awaiter_set/src/set.rs:313-325 | an advance makes everybody waiting part of the prior generation |
| Drain.DrainNotifiesExactlyThePriorGeneration | packages/awaiter_set/src/set.rs:313-361 | a drain interleaved with any reentrant calls notifies, in order, exactly the awaiters present at the advance that nobody else removed, none twice, none registered later |
| Drain.DrainTerminatesComplete | packages/awaiter_set/src/set.rs:313-361 | a drain makes at most one successful request per prior awaiter, and once it returns none nobody is owed |
| Fairness.BoundedWaiting | packages/awaiter_set/src/set.rs:298-311 | with k awaiters ahead, k + 1 later calls of `notify_one` reach an awaiter that does not give up, whatever else happens |
| Fairness.NotifyOneIsFifo | packages/awaiter_set/src/set.rs:475-491 | with no other traffic n calls wake exactly the first n, in order |
| Fairness.NoOvertaking | packages/awaiter_set/src/set.rs:298-311 | nobody behind an awaiter, and nobody registering later, is woken before it |
| Fairness.TailPickingStarves | packages/awaiter_set/src/set.rs:475-491 | if the end to pick is chosen freely there is no such bound |
| AwaiterSetRuns.DebugBuildsStarve | packages/awaiter_set/src/set.rs:475-491 | nor in a build with debug assertions, where addresses choose: a rival with a higher address is picked any number of times before the awaiter at the head |
| AwaiterSetRuns.EndIsPickedByAddress | packages/awaiter_set/src/set.rs:475-491 | release builds and lone awaiters: the head; with debug assertions the head if its address is the higher one, and the tail if its is |
| NotificationSafety.RunKeepsInv | packages/awaiter_set/src/set.rs:369-411 | the invariant of the micro-step machine holds in every interleaving of lock-held accesses with lock-free owner steps |
| NotificationSafety.NoUseAfterFree | packages/awaiter_set/src/set.rs:369-411 | in no interleaving does the set touch a freed awaiter, and the `expect` on the waker never fails |
| NotificationSafety.EveryRegistrationIsAccountedFor | packages/awaiter_set/src/awaiter.rs:146-150 | registrations = unregistrations + notifications + the one still waiting; each notification gives one waker and at most one successful take |
| NotificationSafety.ChainIsExactlyTheWaiting | packages/awaiter_set/src/set.rs:111-131 | whenever the lock is free, both chains are one and its nodes are exactly the waiting awaiters |
| NotificationRefinement.Linearizable | packages/awaiter_set/src/set.rs:177-411 | in every interleaving the completed operations have the contents and wakers of the plain queue replayed one after the other |
| NotificationProgress.OwnersActExactly | packages/awaiter_set/src/awaiter.rs:146-150 | in every reachable state a take succeeds exactly on a notified awaiter, leaves it idle and is logged once; no owner step changes anything but its own cell |
| NotificationProgress.CallsAreAllowedExactlyWhen | packages/awaiter_set/src/set.rs:177-285 | which calls and owner steps the schedules contain while the lock is free: all that the documented contracts allow |
| NotificationProgress.NotificationsStay | packages/awaiter_set/src/awaiter.rs:146-150 | no notification is lost: in every continuation of every run it stays until its owner takes it or frees the awaiter |
| NotificationProgress.EveryCallReturns | packages/awaiter_set/src/set.rs:177-411 | whenever the lock is free and whichever call takes it, seven steps of its holder are enough, whatever owners do in between, and then exactly its one operation has been performed |
| NotificationRace.RaceEnds | packages/awaiter_set/src/set.rs:369-411 | a schedule in which the owner takes, frees and reuses the address before the call that notified it returns |
| AllocationCounters.PerThreadCounters.RegisterReallocation | packages/alloc_tracker/src/counters.rs:117-121 | a reallocation counts the new size as allocated and moves the level by the difference |
| AllocationCounters.PerThreadCounters.RaiseOutstanding | packages/alloc_tracker/src/counters.rs:133-153 | the level moves with wrap-around and the watermark follows only upwards |
| ThreadSpans.ThreadSpan.constructor | packages/alloc_tracker/src/thread_span.rs:98-125 | opening saves the four cells and lowers the watermark to the level |
| ThreadSpans.ThreadSpan.Close | packages/alloc_tracker/src/thread_span.rs:184-219 | closing restores the watermark in every case, records exactly one measurement unless it unwinds or panics, and reports the totals since opening |
| ThreadSpans.ThreadSpan.RestoreWatermark | packages/alloc_tracker/src/thread_span.rs:222-241 | the enclosing watermark comes back, raised by what the span reached; the peak is the saturated difference |
| SpanPeaks.OneCellMeasuresEverySpan | packages/alloc_tracker/src/thread_span.rs:98-256 | for every run of requests and nested spans whose outstanding level stays in 64 bits, whether totals wrap or not, each span closes as the true figures say; its peak is its true maximum over its whole lifetime above its entry level |
| SpanPeaks.ClosingIsTrue | packages/alloc_tracker/src/thread_span.rs:222-256 | one closing span, totals wrapping or not: the clamp to zero never changes anything and only a difference above 2^63 - 1 is cut off |
| SpanPeaks.DeltasAreTrueExactlyWhen | packages/alloc_tracker/src/counters.rs:26-31 | a span reports its true traffic if and only if no total wrapped during it |
| SpanPeaks.NoTotalSeemsToDecrease | packages/alloc_tracker/src/thread_span.rs:243-256 | no closing panics over a decreased total in a run that stays within one lap of the totals |
| SpanPeaks.WrappedSpanPanics | packages/alloc_tracker/src/thread_span.rs:243-256 | a run of a new thread in which a total wraps during a span, which panics after it has handed the watermark back |
| SpanPeaks.WatermarkCoversLevel | packages/alloc_tracker/src/counters.rs:133-153 | in every state that nested spans can reach, the watermark is not below the level |
| SpanPeaks.SpansAreTransparent | packages/alloc_tracker/src/thread_span.rs:184-241 | once all spans closed, whichever of the four ways each one did, the counters are those of the same requests without any span |
| SpanPeaks.FarPeaksSaturate | packages/alloc_tracker/src/thread_span.rs:222-241 | a thread reaches the cut-off: the condition above is needed |
| SpanPeaks.ClosingOrderMatters | packages/alloc_tracker/src/thread_span.rs:22-24 | why spans must be dropped in reverse order: else, whatever the counters, an inner span without any traffic reports as its peak how far the level was below the watermark before |
| SpanPeaks.ClosingOrderLosesPeaks | packages/alloc_tracker/src/thread_span.rs:22-24 | and an outer one loses a peak that it had |
| SpanRuns.Perform | packages/alloc_tracker/src/thread_span.rs:97-219 | the same runs on the objects, with spans of one operation sharing its metrics: all closings are those of the specification, and each operation takes exactly the measurements of its own spans, or is poisoned exactly if they do not fit |
| SpanRuns.MeasureThread | packages/alloc_tracker/src/thread_span.rs:97-256 | on the objects, too, every span measures the truth and its operation gets it |
| SpanRuns.DropInnermost | packages/alloc_tracker/src/thread_span.rs:184-219 | dropping the innermost span leaves the others open and changes no other operation |
| OperationMetrics.Metrics.Record | packages/alloc_tracker/src/thread_span.rs:184-219 | recording under the lock succeeds exactly if nobody panicked under it before and the sums fit; else it is poisoned |
| ProcessSpans.Registry.Totals | packages/alloc_tracker/src/counters.rs:268-277 | the loop returns the sums of bytes and of counts of all registered blocks modulo 2^64 |
| ProcessSpans.RequestsMoveTheTotals | packages/alloc_tracker/src/counters.rs:268-277 | a request of any thread moves the two totals by its size and by one, a reallocation by its whole new size, a free not at all |
| ProcessSpans.ZeroBlocksAddNothing | packages/alloc_tracker/src/counters.rs:208-232 | registering a new block leaves the totals alone, and without traffic they are zero |
| RegistryScan.TotalsAreTheWhole | packages/alloc_tracker/src/counters.rs:268-277 | if the cells hold the true figures of their threads modulo 2^64, the totals are the true ones modulo 2^64 |
| ProcessSpans.ProcessSpan.Close | packages/alloc_tracker/src/process_span.rs:117-150 | the deltas of two totals are recorded without a peak; a total that went down panics |
| ProcessSpans.Drop | packages/alloc_tracker/src/process_span.rs:111-150 | the four ways in which a process span ends |
| RegistryScan.ScansLieBetween | packages/alloc_tracker/src/counters.rs:268-277 | however writers interleave, each scan returns bytes and a count between the true totals at its start and at its end, if no total had wrapped by then |
| RegistryScan.ScansLieBetweenWithinALap | packages/alloc_tracker/src/counters.rs:31-36 | the same of the wrapped totals if none wraps during the scan, whatever wrapped before |
| RegistryScan.ProcessDeltasAreTrueExactlyWhen | packages/alloc_tracker/src/process_span.rs:152-166 | for every run, whatever wrapped before, and any two of its scans: the deltas are what was truly requested between the reads if and only if neither total wrapped between them |
| RegistryScan.ProcessSpansNeverPanic | packages/alloc_tracker/src/counters.rs:31-36 | a process span that itself does not span a wrap never panics over a decreased total, and its deltas are the true traffic up to what happened during its two scans |
| ScanWitnesses.ScansMixMoments | packages/alloc_tracker/src/counters.rs:123-129 | bytes and count of one scan need not belong to one moment |
| ScanWitnesses.WrappedTotalsPanic | packages/alloc_tracker/src/process_span.rs:152-166 | a run from the start of the process, of requests that a layout allows, in which the byte total wraps between two scans: the closing span panics |
| AllocationTracking.TrackedThread.GetOrInit | packages/alloc_tracker/src/counters.rs:208-236 | exactly one block is created and registered on first use, none later, whatever allocator events are nested inside; the guard is cleared again |
| AllocationTracking.TrackedThread.Track | packages/alloc_tracker/src/counters.rs:283-340 | counted if counters exist or can be created; a free creates none; nothing is counted inside a creation |
| AllocationTracking.TrackingAllocator.Alloc | packages/alloc_tracker/src/allocator.rs:133-180 | only a successful allocation is counted, with its size |
| AllocationTracking.TrackingAllocator.Dealloc | packages/alloc_tracker/src/allocator.rs:152-164 | a free is counted on the freeing thread, if that has counters |
| AllocationTracking.TrackingAllocator.Realloc | packages/alloc_tracker/src/allocator.rs:182-198 | only a successful reallocation is counted, with old and new size |
| TrackingRuns.BytesAreConserved | packages/alloc_tracker/src/counters.rs:302-343 | in every run of any number of threads, with frees and resizes across threads and failures: all counted net bytes are the live bytes minus what creation windows skipped plus frees on threads without counters minus what waits for its counters |
| TrackingRuns.OutstandingIsConserved | packages/alloc_tracker/src/counters.rs:61-69 | in every run whose levels fit 64 bits the sum of the outstanding cells is exact; what waits for its counters is not in it yet |
| TrackingRuns.OutstandingAtRest | packages/alloc_tracker/src/counters.rs:61-69 | with nobody inside a creation nothing is missing |
| TrackingRuns.OutstandingIsConservedModulo | packages/alloc_tracker/src/counters.rs:61-69 | in every run, whatever the levels, the sum is exact modulo 2^64 |
| TrackingRuns.CreationIsSafe | packages/alloc_tracker/src/counters.rs:208-232 | creation never recurses, no thread locks the registry twice, and each thread has at most one block |
| TrackingRuns.TriggerIsCounted | packages/alloc_tracker/src/counters.rs:283-308 | the event that triggered a creation is counted and only the ones nested inside are not |
| TrackingRuns.OnlyNestedRequestsAreSkipped | packages/alloc_tracker/src/counters.rs:283-308 | a request is skipped only by a thread that is inside a creation |
| TrackingSteps.EntersCreationExactlyWhen | packages/alloc_tracker/src/counters.rs:283-340 | a thread enters the creation of its counters if and only if it opens a span or makes a request that succeeds and is no free, has no counters and is not creating them |
| TrackingSteps.FreesCreateNothing | packages/alloc_tracker/src/counters.rs:322-336 | a free leaves threads and lock alone, and is counted on the freeing thread if that has counters and otherwise on nobody |
| TrackingSteps.RequestsReachTheirCells | packages/alloc_tracker/src/counters.rs:291-336 | a request of a thread with counters changes exactly the cells of that thread, by exactly that request; a failed request changes none |
| TrackingSteps.CreationsReachTheirCells | packages/alloc_tracker/src/counters.rs:208-232 | a creation pushes one block of zeros under the lock, publishes it, and only then counts the request that triggered it, on that block |
| TrackingSteps.HeapFollows | packages/alloc_tracker/src/allocator.rs:133-198 | which blocks are live after a step; requests that fail change none |
| TrackingSteps.ThreadsFollow | packages/alloc_tracker/src/counters.rs:190-207 | a new thread has no counters and no guard, and no step touches the thread-local state of another thread |
| TrackingSteps.SkipsAreRecorded | packages/alloc_tracker/src/counters.rs:283-340 | what no counter sees: requests of a thread creating its counters, and frees of a thread that has none and creates none |
| TrackingSteps.CreationsEnd | packages/alloc_tracker/src/counters.rs:208-232 | in every run, whatever is nested inside and whatever other threads do, four steps of its own creation give a thread its counters for good |
| OperationMetrics.Metrics.AddSpan | packages/alloc_tracker/src/operation_metrics.rs:42-61 | adds one span to all figures, or panics exactly if one of them leaves 64 bits |
| OperationMetrics.Metrics.Merge | packages/alloc_tracker/src/operation_metrics.rs:171-204 | adds all figures of another operation, or panics exactly if one leaves 64 bits |
| MetricsAlgebra.PlusCommutes | packages/alloc_tracker/src/operation_metrics.rs:171-234 | merging is commutative |
| MetricsAlgebra.PlusAssociates | packages/alloc_tracker/src/operation_metrics.rs:171-234 | merging is associative |
| MetricsAlgebra.EmptyIsNeutral | packages/alloc_tracker/src/operation_metrics.rs:254-260 | empty metrics are neutral |
| MetricsAlgebra.FoldAppends | packages/alloc_tracker/src/operation_metrics.rs:171-204 | merging two operations is recording the spans of both |
| MetricsAlgebra.FoldIgnoresOrder | packages/alloc_tracker/src/operation_metrics.rs:42-61 | the order of the spans does not matter |
| MetricsAlgebra.FoldAddsUp | packages/alloc_tracker/src/operation_metrics.rs:42-61 | the totals are the sums of iterations, bytes and counts, and each estimator holds one sample a span of its own figure, the peak being scaled as a level |
| MetricsAlgebra.PeakNeedsEverySpan | packages/alloc_tracker/src/operation_metrics.rs:208-234 | the peak is not withheld if and only if every recorded span had one |
| MetricsAlgebra.PeakIsReportedExactlyWhen | packages/alloc_tracker/src/report.rs:334-352 | a peak is reported if and only if, besides, some span covered an iteration |
| Reports.Merge | packages/alloc_tracker/src/report.rs:211-227 | the loop over the second report adds the figures name by name to a copy of the first, or panics exactly if some sum leaves 64 bits |
| Reports.SessionReportIsWhole | packages/alloc_tracker/src/report.rs:152-170 | a session reports per name the fold of its spans, and panics if and only if that does not fit |
| Reports.PlusReportsCommutes | packages/alloc_tracker/src/report.rs:211-227 | merging reports is commutative |
| Reports.PlusReportsAssociates | packages/alloc_tracker/src/report.rs:211-227 | merging reports is associative |
| Reports.EvaluateIsWhole | packages/alloc_tracker/src/report.rs:211-227 | any tree of merges gives the report of all recorded spans |
| Reports.GroupingDoesNotMatter | packages/alloc_tracker/src/report.rs:211-227 | one session equals any sessions holding the same spans, in any order and merged in any grouping, panics included |
| Reports.PeakSurvivesExactlyWhen | packages/alloc_tracker/src/report.rs:211-227 | per name a merged report does not withhold the peak if and only if every span recorded anywhere under it had one |
| Reports.PeakIsShownExactlyWhen | packages/alloc_tracker/src/report.rs:334-352 | per name a merged report shows a peak if and only if, besides, some of these spans covered an iteration |
| Reports.EvaluateAddsUp | packages/alloc_tracker/src/report.rs:211-227 | per name the figures of a merged report are exactly the sums and samples of the spans recorded anywhere under it, and the names are those declared or recorded |
| Reports.SpansOfAreRecorded | packages/alloc_tracker/src/report.rs:152-170 | the spans of a name are those recorded under it, each as often as it was |
| Markers.UniqueValueIsExact | packages/cargo-bench-history-github/src/marker.rs:141-147 | a value is read exactly if one line alone carries the key, and is that closed marker |
| Markers.OwnerIsFoundExactlyWhen | packages/cargo-bench-history-github/src/marker.rs:50-61 | an owner is found exactly if the one line of the key spells it: plus signs, leading zeros and upper-case digits are the only freedom |
| Markers.StateIsFoundExactlyWhen | packages/cargo-bench-history-github/src/marker.rs:141-147 | a state is found exactly if one line alone carries the key and is closed; it is then whatever stands between |
| Markers.ShaIsFoundExactlyWhen | packages/cargo-bench-history-github/src/marker.rs:141-147 | a commit is found exactly if, besides, that is forty hexadecimal digits of any case; it is read as lower case |
| Markers.OwnerRoundTrips | packages/cargo-bench-history-github/src/marker.rs:39-61 | a printed owner is read back from every body with one line of the key |
| Markers.StateRoundTrips | packages/cargo-bench-history-github/src/marker.rs:64-74 | the same for the state |
| Markers.ShaRoundTrips | packages/cargo-bench-history-github/src/marker.rs:22-28 | the same for the measured commit |
| Markers.RepeatedIsUnusable | packages/cargo-bench-history-github/src/marker.rs:140-147 | two lines of a key are read by no lookup |
| Markers.MarkersAreSeparate | packages/cargo-bench-history-github/src/marker.rs:148-151 | a marker is read only under its own instance, because instance names have no colon |
| Markers.KeysAreSeparate | packages/cargo-bench-history-github/src/model.rs:74-83 | markers with values are read only under their own key and instance |
| Markers.PlainMarkersHaveNoKey | packages/cargo-bench-history-github/src/marker.rs:14-36 | markers without a value are read under no key |
| Texts.ParseAcceptsExactlySpellings | packages/cargo-bench-history-github/src/marker.rs:54-55 | which texts Rust parses as a given unsigned number |
| Texts.FoldAlikeExactlyWhen | packages/cargo-bench-history-faker/src/writers.rs:560-578 | names fold alike exactly if they differ in the case of ASCII letters only |
| StaleBanner.RemoveBlocks | packages/cargo-bench-history-github/src/message.rs:169-189 | the scan keeps what the specification keeps |
| StaleBanner.ReadBlock | packages/cargo-bench-history-github/src/message.rs:175-184 | the inner loop ends at the first end line or with the body |
| StaleBanner.InsertStaleBanner | packages/cargo-bench-history-github/src/message.rs:161-203 | the whole rewriter is its specification on lines |
| StaleBanner.KeepsExactlyTheOutside | packages/cargo-bench-history-github/src/message.rs:167-189 | exactly the lines that are in no complete block stay, in their order |
| BannerLaws.ExactlyOneBlock | packages/cargo-bench-history-github/src/message.rs:191-202 | whatever the body, the lines that are joined have exactly one complete block: the banner, behind the first marker |
| RepeatedBanner.ExactlyOneBlockExactlyWhen | packages/cargo-bench-history-github/src/message.rs:161-203 | the returned text, read again, has the banner as its only complete block if and only if losing a carriage return each makes no block of the lines kept before it or of those behind it |
| RepeatedBanner.OneBlockWithoutCr | packages/cargo-bench-history-github/src/message.rs:161-203 | in particular it has for every body of which no line that stays ends in a carriage return |
| RepeatedBanner.HiddenBlockAppears | packages/cargo-bench-history-github/src/message.rs:161-203 | a body whose returned text has two complete blocks |
| BannerLaws.KeepAroundBanner | packages/cargo-bench-history-github/src/message.rs:167-189 | a later scan removes the banner together with a start left open before it, and nothing behind it |
| RepeatedBanner.SecondWarningReplacesFirstExactlyWhen | packages/cargo-bench-history-github/src/message.rs:161-203 | warning twice equals only the second warning if and only if the first kept marker is not an unterminated start, no kept line that another follows ends in a carriage return, and the text does not end in an empty line |
| RepeatedBanner.UnterminatedStartIsLost | packages/cargo-bench-history-github/src/message.rs:186-188 | a body for which the first condition fails |
| RepeatedBanner.TrailingLineIsLost | packages/cargo-bench-history-github/src/message.rs:202-202 | a body for which the last condition fails |
| BannerLookups.LookupSurvivesExactlyWhen | packages/cargo-bench-history-github/src/marker.rs:141-147 | if the removed lines have no line of a key, its lookup is unchanged except exactly if the one line of the key hides its end behind a second carriage return and another line follows |
| BannerLookups.HiddenStateIsExposed | packages/cargo-bench-history-github/src/message.rs:161-203 | a body for which that exception happens |
| BannerLookups.WarningKeepsMetadata | packages/cargo-bench-history-github/src/message.rs:161-203 | owner, state and measured commit of any instance read as before |
| Messages.BodyIsReport | packages/cargo-bench-history-github/src/message.rs:16-75 | a composed report has its four markers as lines of their own in front of its text |
| Messages.BodyWords | packages/cargo-bench-history-github/src/message.rs:20-68 | the composed body word by word: four markers and the text, an empty line between them, with the words for kind and state |
| Messages.BannerWords | packages/cargo-bench-history-github/src/message.rs:191-198 | the four lines of a warning banner word by word |
| Messages.NonEmptyByOne | packages/cargo-bench-history-github/src/message.rs:16-75 | exactly the sections with text are joined, in order |
| Messages.ReportsKeepTheirMetadata | packages/cargo-bench-history-github/src/message.rs:16-75 | for every report whose other sections do not imitate its markers and every series of warnings, owner, state and commit are read back exactly |
| HistoryStream.AppendCommit | packages/cargo-bench-history-stress/src/repo.rs:122-153 | the pieces appended are the text of one commit |
| HistoryStream.BuildStream | packages/cargo-bench-history-stress/src/repo.rs:93-119 | the two loops write the planned commits in order, marks from 1 on, only the first feature commit with a parent |
| HistoryStream.CommitIsRead | packages/cargo-bench-history-stress/src/repo.rs:122-153 | a written commit is read back with branch, mark, whole seconds, message, parent and file, whatever commits follow |
| HistoryStream.CommitWords | packages/cargo-bench-history-stress/src/repo.rs:122-153 | the text of one commit word by word |
| HistoryStream.SecondsAreExact | packages/cargo-bench-history-stress/src/repo.rs:133-140 | the date written is the one whole second that the time falls into, counted towards the epoch |
| SeededHistory.StreamImportsExactlyWhen | packages/cargo-bench-history-stress/src/repo.rs:93-119 | importing the stream succeeds if and only if there is a main commit or no feature commit, and builds one chain with the feature commits on the tip of main |
| SeededHistory.PlanExecutes | packages/cargo-bench-history-stress/src/repo.rs:97-116 | each planned commit continues its branch, or forks at the tip of main |
| ExportedMarks.ParseMarks | packages/cargo-bench-history-stress/src/repo.rs:203-216 | the loop gives the map of the lines, the last line about a mark counting |
| ExportedMarks.ResolveCommits | packages/cargo-bench-history-stress/src/repo.rs:219-252 | all commits in order if and only if every mark is there; else the first missing mark |
| ExportedMarks.ExportParsesBack | packages/cargo-bench-history-stress/src/repo.rs:203-216 | whatever the order of the export, parsing it gives exactly the IDs |
| ExportedMarks.MarkOfExactlyWhen | packages/cargo-bench-history-stress/src/repo.rs:206-213 | which lines say something: a spelled mark, with or without a colon, a space, and the ID |
| ExportedMarks.LastLineCounts | packages/cargo-bench-history-stress/src/repo.rs:203-216 | the map holds for each mark what the last line about it says |
| ExportedMarks.SeededCommitsAreTheImportedOnes | packages/cargo-bench-history-stress/src/repo.rs:203-252 | whatever IDs the imported commits have and in whatever order they are exported, every mark resolves, and to the commit with its date in whole seconds and its parent |
| ExportedMarks.BuildRepo | packages/cargo-bench-history-stress/src/repo.rs:49-90 | writing, importing and resolving in a row: fails exactly without a main commit, and else gives for each branch exactly its imported commits, in order |
| FileNames.SanitizedIsComponent | packages/folo_utils/src/file_name.rs:5-36 | the result is one ordinary path component on every system |
| FileNames.SanitizedExactlyWhen | packages/folo_utils/src/file_name.rs:16-36 | exactly the names that already are one stay as they are |
| FileNames.SanitizedIsExactly | packages/folo_utils/src/file_name.rs:16-36 | trailing dots go, every other character stays or becomes an underscore, and one more is put in front exactly if nothing is left or the name is reserved |
| FileNames.SafeCharacters | packages/folo_utils/src/file_name.rs:16-26 | the safe characters, written out |
| FileNames.ReservedExactlyWhen | packages/folo_utils/src/file_name.rs:40-66 | a name is reserved exactly if it is a device, in any case, or a device with an extension |
| OutputPaths.AssertUniqueOutputPaths | packages/cargo-bench-history-faker/src/writers.rs:560-578 | the quadratic scan accepts if and only if the folded paths are pairwise prefix-free; else it names the first conflict |
| OutputWrites.WritesCasesExactlyWhen | packages/cargo-bench-history-faker/src/writers.rs:222-233 | on a case-insensitive tree all cases are written without a failure and without replacing a file if and only if nothing is in their way and their files are apart |
| OutputWrites.AnyOrderWritesTheSame | packages/cargo-bench-history-faker/src/writers.rs:222-233 | such cases can be written in any order and give the same tree |
| OutputWrites.CleanWritesHold | packages/cargo-bench-history-faker/src/writers.rs:222-233 | after clean writing every file of every case is there with its content, and all other files are as before |
| OutputCases.WriteAll | packages/cargo-bench-history-faker/src/writers.rs:230-232 | the loop writes one case after the other up to the first failure |
| OutputCases.WriteCallgrindCases | packages/cargo-bench-history-faker/src/writers.rs:222-233 | colliding groups are rejected before anything is written |
| OutputCases.WriteCriterionCases | packages/cargo-bench-history-faker/src/writers.rs:368-378 | colliding cases are rejected before anything is written |
| OutputCases.CallgrindScanIsExact | packages/cargo-bench-history-faker/src/writers.rs:190-233 | the scan accepts exactly the cases whose summaries are apart |
| OutputCases.CriterionScanIsExact | packages/cargo-bench-history-faker/src/writers.rs:293-378 | scanning the benchmark files accepts exactly the cases whose benchmark and estimates files are all apart |
| OutputCases.DirectoriesByPosition | packages/cargo-bench-history-faker/src/writers.rs:190-197 | each path component comes from its own part of the case, sanitized |
| OutputCases.CriterionCasesNeverCollide | packages/cargo-bench-history-faker/src/writers.rs:315-378 | cases that pass are written cleanly in any order with one result; cases that do not pass would fail or replace a file |
| OutputCases.CallgrindCasesNeverCollide | packages/cargo-bench-history-faker/src/writers.rs:183-233 | the same for Callgrind groups, which nest |
| FileTrees.FilesAfterPut | packages/cargo-bench-history-figures/src/assets.rs:102-108 | writing changes the one file and no other |
| FileTrees.FilesAfterRemove | packages/cargo-bench-history-figures/src/assets.rs:98-100 | removing takes away the one file and no other |
| FileTrees.PutsExactlyWhen | packages/cargo-bench-history-figures/src/assets.rs:103-108 | a file can be written if and only if only directories are above it and at most a regular file in its place |
| GeneratedAssets.ValidateRegisteredPath | packages/cargo-bench-history-figures/src/assets.rs:166-179 | accepts exactly the paths without an empty, `.` or `..` segment |
| GeneratedAssets.CollectExtras | packages/cargo-bench-history-figures/src/assets.rs:190-225 | the recursive walk ends and appends the unregistered files |
| GeneratedAssets.ExtrasAreExact | packages/cargo-bench-history-figures/src/assets.rs:190-225 | it finds exactly the regular files that are not registered |
| GeneratedAssets.ExtrasAreDistinct | packages/cargo-bench-history-figures/src/assets.rs:190-225 | it finds none twice |
| GeneratedAssets.CheckRegistry | packages/cargo-bench-history-figures/src/assets.rs:113-152 | the loop reports what the specification reports |
| AssetLaws.WriteRegistry | packages/cargo-bench-history-figures/src/assets.rs:96-110 | deletes, then writes, as specified |
| AssetLaws.CheckIsCleanExactlyWhen | packages/cargo-bench-history-figures/src/assets.rs:113-152 | a check is clean if and only if the registry is valid and the regular files under the root are exactly the registered ones with equal contents |
| AssetLaws.ReportIsExact | packages/cargo-bench-history-figures/src/assets.rs:113-152 | reported are exactly the assets whose file has other text, those that have no file with only directories above, and the extra files |
| AssetLaws.ChecksExactlyWhen | packages/cargo-bench-history-figures/src/assets.rs:113-152 | the check has an answer exactly if the paths are plain, the root is a directory or absent, and every registered file holds text or is missing |
| FileTrees.NotFoundExactlyWhen | packages/cargo-bench-history-figures/src/assets.rs:119-131 | reading finds nothing exactly if nothing is there and only directories are above it |
| AssetLaws.WritingMakesTheCheckClean | packages/cargo-bench-history-figures/src/assets.rs:96-152 | every successful write of different paths leads to a clean check, whatever was there before |
| AssetLaws.WriteSucceedsExactlyWhen | packages/cargo-bench-history-figures/src/assets.rs:96-110 | a write succeeds if and only if the registry is valid, the root is a directory or missing, no registered path is inside of another, and only regular files are in the way |
| AwaiterSets.Awaiter.constructor | packages/awaiter_set/src/awaiter.rs:115-127 | a new awaiter is idle and in no set |
| AwaiterSets.AwaiterSet.constructor | packages/awaiter_set/src/set.rs:144-154 | a new set is empty, in generation one |
| AwaiterSets.AwaiterSet.ReplaceWaker | packages/awaiter_set/src/set.rs:187-193 | only the waker of that entry changes |
| AwaiterSets.AwaiterSet.Insert | packages/awaiter_set/src/set.rs:196-230 | fields, links and phase of a new registration; the sequence grows at its end |
| AwaiterSets.AwaiterSet.IsEmpty | packages/awaiter_set/src/set.rs:157-159 | a null head says exactly that nobody waits |
| AwaiterSets.AwaiterSet.Stamp | packages/awaiter_set/src/set.rs:196-206 | the fields of a new registration are filled in without touching the chain |
| AwaiterSets.AwaiterSet.LinkAtTail | packages/awaiter_set/src/set.rs:212-228 | the chain is extended behind its last node |
| AwaiterSets.AwaiterSet.Remove | packages/awaiter_set/src/set.rs:369-411 | the waker of the removed awaiter is there to return |
| AllocationCounters.PerThreadCounters.RegisterAllocation | packages/alloc_tracker/src/counters.rs:103-106 | an allocation counts once, with its size, and raises the level |
| AllocationCounters.PerThreadCounters.RegisterDeallocation | packages/alloc_tracker/src/counters.rs:108-115 | a free lowers the level and nothing else |
| ProcessSpans.ProcessSpan.constructor | packages/alloc_tracker/src/process_span.rs:88-105 | opening remembers the two totals |
| OperationMetrics.Metrics.AddToEstimates | packages/alloc_tracker/src/operation_metrics.rs:52-61 | the three estimates each get one sample, or the first one that is full panics |
| HistoryStream.AppendBody | packages/cargo-bench-history-stress/src/repo.rs:143-152 | message, parent and file change of one commit |
| HistoryStream.AppendFeature | packages/cargo-bench-history-stress/src/repo.rs:106-116 | the feature commits behind the main ones |
| GeneratedAssets.RegisteredPaths | packages/cargo-bench-history-figures/src/assets.rs:155-162 | the set of all paths, or an error exactly if one of them is not plain |
| GeneratedAssets.ExtraFilesOf | packages/cargo-bench-history-figures/src/assets.rs:182-204 | no files for a missing root, an error for a root that is no directory |

## Left out

- Memory orderings: `NotificationProtocol`, `RegistryScan` and `TrackingProcess` interleave single accesses to shared memory; what relaxed atomics allow beyond that is not modelled.
- Pinning, `Send` and `Sync`, aliasing rules and the unsafe contracts behind them are preconditions (`Legal`, `Enabled`) or absent; calls that fail a debug assertion are excluded there.
- Waking a task: a waker is an identity that is handed out; what the woken task does is any sequence of further operations.
- SpanAccumulator: its five floating-point sums are represented by the span counts and the multiset of samples they are sums of, so order and grouping of floating-point additions are not distinguished; slopes and intervals are not computed.
- OperationMetrics.Metrics.Record: after a panic under the lock nobody can read the figures, so nothing is said about what they are then.
- The allocator's own heap is the list of live block sizes; addresses, alignment and the zeroing of `alloc_zeroed` are not modelled, and zero-sized layouts are excluded as they are for any global allocator.
- The `panic_on_next_alloc` switch, fake allocations and the `all_the_time` crate, which has the session and report structure without watermarks.
- ExportedMarks.BuildRepo: Git's answers are parameters, the IDs of the commits and the order of their export; running Git, the pipe, the marks file and the work tree are not part of this model, except that resetting to a branch that does not exist fails.
- ExportedMarks.ResolveCommits: names the missing mark instead of composing the error text.
- HistoryStream.AppendCommit: takes one commit as a record, and times as nanoseconds whose whole seconds fit 64 bits, which every date of the `jiff` crate does; how git dates commits before 1970 is not modelled.
- SeededHistory.StreamImportsExactlyWhen: asks for at most 2^64 - 1 commits, so that the saturating additions of the original never saturate; commits are known by their marks, and their SHA-1 identities are a parameter.
- FileTrees: symbolic links, permissions, other causes of input or output errors, and what is left of a tree after a failed write; names are text, and path segments are judged as on Unix.
- GeneratedAssets.CollectExtras: the order of the extra files, which the original sorts before reporting them, and the wording of the report.
- OutputCases.WriteCriterionCases: file contents are parameters; the JSON documents, the argument parsers and the flat files of the two trackers are not modelled.
- Messages: the headline, scope, summary and link sections are arbitrary texts; pending, failed and inconclusive notes, which use the same markers, are not composed.
- StaleBanner.InsertStaleBanner: the position of the first marker is an expression as in the original, and the two loops are two methods.
- HistoryStream.BuildStream: its loop over feature commits is a method of its own.
- Cargo target discovery, table and JSON output, GitHub REST access, command-line parsing, process spawning, figure drawing, and the crates not named above.
