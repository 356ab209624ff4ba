# Hiview: a Dafny model of its scheduling, delivery and bookkeeping core

Hiview is an event-driven plug-in platform. This project models the parts of it whose correctness does
not show in any single function, and proves what they guarantee over all inputs, all runs and all
interleavings:

- **Event scheduler** (`EventPriorityQueue.dfy`, `EventLoop.dfy`, `EventLoopProtocol.dfy`). The queue is a
  binary heap class that refines a multiset. The loop is a class whose methods are the regions that hold
  the queue lock; each method is proved to be a step of a transition system, and the theorems about
  cancellation, conservation, order and timing hold for every run of that system.
- **Pipeline delivery** (`PipelineEvent.dfy`, `PipelineProtocol.dfy`). The event class has the mutually
  recursive `OnContinue`/`OnEventProxy`; it is proved equal to one guard-free walk along the processors. The
  transition system adds work loops and foreign threads, down to the single reads of the guard.
- **Definition cache** (`DefinitionCache.dfy`, `CacheReload.dfy`). A lazy cache with negative entries and a
  capacity flush, and its two-lock reload against concurrent lookups.
- **Fault correlators** (`CrashValidator.dfy`, `NearestRecords.dfy`, `FreezeResolver.dfy`).
- **Names, strings, limits and counters** (`TextOrder.dfy`, `LogRotation.dfy`, `ExportFiles.dfy`,
  `StringUtil.dfy`, `JsonEscape.dfy`, `RateLimit.dfy`, `PeriodCounters.dfy`).

`dafny verify dfyconfig.toml` checks the whole project.

## Results about the code that a caller should know

Some expectations do not hold of the code in general. For each there is a lemma with a run or an input that
shows it, and a lemma that says exactly when the expectation holds.

- A pended event that is continued without clearing its pending flag is lost as soon as the next live
  plug-in is not interested (`PipelineProtocol.EventGetsLost`). In every run this is the only way to lose an
  event (`PipelineProtocol.LostIff`, `PipelineEvents.PendedContinueStrandsIff`), so if the flag is always
  cleared first, none is lost (`PipelineProtocol.NeverLost`).
- Clearing the flag and continuing, as the event logger does, is safe exactly if the plug-in that pended the
  event has returned (`PipelineProtocol.ResetSafeIff`); otherwise the event can be advanced twice
  (`PipelineProtocol.ResetRaces`).
- Cancellation by handle is not final if handles repeat (`EventLoopProtocol.DuplicateHandleSurvivesCancel`).
  It is final, over everything that can happen until the handle is accepted again, exactly if the handle was
  live at most once: `EventLoopProtocol.CancelIsFinalIff`.
- A timer can fire too early when its arithmetic does not fit in 64 bits
  (`EventLoopProtocol.OverflowDispatchesAtOnce`). In every run its first dispatch waits the requested seconds
  exactly if the product fits (`EventLoops.TimerWaitsIff`), and each later one keeps the interval exactly if the
  sum fits (`EventLoopProtocol.IntervalKeptIff`).
- The nearest record is found for all record sequences exactly when the trigger's time is neither 0 nor
  2^64 - 1: `NearestRecords.NearestIff`.
- A process whose crash was reported before its exit can be declared unmatched, because the report tables
  are emptied with the last registered exit: `CrashValidators.EarlyCrashUnmatched`. An exit is unmatched
  exactly if each report of its pid was refused by a full table or dropped in this way, or with an earlier
  exit of the same pid: `CrashValidators.DismatchIff`.
- An event with a long interval is accepted again too early if another event whose name occurs in its tag
  comes along with a shorter interval: `RateLimit.ShortIntervalLetsThrough`, and exactly when:
  `RateLimit.AcceptedIff`.
- A recovery rule with an empty window counts as matched under the trigger's own name, so that a UI freeze is
  reported when another rule failed to match: `FreezeResolvers.EmptyWindowRecoveryMisjudged`, with an input in
  `FreezeResolvers.MisjudgedInput`. The judgement is right exactly if the recovery rule has a window or the
  number of unmatched rules is not one: `FreezeResolvers.UiFreezeRightIff`.

## Hypotheses

- Handles are clock samples taken outside the lock; theorems that need them distinct and non-zero say so. The
  spacing of dispatches assumes that the loop thread's clock does not go back.
- A run of `PipelineProtocol` clears a pending flag only when the plug-in that pended the event has returned.
  `PipelineProtocol.ResetSafeIff` shows that exactly this is needed.
- A plug-in's delayed call runs on that plug-in's own single-threaded work loop, so it starts after the
  plug-in's earlier call has returned. One iteration of `OnContinue` is one step.
- The definition file at the loaded path does not change between reloads; the JSON reader, the meaning of a
  definition and the privacy settings are parameters, the reader with the contract that the recorded slice
  of a domain parses to what the whole file says.
- Crash times are non-negative 63-bit numbers. The clock of the rate limiter and of the export files does
  not go back.
- Log file names that begin with a writer's prefix were made by that writer, with whatever indices.
- For export files: directory and prefix together, and the extension, hold no fourteen digits in a row; the
  prefix does not end in a digit and does not occur in the directory part; the extension begins with neither
  a digit nor an underscore; at least one file may be kept; and running numbers stay below `INT_MAX`. Of the
  files the scan picks up, the one that sorts last has this naming and extension and is not dated later than
  now; the others may have any name. Successive calls keep this up by themselves.
- Deleting and creating files succeeds.

## Model

| member | source | states |
|---|---|---|
| EventPriorityQueues.RootIsLeastOfAll | base/include/event_loop.h:77-81 | the root of the heap is an entry with the least target time of all entries |
| EventPriorityQueues.EventPriorityQueue.Top | base/event_loop.cpp:479 | returns an entry whose target time is least among all queued |
| EventPriorityQueues.EventPriorityQueue.Push | base/event_loop.cpp:176 | adds exactly the new entry to the multiset and keeps heap order |
| EventPriorityQueues.EventPriorityQueue.Pop | base/event_loop.cpp:487 | takes exactly the root out of the multiset and keeps heap order |
| EventPriorityQueues.EventPriorityQueue.SiftUp | base/include/event_priority_queue.h:22 | restores heap order from one misplaced leaf without changing the multiset |
| EventPriorityQueues.EventPriorityQueue.SiftDown | base/include/event_priority_queue.h:31 | restores heap order below one misplaced entry without changing the multiset |
| EventPriorityQueues.EventPriorityQueue.Remove | base/include/event_priority_queue.h:24-36 | true exactly when the handle is queued; deletes exactly one match and restores heap order |
| EventPriorityQueues.EventPriorityQueue.MakeHeap | base/include/event_priority_queue.h:31 | any vector becomes a heap with the same multiset |
| EventLoops.TimerWaitsIff | base/event_loop.cpp:213-224 | in every run an accepted timer's first dispatch comes after the requested seconds exactly if the product fits in 64 bits |
| EventLoops.EventLoop.AddEvent | base/event_loop.cpp:164-179 | refuses after a stop, otherwise queues exactly one event of the caller's job, due now, not repeating, with the clock sample as its handle; is an accept step |
| EventLoops.EventLoop.AddTimerEvent | base/event_loop.cpp:206-234 | refuses after a stop or on overflow of the sum, otherwise queues exactly one event with the requested repetition, the interval and the target time in nanoseconds; is an accept step |
| EventLoops.EventLoop.RemoveEvent | base/event_loop.cpp:236-247 | is a cancel step: a running event loses its handle, otherwise one queued match goes; true exactly when a queued one went |
| EventLoops.EventLoop.FetchNextEvent | base/event_loop.cpp:461-490 | is a dispatch step of the earliest due event, or reports the time left until the earliest one and changes nothing |
| EventLoops.EventLoop.ReInsertPeriodicEvent | base/event_loop.cpp:513-525 | is a requeue step: the event goes back for its interval from now, modulo 2^64, unless cancelled meanwhile |
| EventLoops.EventLoop.SettleEvent | base/event_loop.cpp:454-455 | is the settle step that clears the slot |
| EventLoops.EventLoop.ProcessOne | base/event_loop.cpp:430-459 | one undisturbed iteration takes the earliest due event out and puts it back exactly if it is repeating, has a positive interval and was not cancelled |
| EventLoops.EventLoop.constructor | base/event_loop.cpp:53-55 | the loop starts in the initial state of the transition system |
| EventLoops.EventLoop.StartLoop | base/event_loop.cpp:122-133 | runs from then on if a notifier can be had, and keeps what is queued |
| EventLoops.EventLoop.StopLoop | base/event_loop.cpp:143-162 | refuses further events and drops everything queued if the loop was running |
| EventLoopProtocol.Conservation | base/event_loop.cpp:143-525 | in every run, for every handle: accepted = live + completed, cancelled or cleared |
| EventLoopProtocol.CancelTakesOne | base/event_loop.cpp:236-247 | a cancellation takes exactly one live event of its handle, if there is one, and none of any other |
| EventLoopProtocol.RetiredForGood | base/event_loop.cpp:430-525 | a handle that completed, was cancelled or was cleared is never live or dispatched again |
| EventLoopProtocol.CancelIsFinalIff | base/event_loop.cpp:236-247 | with handles repeated or not: no continuation dispatches a cancelled handle before it is accepted again, exactly if it was live at most once |
| EventLoopProtocol.CancellationSafety | base/event_loop.cpp:236-247 | over all interleavings, once RemoveEvent has held the lock no later fetch dispatches the handle |
| EventLoopProtocol.DuplicateHandleSurvivesCancel | base/event_loop.cpp:170-176 | a run in which a clock sample is used twice and the cancelled handle is dispatched |
| EventLoopProtocol.LiveOriginates | base/event_loop.cpp:486-523 | every live event is an accepted one up to its two time fields |
| EventLoopProtocol.OneShotAtMostOnce | base/event_loop.cpp:440-456 | an accepted event that is not repeating or has no interval is dispatched at most once in any run |
| EventLoopProtocol.RepeatGoesBack | base/event_loop.cpp:448-455 | a dispatched repeating event that nobody cancels while it runs goes back into the queue, and its iteration cannot end before that |
| EventLoopProtocol.DispatchesInTargetOrder | base/event_loop.cpp:479-488 | while nothing is queued in between, dispatches come in target order and none is early |
| EventLoopProtocol.RequeuedNotBefore | base/event_loop.cpp:448-452 | after a dispatch, whatever is queued under the handle is due no earlier than one interval later |
| EventLoopProtocol.TimerSpacing | base/event_loop.cpp:448-525 | successive dispatches of a repeating timer are at least its interval apart if the sum that put it back between them fits |
| EventLoopProtocol.IntervalKeptIff | base/event_loop.cpp:513-525 | in every run the next dispatch after a re-insertion keeps the interval exactly if the sum fits in 64 bits |
| EventLoopProtocol.FirstDispatch | base/event_loop.cpp:479-488 | the first dispatch of an accepted event is of that event unchanged, and not before its target time |
| EventLoopProtocol.OverflowDispatchesAtOnce | base/event_loop.cpp:522 | for every overflowing sum a run that dispatches the timer twice at the same instant |
| PipelineProtocol.SingleHolder | base/pipeline.cpp:34-84 | in every run at most one party holds the event, it is recycled at most once and exactly when finished, and OnContinue never meets a finished event |
| PipelineProtocol.VisitsInOrder | base/pipeline.cpp:45-69 | plug-ins are visited in pipeline order, each at most once, and the rest were found dead or not interested |
| PipelineProtocol.FinishIsFinal | base/pipeline.cpp:72-84 | after finishing nothing is visited, popped or recycled |
| PipelineProtocol.StepKeepsInv | base/plugin.cpp:55-83 | every step keeps the invariant that calls without the event cannot get through the guard |
| PipelineProtocol.ReadSizeKeepsInv | base/plugin.cpp:77-80 | the size comparison lets only the holder advance, so the number of holders does not change |
| PipelineProtocol.RedeliverKeepsInv | base/plugin.cpp:85-96 | a delayed second call of the same plug-in keeps the invariant |
| PipelineProtocol.LostIff | base/pipeline.cpp:34-70 | in every run the event is held by nobody and unfinished exactly if it was passed over an uninterested plug-in with its pending flag set |
| PipelineProtocol.EventGetsLost | base/pipeline.cpp:54-59 | a run in which that happens, for every pipeline of at least two plug-ins |
| PipelineProtocol.NeverLost | base/pipeline.cpp:34-70 | if pended events are continued with the flag cleared, an event is held by someone until it is finished |
| PipelineProtocol.GuardLetsThrough | base/plugin.cpp:77-80 | a call that entered at the present size walks through the guard once the flag is cleared, making two holders |
| PipelineProtocol.ResetSafeIff | plugins/eventlogger/event_logger.cpp:1579-1583 | at any point of any run, clearing the flag and continuing stays single-handed in all continuations exactly if the plug-in that pended has no call left |
| PipelineProtocol.RunKeepsPlaced | base/plugin.cpp:62 | in every run a call entered with exactly the plug-ins after its own left, and so many are left while its plug-in holds the event pended |
| PipelineProtocol.ResetRaces | plugins/eventlogger/event_logger.cpp:1579-1583 | a run that pends, and a continuation after clearing the flag at once that ends with two holders, for every pipeline that is not empty |
| PipelineEvents.PipelineEvent.OnFinish | base/pipeline.cpp:72-84 | marks the event finished and recycles it once if it has a producer |
| PipelineEvents.PipelineEvent.OnContinue | base/pipeline.cpp:34-70 | the event passes the plug-ins up to the first that stops it (work loop, pend, finish, or not interested with the flag set), visiting the eligible ones; it is handed over, pended, finished and recycled, or stranded accordingly, with the flag that leaves |
| PipelineEvents.PipelineEvent.OnEventProxy | base/plugin.cpp:55-83 | a plug-in that finishes or pends the event leaves it at that; otherwise the event is passed on exactly once, as by OnContinue |
| PipelineEvents.PipelineEvent.ProcessEvent | base/pipeline.cpp:138-142 | an event is passed along the whole pipeline in the same way |
| PipelineEvents.PipelineEvent.FillPipelineInfo | base/pipeline.cpp:102-122 | delivery starts at the first live plug-in with the caller's name, or nowhere |
| PipelineEvents.WalkProgress | base/plugin.cpp:77-80 | a walk that does not end the event shortens the list, which is why the size guard works |
| PipelineEvents.WalkVisitsEligible | base/pipeline.cpp:45-69 | a walk visits exactly the live, interested plug-ins of the prefix it consumes, in order |
| PipelineEvents.WalkIsDelivery | base/pipeline.cpp:34-70 | every walk ends at the first plug-in of the list that stops the event, in the way that plug-in says, and else at the end of the list |
| PipelineEvents.WalkEndFits | base/pipeline.cpp:61-65 | by the last plug-in visited: queued exactly if it has a work loop, pended exactly if it runs inline and pends, done exactly if it runs inline and finishes or the list ran out |
| PipelineEvents.WalkCompletes | base/pipeline.cpp:34-70 | if everybody passes the event on, all live, interested plug-ins see it and it is finished |
| PipelineEvents.PendedContinueStrandsIff | base/pipeline.cpp:54-59 | continuing with the flag set strands the event exactly when the next live plug-in is not interested |
| PipelineEvents.ResetContinueReaches | plugins/eventlogger/event_logger.cpp:1579-1583 | with the flag cleared the next eligible plug-in is reached or the event is finished |
| Definitions.FreshIsFile | base/domain_json_parser.cpp:58-110 | index and slices answer what the whole definition file says |
| Definitions.DomainJsonParser.CacheDomainJsonLocation | base/domain_json_parser.cpp:42-71 | succeeds exactly on a readable file, then indexes all its domains; otherwise keeps the old index |
| DefinitionCaches.EventJsonParser.GetDefinedBaseInfoByDomainName | base/event_json_parser.cpp:165-205 | answers what a fresh parse gives, keeps the cache transparent and entries <= counter < 3000 across the flush |
| DefinitionCaches.AddOnePair | base/event_json_parser.cpp:186-194 | a miss adds exactly one pair of domain and name, so that counting misses bounds the cache |
| DefinitionCaches.EventJsonParser.ReadDefFile | base/event_json_parser.cpp:348-356 | the cache is empty and transparent for whatever definitions are then loaded; the counter is kept |
| CacheReload.CacheBound | base/event_json_parser.cpp:194-203 | under every interleaving entries <= counter < 3000 |
| CacheReload.ReloadSafety | base/event_json_parser.cpp:348-363 | after a successful reload has cleared the cache, every answer comes from its definitions and settings or newer ones, for the event and for each parameter |
| CacheReload.ReloadTakesEffect | base/event_json_parser.cpp:348-363 | if no other update intervenes, every answer is that of a fresh parse of exactly its definitions under exactly its settings |
| CacheReload.QuietAnswersAreFresh | base/event_json_parser.cpp:165-205 | an answer given while no reload is under way is that of a fresh parse of the current definitions and settings |
| CacheReload.LookupIsRun | base/event_json_parser.cpp:165-205 | an undisturbed lookup of the parser class, with its nested cache, is a piece of a run of the steps with the same answer |
| CacheReload.ReloadIsRun | base/event_json_parser.cpp:348-363 | an undisturbed update of the parser class is the three steps of a reload |
| CrashValidators.CrashValidator.AddEventToMap | plugins/crash_validator/crash_validator.cpp:153-183 | admits an exit once per pid, keeps the earliest report per pid, refuses when a map is full |
| CrashValidators.CrashValidator.RemoveMatchEvent | plugins/crash_validator/crash_validator.cpp:101-111 | drops one pid everywhere, and all reports with the last exit |
| CrashValidators.CrashValidator.MatchKernelSnapshotEvent | plugins/crash_validator/crash_validator.cpp:113-122 | reports and removes exactly when a kernel snapshot is stored |
| CrashValidators.CrashValidator.MatchEvent | plugins/crash_validator/crash_validator.cpp:125-150 | exactly one verdict, of the right kind, for a registered exit and none otherwise |
| CrashValidators.CrashValidator.OnEvent | plugins/crash_validator/crash_validator.cpp:198-251 | ignores exits without a crash signal, local dump reports and system uids; stores the rest and arms one timer per exit stored or refused |
| CrashValidators.VerdictAccounting | plugins/crash_validator/crash_validator.cpp:125-183 | in every run and per pid: entries in the verdict list + registered = exits registered by the steps, a registered exit has a timer, and all are judged once the timers have fired |
| CrashValidators.MapsBounded | plugins/crash_validator/crash_validator.cpp:159-181 | in every run no map exceeds 101 entries |
| CrashValidators.StoredIsEarliest | plugins/crash_validator/crash_validator.cpp:101-183 | in every run a stored report is the first earliest of all reports of its pid that steps took in and no later step dropped |
| CrashValidators.DismatchIff | plugins/crash_validator/crash_validator.cpp:101-183 | in every run an exit is unmatched exactly if every report of its pid was refused by a full table or dropped since, by a judgement of the pid or of the last registered exit |
| CrashValidators.VerdictRight | plugins/crash_validator/crash_validator.cpp:113-148 | in every run: exception-matched exactly if an exception is pending and the first earliest pending crash is no kernel snapshot, crash-matched exactly if a crash is pending and it is a snapshot or no exception is, and the event reported is the first earliest one |
| CrashValidators.JudgedRight | plugins/crash_validator/crash_validator.cpp:125-150 | the step that judges a registered exit adds exactly that verdict |
| CrashValidators.EarlyReportDropped | plugins/crash_validator/crash_validator.cpp:106-110 | a report stored while another process is registered is gone when that one is judged |
| CrashValidators.EarlyCrashUnmatched | plugins/crash_validator/crash_validator.cpp:101-183 | a run in which a crash is taken in and the exit of the same process is then declared unmatched |
| NearestRecords.GetResultWatchPoint | plugins/freeze_detector/db_helper.cpp:45-95 | selects only candidates: with the same-package option, records of the trigger's process, package and thread, with the fallbacks of the source; namely the first latest before the trigger, else the first earliest at or after it, else none |
| NearestRecords.ScanFindsNearest | plugins/freeze_detector/db_helper.cpp:49-79 | the loop variables describe the nearest candidate of the prefix scanned, if no distance is as large as the sentinel |
| NearestRecords.NearestIff | plugins/freeze_detector/db_helper.cpp:49-79 | the selection is right for all record sequences exactly when 0 < timestamp < 2^64 - 1, with the same-package option or without |
| FreezeResolvers.FreezeRule.AddResult | plugins/freeze_detector/rule_cluster.cpp:395-403 | a result is added only under a new key |
| FreezeResolvers.FreezeRule.AddLinks | plugins/freeze_detector/rule_cluster.cpp:171-198 | links are taken in up to the first with a missing attribute |
| FreezeResolvers.FreezeRuleCluster.AddRule | plugins/freeze_detector/rule_cluster.cpp:142-169 | the first complete rule of a trigger is stored with its usable links, later ones are ignored |
| FreezeResolvers.FirstLinkWins | plugins/freeze_detector/rule_cluster.cpp:395-403 | the keys are those of the links, each with the first link under it |
| FreezeResolvers.GetResult | plugins/freeze_detector/rule_cluster.cpp:263-283 | lists every linked rule exactly once, ordered by window; false exactly when there is none |
| FreezeResolvers.ResolveEvent | plugins/freeze_detector/resolver.cpp:53-81 | the list holds each rule's contribution, in rule order |
| FreezeResolvers.RuleMatchIs | plugins/freeze_detector/resolver.cpp:65-77 | a rule with a window that fits in 64 bits matches exactly if the store has a record of its domain and name in that window, back or ahead by its sign and extended by the delay, that is a candidate; the point is that of the nearest such record |
| FreezeResolvers.RuleMatchOtherwise | plugins/freeze_detector/resolver.cpp:66-69 | without a window the trigger itself is the match; without an answer of the store or a domain there is none |
| FreezeResolvers.ListCountsMatches | plugins/freeze_detector/resolver.cpp:65-77 | the list is as long as there are matched rules |
| FreezeResolvers.OneUnmatched | plugins/freeze_detector/resolver.cpp:92-94 | the count is one short exactly when the given unmatched rule is the only one |
| FreezeResolvers.RecoveryInList | plugins/freeze_detector/resolver.cpp:96-100 | the list mentions a recovery exactly when a recovery rule with a window matched |
| FreezeResolvers.UiFreezeReportedIff | plugins/freeze_detector/resolver.cpp:83-102 | with one recovery rule of non-zero window: reported exactly when all other rules matched and it did not |
| FreezeResolvers.UiFreezeRightIff | plugins/freeze_detector/resolver.cpp:53-102 | with one recovery rule of any window: the judgement says that only the recovery is missing exactly if that window is not empty or the number of unmatched rules is not one |
| FreezeResolvers.UiFreezeByKey | plugins/freeze_detector/rule_cluster.cpp:263-283 | the same for the keyed rules, whatever the order of the list |
| FreezeResolvers.JudgedByKey | plugins/freeze_detector/resolver.cpp:83-126 | the comparison of list sizes is that judgement, whatever the order of the list |
| FreezeResolvers.ProcessEvent | plugins/freeze_detector/resolver.cpp:83-176 | every trigger from lookup to verdict, by the number of linked rules not matched: a UI block needs one and no recovery, a rule with "or" needs two matches, the named warnings, reported app freezes and input blocks allow one, all others none; and for a UI block with one recovery rule exactly when that is right |
| FreezeResolvers.EmptyWindowRecoveryMisjudged | plugins/freeze_detector/resolver.cpp:67-68 | with a recovery rule of empty window the freeze is reported whenever exactly one other rule failed |
| FreezeResolvers.MisjudgedInput | plugins/freeze_detector/resolver.cpp:67-68 | such an input |
| TextOrder.DateOrderIs | base/utility/common_utils.cpp:283-291 | the comparator orders by first 14 characters, then length, then text |
| TextOrder.DateOrderTotal | base/utility/common_utils.cpp:283-291 | it is irreflexive and total on all strings |
| TextOrder.DateOrderTransitive | base/utility/common_utils.cpp:283-291 | it is transitive on all strings |
| TextOrder.ShorterIsSmaller | base/running_status_logger/log_file_writer.cpp:67-69 | length-then-text order of decimal numerals is numeric order |
| TextOrder.Sort | base/running_status_logger/log_file_writer.cpp:66-69 | for any strict total order, the list holds every element once in ascending order |
| ExportFiles.NumberReadBack | base/utility/common_utils.cpp:121-136 | the running number of a name is read back |
| ExportFiles.FindDate | base/utility/common_utils.cpp:317 | searching a path for a date finds the path's own date or nothing |
| ExportFiles.NewPathIsLater | base/utility/common_utils.cpp:311-323 | the new name carries the present date, with the next number if the latest has that date, and sorts after the latest |
| ExportFiles.NewPathFollowsAll | base/utility/common_utils.cpp:311-323 | the new name sorts after every existing file and is listed next time |
| ExportFiles.TimeOfPath | base/utility/common_utils.cpp:111-119 | what follows the prefix in a path is found again |
| ExportFiles.FilesTotallyOrdered | base/utility/common_utils.cpp:283-291 | the comparator is a strict total order on the listed files |
| ExportFiles.SortFiles | base/utility/common_utils.cpp:265-292 | lists every matching file once in ascending order |
| ExportFiles.ListedIff | base/utility/common_utils.cpp:273-279 | the scan lists exactly the paths made of the directory, the prefix, a digit and anything |
| ExportFiles.ExportDirectory.CreateExportFile | base/utility/common_utils.cpp:294-327 | the new name carries the date, has a number only to follow the latest file, and sorts after all existing ones; min(n + 1, maxFileNum) files remain, the deleted ones are the oldest, nothing else changes |
| ExportFiles.CallsStayFit | base/utility/common_utils.cpp:294-327 | under a clock that does not go back, each call leaves a directory in which the next one does what it promises |
| ExportFiles.SuccessiveExports | base/utility/common_utils.cpp:294-327 | over any sequence of calls every name sorts after all files there were and all names created before, and at most maxFileNum files remain |
| LogRotation.ParseInvertsBuild | base/running_status_logger/log_file_writer.cpp:88-102 | parsing inverts building for every directory, prefix and index |
| LogRotation.PathOrderIsIndexOrder | base/running_status_logger/log_file_writer.cpp:67-79 | order of paths is order of indices |
| LogRotation.OrderedLogFiles | base/running_status_logger/log_file_writer.cpp:53-70 | every file of the prefix once, in ascending order |
| LogRotation.SortedIndices | base/running_status_logger/log_file_writer.cpp:53-70 | the sorted files are those of the indices in ascending order, for any set of indices |
| LogRotation.LastIsHighest | base/running_status_logger/log_file_writer.cpp:131-138 | the last of the sorted files has the highest index, whatever gaps there are |
| LogRotation.LogFileWriter.constructor | base/running_status_logger/log_file_writer.cpp:127-139 | a restart resumes at the highest index, or at 1 in an empty directory |
| LogRotation.LogFileWriter.ResetLogFileStreamByFileIndex | base/running_status_logger/log_file_writer.cpp:115-125 | opens or creates the file of an index and takes over its size |
| LogRotation.LogFileWriter.DeleteOutNumberLogFiles | base/running_status_logger/log_file_writer.cpp:141-152 | keeps exactly the fileMaxCnt highest indices of any set and touches no other file |
| LogRotation.LogFileWriter.Write | base/running_status_logger/log_file_writer.cpp:154-174 | moves on by one index exactly when the text does not fit, then keeps the highest indices, adds the text to the current file and changes no other |
| LogRotation.KeepsNewest | base/running_status_logger/log_file_writer.cpp:145-151 | min(count, fileMaxCnt) indices are kept, all higher than those that are not, the highest among them if any may be kept |
| LogRotation.RangeStaysRange | base/running_status_logger/log_file_writer.cpp:145-151 | what is kept of a run without gaps is a run without gaps with the same end |
| LogRotation.WritesKeepNewest | base/running_status_logger/log_file_writer.cpp:154-174 | after any sequence of writes that rotates, the files kept are those of the highest fileMaxCnt of all indices ever used |
| StringSearch.ReplaceStr | base/utility/string_util.cpp:62-76 | the in-place loop computes left-to-right replacement and terminates for every dst |
| StringSearch.SplitStr | base/utility/string_util.cpp:86-108 | the loop reports the pieces between separators with the trimming and empty-piece options |
| StringSearch.SplitReplaceLaw | base/utility/string_util.cpp:62-108 | joining the pieces by the separator gives the string back, joining by d is ReplaceStr, for every separator |
| StringSearch.PiecesFreeOfSeparator | base/utility/string_util.cpp:92-107 | no piece contains the separator |
| StringSearch.SplitJoin | base/utility/string_util.cpp:86-108 | pieces survive joining and splitting by a character exactly when none contains it |
| StringSearch.SplitOptionsAre | base/utility/string_util.cpp:86-108 | with any options the strings reported are the pieces of the text in order, trimmed if asked, without the empty or blank ones unless empty ones are allowed |
| StringSearch.TrimStrIs | base/utility/string_util.cpp:78-84 | trimming takes off exactly the leading and trailing occurrences of the character |
| JsonEscape.EscapeJsonStringValue | base/utility/string_util.cpp:268-307 | the loop escapes character by character |
| JsonEscape.UnescapeJsonStringValue | base/utility/string_util.cpp:309-357 | the loop is the two-state decoder |
| JsonEscape.RoundTrip | base/utility/string_util.cpp:268-357 | unescaping an escaped string gives the string back |
| JsonEscape.DecodeEscape | base/utility/string_util.cpp:309-357 | after an escaped string the decoder has the string and no backslash is left over |
| JsonEscape.EscapedMeansString | base/utility/string_util.cpp:268-307 | read by the escapes of section 7 of RFC 8259, an escaped string means the string |
| JsonEscape.UnescapeIsJsonText | base/utility/string_util.cpp:309-357 | unescaping any text gives what it means by those escapes, other characters after a backslash meaning themselves |
| JsonEscape.EscapedIsSafe | base/utility/string_util.cpp:268-307 | none of the five control characters that have an escape is left raw, every quote is escaped, no backslash is left open |
| JsonEscape.EscapeUnescapeIff | base/utility/string_util.cpp:268-357 | escaping an unescaped text gives it back exactly when it is in escaped form |
| JsonEscape.SysEventParams.SetEventValue | base/include/sys_event.h:136-154 | stores the escape of the value, in append mode after the unescaped stored text |
| JsonEscape.AppendsConcatenate | base/include/sys_event.h:145-150 | after any sequence of appends the stored text is the escape of the concatenation |
| RateLimit.EventLogger.CheckDistinctPidLimit | plugins/eventlogger/event_logger.cpp:1352-1376 | drops expired windows, records the pid, and passes exactly while at most five are on record |
| RateLimit.EventLogger.CheckEventInterval | plugins/eventlogger/event_logger.cpp:1378-1401 | drops expired stamps of matching names and passes exactly when no recent stamp is left |
| RateLimit.EventLogger.JudgmentRateLimiting | plugins/eventlogger/event_logger.cpp:1403-1439 | combines exemption, default interval, key pid and the two checks |
| RateLimit.AcceptedApart | plugins/eventlogger/event_logger.cpp:1378-1401 | two accepted events of the same name and pid are at least the least interval in use apart |
| RateLimit.AcceptedIff | plugins/eventlogger/event_logger.cpp:1378-1401 | an event that passes the pid check is accepted exactly if its interval has passed since the last accepted one of its tag or that stamp was cleaned in between |
| RateLimit.LimitsAre | plugins/eventlogger/event_logger.cpp:1403-1425 | only system writers without an interval are exempt; apps count for their own process and get the default interval, system writers count for the process they report on |
| RateLimit.AppParametersIgnored | plugins/eventlogger/event_logger.cpp:1416-1422 | what an app puts into its parameters has no influence on acceptance or on the tables |
| RateLimit.WindowAfter | plugins/eventlogger/event_logger.cpp:1352-1376 | a window goes on exactly while the request's interval has not passed since it was opened, and more than five pids in it mean refusal |
| RateLimit.StampAfter | plugins/eventlogger/event_logger.cpp:1378-1401 | accepted exactly if the interval has passed since the stamp of the same name and pid; other stamps go exactly if the name occurs in their tag and the interval has passed |
| RateLimit.ShortIntervalLetsThrough | plugins/eventlogger/event_logger.cpp:1381-1389 | a run in which an event is accepted again within its interval |
| RateLimit.AtMostFivePids | plugins/eventlogger/event_logger.cpp:1364-1375 | each window of a name and uid accepts at most five distinct pids, in every run |
| RateLimit.WindowsApart | plugins/eventlogger/event_logger.cpp:1357-1363 | a window is replaced only after the interval of the event that replaces it |
| PeriodStamps.SetAndGet | base/sys_event.cpp:604-634 | the text stored is the label, the flag as 1 or 0 and the number; a stamp with a non-empty label free of blanks is read back as written |
| PeriodStamps.StampRoundTripIff | base/sys_event.cpp:604-634 | exactly those stamps survive printing, splitting and parsing, besides the empty one |
| PeriodCounters.EventPeriodInfoUtil.ClearPeriodInfoList | plugins/event_validator/event_period_info_util.cpp:106-113 | every live entry is logged, in order |
| PeriodCounters.EventPeriodInfoUtil.UpdatePeriodInfo | plugins/event_validator/event_period_info_util.cpp:67-104 | counts the event under the present hour and stamps it; nothing outside beta versions |
| PeriodCounters.SourceConserves | plugins/event_validator/event_period_info_util.cpp:67-113 | in every run, per hour: logged + live = loaded + stamped, for both counters |
| PeriodCounters.NumberedFromOne | plugins/event_validator/event_period_info_util.cpp:79-98 | in every run the n-th event in a row of an hour is stamped with number n |
| PeriodCounters.SysEventStore.StatisticStorePeriodInfo | plugins/event_store/sys_event_store.cpp:162-203 | counts a stored event under its stamp's hour, logging out-of-date hours from the front |
| PeriodCounters.SysEventStore.LogExpired | plugins/event_store/sys_event_store.cpp:191-199 | logs exactly the entries at the front that are not after the hour two hours ago or are after the present hour |
| PeriodCounters.StoreSideConserves | plugins/event_store/sys_event_store.cpp:162-203 | in every run, per hour: logged + live = loaded + stamped, and live hours stay distinct |

## Left out

- Wake-up through epoll, poll and eventfd, thread creation and file descriptor callbacks: operating system behaviour; in particular nothing is claimed about how long the loop sleeps.
- Shrinking of the queue's vector: it does not change the contents.
- Packaged tasks and their futures (AddEventForResult): the queue treats them like AddEvent.
- The bodies of plug-ins' OnEvent: a choice among return, finish, pend, continue and pend-then-continue.
- PipelineEvents.PipelineEvent.OnContinue: producer pauses are recorded but nothing is proved about them.
- JSON, XML and regular expression libraries, and the interpretation of a definition: parameters of the model.
- The disk contents of the definition file changing between two reloads: a lookup then cuts new text at old offsets.
- The text of reports, log lines and records other than the fields that decide: they are copied only.
- SelectEventFromDB's cast of the period to signed 64-bit numbers: the period is compared unsigned.
- Numbers with leading blanks or signs in ConvertStringTo: the texts read here are printed numerals.
- ExportFiles.ExportDirectory.CreateExportFile: names with a pid are not modelled, and the prefix is matched as text rather than as a regular expression.
- LogRotation.LogFileWriter.Write: a stream that cannot be opened and a file that cannot be deleted are not modelled.
- EventLoopProtocol.CancellationSafety: for distinct, non-zero handles only; EventLoopProtocol.CancelIsFinalIff says what happens to others.
- PipelineProtocol.SingleHolder: for runs that clear a pending flag only when that is safe, as PipelineProtocol.ResetSafeIff defines it.
- RateLimit.AcceptedApart: promises only the least interval in use, because the event's own interval is not kept in general; RateLimit.AcceptedIff says exactly when it is.
- Dispatch rules, version bits, field validators, path checks, bundle and settings services, zip and database wrappers: thin layers or single-branch predicates that would only add easy members.
- EraseString, which backs up only one character after each deletion: no general guarantee.
