# Verification model of the GPU node-health agent and guard

This project models the stateful parts of two programs and one kernel patch, and proves what they
promise over whole runs.

* The **agent** tails kernel logs, takes a census of tasks in uninterruptible sleep, turns counters
  into node conditions, and publishes them on the Node object with a transition stamp.
* The **guard** is elected through a Lease, reads those conditions, and cordons nodes within a set of
  guardrails. It also supervises the metrics exporter's pods.
* The **D7 patch** completes GPU fences whose completion was lost.

Classes stand for the programs' objects and are updated in place; each method is proved against a
function or relation on values, and the lemmas prove what that function means over all runs.

| module | models |
|---|---|
| `Policy`, `PolicyProperties` | `policy.py`: trigger level, healthy capacity, the budgeted scan |
| `Guards` | `Guard._run_nodes`, `loop_once`: cordon history, pruning, failing passes |
| `Leases`, `Fleet` | `Leader` and the lease object, any number of guards; the rate limit across guards |
| `Publishing`, `Debounce` | `ConditionPublisher`, the patched node, and the dwell time across both programs |
| `Conditions`, `Alarms` | `ConditionEvaluator`; from delivered log lines to active conditions |
| `KernelLog`, `KernelLogRuns` | the tailer, and exactly-once delivery against a file model |
| `Streaks`, `Supervision`, `SupervisionRuns` | "since when" clocks, the exporter supervisor |
| `StatParser`, `Census` | the stat-line parser and the D-state census |
| `FenceReaper` | the D7 reaper |
| `Exposition`, `Metrics` | label escaping, sample printer, sample and label parsers |
| `Wrappers`, `Clock`, `Tallies`, `Texts` | shared vocabulary |

How the outside world enters:

* Time is a real number of seconds, given to each operation. A wire stamp keeps its whole seconds;
  a stamp that cannot be parsed is `None`.
* An API call is an input that says how it ended. The lease is a store with a version number:
  creating fails if it exists, updating fails if the version moved on. Requests may arrive late,
  repeatedly or never, and the guards' clocks need not agree; each guard's own clock does not go back.
  An identity is a pod and its host, so processes of one identity, such as a container and its restart
  in place, read one clock.
* A publish comes at least a second after the one before it, because the publish interval is a whole
  number of seconds; a restart may break that. Statements that need it say so (`Spaced`).
* A log file is a character sequence behind an inode; a path names one inode at a time, and an open
  handle keeps its inode. Rule expressions are arbitrary predicates on lines.
* The whitespace class of `split`, `\s` and `\S` is any set of characters with the blank and the line
  feed in it.

What is **not** true of the programs is stated too, with the exact condition and a run that fails:
whole-second stamps shorten a lease (`FullDurationIff`) and can let a False publish through after a
restart within one second (`SoundIff`, `RestartSlips`); the rate limit is per process
(`FleetRateLimitIff`, `RestartForgets`, `LimitIsPerProcess`); an evaluation gap longer than the window
loses events (`LongGapLosesEvents`); a refilled truncation and a rotation too many lose log lines
(`TruncationRecoveredIff`, `RotationDeliversAllIff`), and a failed reopen ends the tailing thread
(`FailedReopenIsFatal`); the 32-bit fence test is wrong beyond half a wrap (`PassedIsAhead`); a label
value with a backslash or a line feed does not come back (`LabelRoundTrip`); a `)` after the command
name breaks the stat parser (`StatRoundTrip`). A young condition also masks older ones below it, because
only the most severe True condition is looked at (`TriggerIsMostSevere`).
The supervisor's documentation says that only a successful scrape clears the unreachable clock; the
code also clears it for a pod that is not Running, has no address or disappears, and the model
follows the code (`ClockMeaning`).

## Model

| member | source | states |
|---|---|---|
| Policy.TriggerIsMostSevere | guard/gpu_node_guard/policy.py:103-125 | no trigger iff no condition of the four is True; otherwise the most severe True one triggers, with its level, and only its own stamp makes it too young |
| Policy.IndexIsLast | guard/gpu_node_guard/policy.py:83-88 | a condition is found iff some entry has its type, and the last such entry counts |
| Policy.HealthyCapacity | guard/gpu_node_guard/policy.py:128-148 | the loop counts exactly the nodes not excluded by name whose entries say Ready and none of the three conditions that cordon, and that are schedulable |
| Policy.CapacityIsUsable | guard/gpu_node_guard/policy.py:142-147 | the capacity is the number of usable nodes |
| Policy.InitialBudget | guard/gpu_node_guard/policy.py:192-194 | the budget is the allowance minus the past cordons younger than the window |
| Policy.Decide | guard/gpu_node_guard/policy.py:185-304 | the scan with its running budget returns, for every node, the decision that a closed form without running state gives it |
| PolicyProperties.CordonIff | guard/gpu_node_guard/policy.py:197-302 | a node is cordoned iff enforce mode, a held cordon-level condition, trusted data, schedulable, floor kept, in scope, and fewer candidates before it than the budget |
| PolicyProperties.RefusalIff | guard/gpu_node_guard/policy.py:206-260 | each reason up to the capacity floor, exactly when it is given, by the node's entries and the number of other usable nodes |
| PolicyProperties.ReasonIff | guard/gpu_node_guard/policy.py:262-302 | each later reason, exactly when it is given, by what passed the floor, the cordons decided before, the mode and the scope |
| PolicyProperties.DecisionNames | guard/gpu_node_guard/policy.py:197-204 | a decision carries the node's name and the level and type of the entry that triggers |
| PolicyProperties.CordonLeavesUsable | guard/gpu_node_guard/policy.py:249-260 | a cordon leaves at least the floor of other usable nodes |
| PolicyProperties.CordonsAreFirstCandidates | guard/gpu_node_guard/policy.py:262-302 | the cordoned nodes are the first max(0, budget) candidates in order, min(budget, candidates) of them, and none outside enforce mode |
| PolicyProperties.ObserveMirrorsEnforce | guard/gpu_node_guard/policy.py:227-302 | observe mode never cordons, gives identical refusals, and reports every node enforce mode would cordon |
| PolicyProperties.ExcludedCountIsTotal | guard/gpu_node_guard/policy.py:249-252 | for a triggering node the capacity without it by name is the total capacity |
| PolicyProperties.BatchKeepsCapacity | guard/gpu_node_guard/policy.py:249-302 | carrying out a whole batch leaves the healthy capacity unchanged, and at least the floor if anything was cordoned |
| PolicyProperties.NeverCordonedTwice | guard/gpu_node_guard/policy.py:242-247 | a node cordoned by a batch is never cordoned by a later decision on the patched fleet |
| Guards.Guard.constructor | guard/gpu_node_guard/main.py:103-125 | a new process starts with no history and zero counters |
| Guards.Guard.RunNodes | guard/gpu_node_guard/main.py:149-184 | decides on the old history; each cordon whose patch did not fail is appended, then the history is pruned at now minus the window, unless something raises in the middle of the batch |
| Guards.Guard.Prune | guard/gpu_node_guard/main.py:180-182 | keeps exactly the stamps not before the cutoff, in order |
| Guards.SinceConcat | guard/gpu_node_guard/main.py:180-182 | pruning goes stamp by stamp, in order |
| Guards.Guard.LoopOnce | guard/gpu_node_guard/main.py:205-236 | the whole new state for a non-leader turn, for one that raises before, in or after its batch, and for one that completes |
| Guards.LandedWithinBudget | guard/gpu_node_guard/main.py:159-172 | a pass never lands more cordons than max(0, budget) |
| Guards.PassGains | guard/gpu_node_guard/main.py:159-172 | over any run a turn adds one stamp to the log and the history for each cordon that was carried out and not refused, and as many to the total if nothing raised |
| Guards.RefusedPatchesCostNothing | guard/gpu_node_guard/main.py:161-167 | a turn whose cordons were all refused changes no later budget, no log and no total |
| Guards.ReportIs | guard/gpu_node_guard/main.py:215-225 | a completed turn reports its decisions and the number of usable nodes; any other leaves both |
| Guards.PruningKeepsBudget | guard/gpu_node_guard/main.py:180-182 | over any run, pruning never changes a later budget |
| Guards.RateLimitHolds | guard/gpu_node_guard/main.py:149-184 | over any run of one process, no half-open interval of window length holds more than max(0, allowance) successful cordons |
| Guards.TotalCountsAllButRaisingPasses | guard/gpu_node_guard/main.py:212-225 | cordons_total misses exactly the cordons of turns that raise, and equals the successful cordons if none does |
| Leases.Leader.constructor | guard/gpu_node_guard/main.py:44-48 | a new guard is not the leader |
| Leases.Leader.AcquireOrRenew | guard/gpu_node_guard/main.py:50-87 | sends exactly the write the protocol allows, or none, none if the GET failed, and is leader iff it was accepted |
| Leases.LeaseSafety | guard/gpu_node_guard/main.py:61-80 | in every interleaving of any number of guards, stored stamps never go back, and a successful write of another guard comes more than the duration after the stored stamp, so more than duration - 1 seconds after the write |
| Leases.InvHolds | guard/gpu_node_guard/k8s.py:203-227 | the store always holds the last applied write, and a sent write whose version is current rests on what is stored |
| Leases.UndisturbedTurn | guard/gpu_node_guard/main.py:61-80 | an undisturbed turn succeeds iff the lease is absent, own, without stamp or expired; it keeps or sets the acquire time accordingly |
| Leases.UnansweredTurn | guard/gpu_node_guard/main.py:81-87 | a turn whose GET failed sends nothing |
| Leases.WritesCarry | guard/gpu_node_guard/main.py:71-77 | every applied write carries the guard's identity, its stamp and its duration |
| Leases.NoReplay | guard/gpu_node_guard/k8s.py:221-227 | an applied write that arrives again changes nothing |
| Leases.FullDurationIff | guard/gpu_node_guard/k8s.py:54-62 | a write at time t keeps other guards out for more than the full duration, in every run, iff t is a whole second |
| Fleet.CordonsOfTwoGuards | guard/gpu_node_guard/main.py:205-213 | cordons of different guards are more than duration - 1 seconds apart |
| Fleet.FleetRateLimit | guard/gpu_node_guard/main.py:35-42 | in any interval up to the window and up to duration - 1, all processes together land at most n times max(0, allowance) cordons, if no identity has more than n processes cordoning in it |
| Fleet.RestartForgets | guard/gpu_node_guard/main.py:44-48 | in every interval, a process and its restart under the same identity can together exceed the allowance |
| Fleet.LimitIsPerProcess | guard/gpu_node_guard/main.py:110-110 | in every interval longer than duration - 1, two guards one after the other can exceed the allowance |
| Fleet.FleetRateLimitIff | guard/gpu_node_guard/main.py:35-42 | in enforce mode with a positive allowance, for intervals up to the window, one allowance bounds every fleet with at most n processes of an identity cordoning iff n is 1 and the interval is at most duration - 1 |
| Publishing.ConditionPublisher.constructor | agent/gpu_health_agent/main.py:140-145 | a new publisher remembers nothing |
| Publishing.ConditionPublisher.Publish | agent/gpu_health_agent/main.py:147-181 | statuses follow the evaluation, a transition stamp moves iff the status flips, and the patch carries each reported condition with both |
| Publishing.IndexOfMerge | agent/gpu_health_agent/k8s.py:75-89 | after a merge by type the node shows the patched conditions and every other one as before |
| Debounce.NextMapsFit | agent/gpu_health_agent/main.py:163-165 | what a publish must do to the two maps determines them |
| Debounce.TransitionIsRunStart | agent/gpu_health_agent/main.py:159-165 | over any history of publishes and restarts each stamp is that of the first publish of the current unbroken run of its status |
| Debounce.NodeShowsLastLanded | agent/gpu_health_agent/main.py:158-181 | the node shows for each condition, as "True" or "False", the last patch that landed and carried it |
| Debounce.OldStampMeansHeld | agent/gpu_health_agent/main.py:159-165 | a True condition with an old enough stamp began that run with the stamp's publish, and with publishes at least a second apart no publish later than that age, up to the last one that landed, said False |
| Debounce.SoundIff | agent/gpu_health_agent/main.py:152-165 | for a run that began at a given publish, the guard's reading is sound at all times iff no earlier False lies in the second in which it began |
| Debounce.CordonMeansHeld | guard/gpu_node_guard/policy.py:103-125 | a cordon at g implies that the triggering condition was True in the last landed patch and that, with publishes at least a second apart, no publish later than g - min_age said False; the node's other conditions may be anything |
| Debounce.RestartSlips | agent/gpu_health_agent/main.py:152-152 | with a restart between two publishes in one second, the guard cordons at 1000 s for a condition published as False at 880.5 s, with a minimum age of 120 s |
| Conditions.ConditionEvaluator.constructor | agent/gpu_health_agent/conditions.py:54-57 | a new evaluator has no history |
| Conditions.ConditionEvaluator.Remember | agent/gpu_health_agent/conditions.py:67-72 | one sample is added; the kept samples are a suffix of all samples, starting at the baseline |
| Conditions.ConditionEvaluator.Evaluate | agent/gpu_health_agent/conditions.py:59-201 | the history is the samples in the window, and the five verdicts follow from the signals and the oldest of them |
| Conditions.VerdictIff | agent/gpu_health_agent/conditions.py:90-191 | each of the five verdicts, exactly, by the rises of the named counters, the stuck tasks, the exporter's answer, /proc and the marks of the log files |
| Conditions.AnyUnreadable | agent/gpu_health_agent/conditions.py:184-191 | the loop finds out whether some log file is unreadable |
| Conditions.KeptIsWindow | agent/gpu_health_agent/conditions.py:70-73 | the pruned history is exactly the samples ever taken of age at most the window, and not empty |
| Conditions.HitsAreRisesInWindow | agent/gpu_health_agent/conditions.py:75-78 | the hit count is the sum of all counter rises between neighbouring samples whose earlier one is in the window |
| Conditions.ActiveIffRise | agent/gpu_health_agent/conditions.py:90-142 | the log-driven conditions are on iff such a rise exists, or enough of them |
| Conditions.TurnsOn | agent/gpu_health_agent/conditions.py:90-118 | an event turns its condition on at the next evaluation if the gap is at most the window |
| Conditions.TurnsOff | agent/gpu_health_agent/conditions.py:9-12 | each log-driven condition is off once all samples in the window agree on its rules |
| Conditions.LongGapLosesEvents | agent/gpu_health_agent/conditions.py:70-73 | after a gap longer than the window every log-driven condition is off, whatever was counted |
| Alarms.CountersNeverFall | agent/gpu_health_agent/signals/kernlog.py:256-262 | the tailer's counters never fall between samples |
| Alarms.HitsCountLines | agent/gpu_health_agent/conditions.py:75-78 | between two samples the hit count of a rule set is the number of lines delivered in between whose first match is one of its rules |
| Alarms.AlarmIffLines | agent/gpu_health_agent/conditions.py:90-142 | GPUUnrecoverable is on iff a line delivered after the oldest sample in the window is filed under a fatal-hang rule; GPUWorkqueueStalled likewise or by a stuck task; GPUEngineTimeout iff enough such lines are filed under its rules |
| Alarms.RisesAreLines | agent/gpu_health_agent/conditions.py:70-78 | the counter rises inside the window and the lines delivered since the oldest sample in it are the same number |
| Alarms.AlarmIffWritten | agent/gpu_health_agent/conditions.py:90-142 | over any run of appends, rotations and pumps, with the samples taken after pumps, each log-driven condition is decided by the lines written to the file between the two pumps |
| Alarms.BlindIff | agent/gpu_health_agent/conditions.py:184-191 | after a round of the tailer, the health data is stale iff /proc could not be listed or some configured log file is missing or could not be opened; the probe failed iff the exporter did not answer or reports an unhealthy GPU |
| Alarms.StalledIffTask | agent/gpu_health_agent/conditions.py:104-118 | without a log line, the work queue counts as stalled iff some task in D belongs to the GPU and has waited for the threshold |
| KernelLog.KernelLogWatcher.constructor | agent/gpu_health_agent/signals/kernlog.py:158-166 | all counters start at zero, no file is open, the thread can run |
| KernelLog.KernelLogWatcher.Match | agent/gpu_health_agent/signals/kernlog.py:256-262 | one line is delivered; every counter stays the number of delivered lines whose first match is its rule |
| KernelLog.KernelLogWatcher.Consume | agent/gpu_health_agent/signals/kernlog.py:249-254 | delivers the lines from a position to the end of the file, in order |
| KernelLog.KernelLogWatcher.Pump | agent/gpu_health_agent/signals/kernlog.py:218-247 | one look at a path: what is delivered and where the handle stands, for a missing path, first sight, growth, rotation, truncation, a failed open or reopen, and a closed handle |
| KernelLog.KernelLogWatcher.Sweep | agent/gpu_health_agent/signals/kernlog.py:198-211 | one round over all paths: handles, marks, delivered lines, and whether the thread is still alive |
| KernelLog.MarkedReadableIff | agent/gpu_health_agent/signals/kernlog.py:201-210 | after a round that the thread survives, a path is marked readable iff it exists and either needed no opening or could be opened |
| KernelLog.PathsAreIndependent | agent/gpu_health_agent/signals/kernlog.py:198-211 | a round over different paths leaves for each of them the handle and the mark of its own look |
| KernelLog.RoundDelivers | agent/gpu_health_agent/signals/kernlog.py:198-211 | and it delivers, path after path, what each look gives |
| KernelLog.ThreadEndsIff | agent/gpu_health_agent/signals/kernlog.py:201-226 | a round ends the tailing thread iff it meets a closed handle on a path that exists |
| KernelLog.FailedReopenIsFatal | agent/gpu_health_agent/signals/kernlog.py:222-244 | after a failed reopen, the next round in which the path exists ends the thread, and nothing is delivered any more |
| KernelLog.KernelLogWatcher.SeverityCounts | agent/gpu_health_agent/signals/kernlog.py:188-194 | each severity's total is the sum over its rules of the lines filed under them |
| KernelLog.SeverityIsCount | agent/gpu_health_agent/signals/kernlog.py:188-194 | a severity's total is the number of delivered lines whose first matching rule has it |
| KernelLog.SeveritiesCoverMatches | agent/gpu_health_agent/signals/kernlog.py:188-194 | the three totals add up to the delivered lines that match any rule |
| KernelLog.LinesConcat | agent/gpu_health_agent/signals/kernlog.py:249-254 | text appended after whole lines is read as lines of its own, from any position before it |
| KernelLogRuns.ExactlyOnce | agent/gpu_health_agent/signals/kernlog.py:218-247 | over any run of appends, rotations and truncations that leaves nothing in a file the watcher cannot see, every pump completes exactly the owed lines in order, none twice |
| KernelLogRuns.OwedIsAppended | agent/gpu_health_agent/signals/kernlog.py:235-242 | without truncation the owed lines are the backlog, if it is not skipped, and then every line appended since the file was first seen |
| KernelLogRuns.TruncationRecoveredIff | agent/gpu_health_agent/signals/kernlog.py:225-233 | a refilled truncated file is delivered in full iff it is still shorter than the old position |
| KernelLogRuns.LostByRotation | agent/gpu_health_agent/signals/kernlog.py:222-233 | when a new file takes the path, the next pump leaves owed exactly the lines of the file left behind, if a rotation was pending or a truncation unseen, and nothing otherwise |
| KernelLogRuns.LockedPump | agent/gpu_health_agent/signals/kernlog.py:222-235 | a pump that cannot open the file still delivers what was left in the file rotated away, and closes the handle |
| KernelLogRuns.RotationDeliversAllIff | agent/gpu_health_agent/signals/kernlog.py:222-233 | after any legal run, a rotation loses nothing iff no rotation was pending and no truncation unseen, or the file left behind is empty |
| Streaks.ClockIsStreakStart | agent/gpu_health_agent/signals/dstate.py:223-226 | a clock exists iff its key failed at the last look, and shows the first look of the unbroken streak |
| Supervision.ExporterSupervisor.constructor | guard/gpu_node_guard/supervisor.py:41-46 | no clocks, no deletions |
| Supervision.ExporterSupervisor.Evaluate | guard/gpu_node_guard/supervisor.py:51-145 | the walk over the pods yields the closed-form decisions, clocks and deletion records |
| SupervisionRuns.ClockMeaning | guard/gpu_node_guard/supervisor.py:67-89 | a pod's clock runs iff it was listed, Running, with an address and silent in the last pass, and shows the first pass of that unbroken run |
| SupervisionRuns.DeleteMeansUnreachable | guard/gpu_node_guard/supervisor.py:88-138 | a deletion implies supervision on, enforce mode, and an unbroken unreachable run of at least the grace period that goes on |
| SupervisionRuns.DeleteIff | guard/gpu_node_guard/supervisor.py:67-138 | a pod is deleted iff supervision is on, the mode is enforce, the pod was silent in every pass of an unbroken run of at least the grace period, and no deletion on its node lies less than the cooldown back |
| SupervisionRuns.ReasonIff | guard/gpu_node_guard/supervisor.py:67-138 | each reason, exactly when it is given, by the pod's fields, its run of silence, the deletions so far and the configuration |
| SupervisionRuns.DecisionSays | guard/gpu_node_guard/supervisor.py:63-89 | a decision names the pod and the node, and for a silent pod the first pass of its run |
| SupervisionRuns.DeletionsAreSpaced | guard/gpu_node_guard/supervisor.py:100-131 | any two deletions on one node, across passes or within one, are at least the cooldown apart |
| SupervisionRuns.RecordIsLatest | guard/gpu_node_guard/supervisor.py:131-131 | a node's deletion record is never older than a deletion on it |
| SupervisionRuns.RecordIsDeletion | guard/gpu_node_guard/supervisor.py:131-131 | a node's deletion record is the time of a deletion on it |
| FenceReaper.PassedIsAhead | kernel-patches/tree-20260918/d7_amdgpu_fence.c.excerpt:66-66 | the 32-bit test equals "strictly ahead" iff the distance reduced to 32 bits lies in the half it stands for: always below half a wrap, not at half a wrap ahead, and not one step beyond half a wrap behind |
| FenceReaper.Fence.constructor | kernel-patches/tree-20260918/d7_amdgpu_fence.c.excerpt:58-61 | a new fence is unsignaled with one reference |
| FenceReaper.PickStranded | kernel-patches/tree-20260918/d7_amdgpu_fence.c.excerpt:57-73 | the first loop picks the first up to 32 eligible fences in slot order and takes one reference to each |
| FenceReaper.SignalStranded | kernel-patches/tree-20260918/d7_amdgpu_fence.c.excerpt:76-80 | the second loop completes each picked fence and gives the reference back |
| FenceReaper.ReapStranded | kernel-patches/tree-20260918/d7_amdgpu_fence.c.excerpt:44-85 | one call completes exactly the first 32 eligible fences; all other slots and all reference counts are as before |
| FenceReaper.ReapsOnlyStranded | kernel-patches/tree-20260918/d7_amdgpu_fence.c.excerpt:39-42 | whatever is changed was unsignaled, strictly behind the hardware and past the grace period |
| FenceReaper.ReapsStranded | kernel-patches/tree-20260918/d7_amdgpu_fence.c.excerpt:57-72 | whatever is unsignaled, strictly behind the hardware and past the grace period is completed iff fewer than 32 eligible fences come before it |
| FenceReaper.CallsComplete | kernel-patches/tree-20260918/d7_amdgpu_fence.c.excerpt:44-85 | c calls complete the first 32 c eligible fences |
| FenceReaper.BacklogCleared | kernel-patches/tree-20260918/d7_amdgpu_fence.c.excerpt:47-57 | k eligible fences are gone after c calls iff c is at least k / 32 rounded up |
| StatParser.StatRoundTrip | agent/gpu_health_agent/signals/dstate.py:82-112 | a printed line reads back with its command name, state and start time iff no field after the name holds a ")" |
| StatParser.ReadIff | agent/gpu_health_agent/signals/dstate.py:96-112 | of any line, the parser returns a result iff the line is parted by its first "(" and its last ")" and the fields after the name give that result |
| StatParser.ShortOrOddLineIsRefused | agent/gpu_health_agent/signals/dstate.py:102-111 | a printed line is refused iff it has fewer than 20 fields or no number in the twentieth |
| StatParser.DecimalRoundTrip | agent/gpu_health_agent/signals/dstate.py:107-111 | a decimal number is parsed to itself |
| StatParser.ParseIntIff | agent/gpu_health_agent/signals/dstate.py:107-111 | a number is one or more digits after at most one sign |
| Census.DStateCensus.constructor | agent/gpu_health_agent/signals/dstate.py:163-169 | no clocks |
| Census.DStateCensus.Walk | agent/gpu_health_agent/signals/dstate.py:214-258 | the loop over the listing starts clocks and counts as the scan does |
| Census.DStateCensus.Collect | agent/gpu_health_agent/signals/dstate.py:198-283 | an unreadable pass changes nothing; otherwise the clocks advance and the report shows the counts of the tasks seen, with rounded seconds and the head of the sorted list |
| Census.ScanMeans | agent/gpu_health_agent/signals/dstate.py:214-258 | the scan, although it reads its clocks while it starts new ones, counts every task by the clocks from before the pass: tasks of each kind, largest seconds, stuck tasks |
| Census.MaxIsMax | agent/gpu_health_agent/signals/dstate.py:242-251 | the running maximum is zero or attained, and never exceeded |
| Census.IsGpuIff | agent/gpu_health_agent/signals/dstate.py:171-181 | with a disclosed symbol a task is a GPU task iff the symbol is some text, a configured part and some text; otherwise iff its name begins with a configured prefix |
| Census.TotalsAre | agent/gpu_health_agent/signals/dstate.py:214-258 | the five totals are the numbers of entries whose stat line reads as D, told by their symbol, name and clock |
| Census.MaximaAre | agent/gpu_health_agent/signals/dstate.py:242-246 | the two maxima are the rounded longest waits, overall and among GPU tasks |
| Census.OffendersDescribe | agent/gpu_health_agent/signals/dstate.py:252-258 | every reported offender has the ids, name, symbol, seconds and classification of a stuck entry |
| Census.StuckIffRun | agent/gpu_health_agent/signals/dstate.py:223-249 | a task is stuck iff its unbroken run of readable passes in D is as long as the threshold |
| Census.TotalsNest | agent/gpu_health_agent/signals/dstate.py:233-251 | stuck GPU tasks at most stuck and at most GPU tasks, all at most the total; denied at most the total |
| Census.StuckIffMaximum | agent/gpu_health_agent/signals/dstate.py:242-251 | with a positive threshold a task is stuck iff the maximum reaches it, overall and among GPU tasks |
| Census.OffendersAreLongest | agent/gpu_health_agent/signals/dstate.py:252-283 | min(20, stuck) offenders, longest first by the seconds shown, none left out showing more than one kept |
| Census.CensusClockMeaning | agent/gpu_health_agent/signals/dstate.py:223-264 | clocks are those of the tasks, by tid and start time, found in D at the last readable pass, since the first of an unbroken run |
| Census.ReuseStartsFresh | agent/gpu_health_agent/signals/dstate.py:159-161 | a task whose tid and start time were not both found in D at the last readable pass starts at zero |
| Exposition.EscIsCharwise | agent/gpu_health_agent/metrics.py:17-24 | the three replacements in a row escape each character exactly once |
| Exposition.EscIsClean | agent/gpu_health_agent/metrics.py:17-24 | an escaped value has no line feed and no unescaped quote |
| Exposition.UnescapeInvertsEsc | agent/gpu_health_agent/metrics.py:17-24 | unescaping by the text exposition format 0.0.4, section "Text format details", gives every value back |
| Exposition.FindsPrinted | agent/gpu_health_agent/signals/exporter.py:33-37 | scanning a printed label list finds exactly its pairs |
| Exposition.LabelRoundTrip | agent/gpu_health_agent/signals/exporter.py:33-37 | printed labels come back with the same keys, each value unchanged iff it has no backslash and no line feed |
| Exposition.SampleRoundTrip | agent/gpu_health_agent/signals/exporter.py:32-32 | a printed sample line is split into its name, label text and value |
| Metrics.Buffer.constructor | agent/gpu_health_agent/metrics.py:28-31 | an empty buffer |
| Metrics.Buffer.Metric | agent/gpu_health_agent/metrics.py:33-48 | adds the help and type lines on a family's first use and one sample line; every family is typed once and before its samples |
| Metrics.AddedAre | agent/gpu_health_agent/metrics.py:34-48 | the lines one call adds, one by one |
| Metrics.MetricReadsBack | agent/gpu_health_agent/metrics.py:33-48 | the line a call adds last reads back: full name, number or "1" or "0" for a flag, the node label, and every label of the call under its own key, unchanged iff it has no backslash and no line feed |

## Left out

- HTTP servers, TLS, tokens, JSON transport, threads and locks: input and output only; a pass of a loop is one step.
- How long a guard goes on acting after its lease write: the lease theorem is about the clock readings passes start from, not about when their patches arrive.
- Deletion of the lease object: nothing in the programs deletes it, and in the model only creates and updates change it.
- A patch that the API server applied although the call raised: the guard does not count it, and neither does the model.
- The calendar behind `parse_time` and `rfc3339_micro`: a stamp is its whole seconds or nothing.
- Message, Event and reason texts, heartbeat times, `last_hit` lines, `node_states`, both `config.py` and `patchctr.py`: they decide nothing.
- Debounce.CordonMeansHeld: the history starts on a node object without the agent's conditions; what an earlier agent process published is part of the history, before a restart event.
- Leases.LeaseSafety: takes the lease duration as not negative; the API server refuses a lease object with a negative one.
- Supervision.ExporterSupervisor.Evaluate: takes pod names as unique, as they are in one listing of one namespace.
- PolicyProperties.BatchKeepsCapacity: takes node names as unique, as they are in one cluster.
- KernelLogRuns.ExactlyOnce: follows one path that can always be opened; `PathsAreIndependent` says why several do not disturb each other, `FailedReopenIsFatal` what a failed open does.
- Partly written log lines, carriage returns as line ends, undecodable bytes and reuse of an inode number: the tailer is modelled on whole lines and fresh inodes.
- Census.DStateCensus.Collect: the rounding to tenths is an arbitrary function of the seconds.
- StatParser.DecimalRoundTrip: `int()` is modelled for ASCII digits with an optional sign, without underscores or other digits.
- `ExporterProbe.collect` and `NodeLocalEndpointResolver`: they copy parsed samples into a dictionary and cache an address.
- FenceReaper.ReapStranded: one atomic call; the gap between unlocking and signaling, 64-bit time overflow and a fence in two slots are not modelled.
- The D1 to D5 patches, the D4 watchdog, deployment files, dashboards and alert rules.
