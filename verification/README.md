# Verified models of orxtra

Dafny models of the parts of orxtra whose behaviour spans many steps, with proofs of what every
run keeps. `dafny verify dfyconfig.toml` checks the whole project; nothing in it is executed.

Code that changes state is modelled twice. A datatype holds the value of the fields, with one
function for each operation; a class updates the same fields in place, and its methods are
proved against these functions. Concurrent code is a state machine: a run is any sequence of
steps, so a lemma about every run covers every interleaving and, where a step is a crash, every
crash. Outcomes that the code does not decide itself (sessions, checks, action executions,
clocks, new ids) are parameters.

- **Dispatch** (`MemoryBackend`, `DispatchProtocol`, `DispatchProgress`, `DispatchAccounting`,
  `DispatchBuffering`, `AccumulatorConservation`, `AccumulatorThreshold`, `DispatchWorker`): the
  durable worker with its cursor, completion records and accumulator. Executions are counted as
  attempts: the worker swallows an action's exception and records the pair as done.
- **Scheduler** (`Graph`, `Validator`, `GroupExecutor`, `CompositeTask`, `Lifecycle`,
  `LifecycleInvariants`, `LifecycleSteps`, `Locks`, `AgentRetry`, `ForEach`, `Budget`,
  `BudgetedRun`, `BudgetEvents`): dependency graphs, validation, execution in groups, the handlers
  of the task lifecycle, retries, concurrent iterations and budgets.
- **Notifications** (`Notification`, `NotificationStream`): catch-up followed by a live stream.
- **Secrets** (`Secrets`, `SecretsRoundTrip`), **includes** (`Includes`), **AG-UI**
  (`Translator`, `BroadcasterRegistry`) and the **literal rewrapper** (`Rewrap`, `RewrapFile`).

`Wrappers` and `Sorting` hold what several of these need.

Some promises turned out to be conditional. Each of these is a result of its own, with the exact
condition where one exists:

- Validation lets a KeyError escape instead of reporting an unknown dependency target
  (`Validator.ValidateTaskTree`), and does not look at the dependencies of subtasks
  (`CompositeTask.ValidatedYetCyclic`).
- Without crashes no action is performed twice for an event exactly if there is at most one
  worker, or nothing to do: two workers may repeat each other whether they share a cursor or not
  (`DispatchAccounting.AtMostOnceExactly`).
- A buffered entry is stranded, claimed for good by nobody, exactly if the process that held it
  crashed or raised before its batch had been executed
  (`AccumulatorConservation.StrandedExactlyWhenDropped`); the worker's description promises
  delivery at least once.
- A live notification is found only among the first 50 deliveries of its principal
  (`NotificationStream.EmittedExactly`), and a heartbeat that times out just as a notification
  is taken from the queue drops it (`NotificationStream.HeartbeatLosesDelivery`). The stream's
  description promises that none is lost; within the first 50 this holds exactly if no
  heartbeat drops one (`NotificationStream.LostExactlyWhenDropped`).
- Scrubbing and substitution undo each other exactly when no written placeholder can be damaged
  by a value scrubbed later (`SecretsRoundTrip.RoundTripExactly`), and scrubbing leaves no value
  behind exactly when no placeholder that can be written reveals one
  (`SecretsRoundTrip.NothingLeftExactly`): the value of a secret named after it stays in its own
  placeholder (`SecretsRoundTrip.OwnPlaceholderReveals`).
- An escalated task may return checks that all passed (`AgentRetry.AllPassedExactly`), and a task
  that times out or whose retry is aborted is reported to nobody and keeps the locks that its last
  session held (`AgentRetry.AgentExecution.ExecuteAgentTask`).
- A refused create_task call changes the tasks exactly if it is refused for its paths
  (`LifecycleInvariants.RefusedCreateChangesExactly`). It then leaves a child without a claim
  behind, which can be started, and its parent cannot be ended before this child is completed
  (`LifecycleInvariants.ConflictBlocksParent`).
- The rewrapper keeps the text at every limit exactly for bodies without empty words
  (`Rewrap.TextKeptExactly`), and at a given limit exactly if no line is put out at an empty
  word (`Rewrap.TextKeptAtLimit`); its own description says that the string is always unchanged.
- The sweep of the broadcaster registry never evicts anything
  (`BroadcasterRegistry.SweepNeverEvicts`); its description says that it cleans up entries.
- A tool call never names a parent message (`Translator.OutputIsFramed`), since the message is
  closed first.

## Model

| member | source | states |
|---|---|---|
| Graph.BuildGraph | scheduler/src/orxtra/scheduler/_graph.py:18-25 | every task and every dependency source is a node; a source has exactly its listed dependencies and any other node has none |
| Graph.TopologicalSort | scheduler/src/orxtra/scheduler/_graph.py:28-65 | returns an order exactly when the graph is closed and acyclic, and then a permutation of the nodes with every dependency before its dependent; the KeyError names a dependency that is no node; otherwise the CycleError carries a genuine cycle |
| Graph.CountEdges | scheduler/src/orxtra/scheduler/_graph.py:36-44 | in-degrees count the dependencies and each dependency lists its dependents once, or a dependency outside the graph is found |
| Graph.ListDependent | scheduler/src/orxtra/scheduler/_graph.py:43-44 | enters one node under each of its dependencies, once, or reports the dependency that is no node |
| Graph.StartNodes | scheduler/src/orxtra/scheduler/_graph.py:46-49 | the queue starts with exactly the nodes without dependencies |
| Graph.PlaceNodes | scheduler/src/orxtra/scheduler/_graph.py:51-58 | the placed nodes have their dependencies before them, and the nodes left over all still wait for a dependency |
| Graph.DeductAll | scheduler/src/orxtra/scheduler/_graph.py:55-58 | deducting a placed node from its dependents keeps every in-degree equal to the number of unplaced dependencies |
| Graph.UnplacedCycle | scheduler/src/orxtra/scheduler/_graph.py:60-63 | the cycle raised lies in the nodes that could not be placed |
| Graph.UnplacedAreStuck | scheduler/src/orxtra/scheduler/_graph.py:60-63 | every node that Kahn's sort leaves over waits for another node left over |
| Graph.FindCycle | scheduler/src/orxtra/scheduler/_graph.py:68-99 | returns a genuine closed walk inside the given nodes whenever there is one, so the fallback list is returned only for a cycle-free set and never for the nodes left over by the sort |
| Graph.CycleSearch.Dfs | scheduler/src/orxtra/scheduler/_graph.py:76-92 | a search that ends without a cycle leaves the path as it was and the node finished after all its dependencies; otherwise the list is a cycle |
| Graph.FinishedNodesAreAcyclic | scheduler/src/orxtra/scheduler/_graph.py:94-99 | nodes whose searches all ended without a cycle contain none |
| Graph.TopologicalOrderIsAcyclic | scheduler/src/orxtra/scheduler/_graph.py:28-65 | an order with dependencies first excludes every closed walk |
| Graph.FindParallelGroups | scheduler/src/orxtra/scheduler/_graph.py:102-122 | succeeds exactly on orders with dependencies first; the groups are non-empty, partition the nodes, and the index of a node is the length of its longest dependency chain |
| Graph.DepthIsLongestChain | scheduler/src/orxtra/scheduler/_graph.py:111-115 | the computed depth of a node is the length of the longest chain of dependencies below it |
| Graph.DepthAbove | scheduler/src/orxtra/scheduler/_graph.py:111-115 | one more than the deepest dependency, and zero without dependencies |
| Graph.GroupByDepth | scheduler/src/orxtra/scheduler/_graph.py:117-121 | group k holds exactly the nodes of depth k and no group is missing |
| Graph.DependenciesInEarlierGroups | scheduler/src/orxtra/scheduler/_graph.py:102-122 | a dependency lies in a strictly earlier group than its dependent |
| Graph.FewestLayers | scheduler/src/orxtra/scheduler/_graph.py:102-122 | no assignment of layers that respects the dependencies uses fewer layers |
| Validator.Validation.CountExecutionModes | scheduler/src/orxtra/scheduler/_validator.py:14-27 | the count is the number of distinct execution modes the task sets |
| Validator.Validation.ValidateModes | scheduler/src/orxtra/scheduler/_validator.py:95-102 | adds the no-mode or multiple-modes error exactly when it applies |
| Validator.Validation.ValidateAgentFields | scheduler/src/orxtra/scheduler/_validator.py:34-55 | adds exactly the agent-field errors that apply |
| Validator.Validation.ValidateConditionalFields | scheduler/src/orxtra/scheduler/_validator.py:58-84 | adds exactly the retry and for_each errors that apply |
| Validator.Validation.ValidateHeadless | scheduler/src/orxtra/scheduler/_validator.py:107-119 | adds exactly the two errors of a run without an Overseer that apply |
| Validator.Validation.ValidateTask | scheduler/src/orxtra/scheduler/_validator.py:87-131 | adds exactly the errors of the task and its subtree, and the duplicate-name error when the name was seen |
| Validator.Validation.ValidateTasks | scheduler/src/orxtra/scheduler/_validator.py:125-131 | adds exactly the errors of a level: those of each task and of names that an earlier sibling has |
| Validator.Validation.CheckSource | scheduler/src/orxtra/scheduler/_validator.py:140-149 | adds the unknown source and exactly the unknown targets of one entry |
| Validator.Validation.ValidateDependencies | scheduler/src/orxtra/scheduler/_validator.py:134-158 | adds exactly the unknown sources and targets, and a cycle error that carries a genuine cycle when the closed graph has one |
| Validator.Validation.ValidateVariableCollisions | scheduler/src/orxtra/scheduler/_validator.py:161-180 | adds a collision exactly for the workflow variables that are a task output variable |
| Validator.ValidateTaskTree | scheduler/src/orxtra/scheduler/_validator.py:183-206 | the KeyError escapes exactly when some dependency is neither a task nor a source; otherwise the list is empty exactly for a well-formed configuration, holds every error there is (one cycle for a cyclic graph), and every error in it is genuine |
| Validator.ErrorsByField | scheduler/src/orxtra/scheduler/_validator.py:14-131 | a task error is in the list exactly if the fields of a task in the tree with that name call for it |
| Validator.CollidesByName | scheduler/src/orxtra/scheduler/_validator.py:161-180 | a variable collides exactly if some task takes it and it is a task name with one of the three suffixes |
| Validator.DependencyErrorsByName | scheduler/src/orxtra/scheduler/_validator.py:134-149 | a source, or a target, is reported exactly if no task has its name |
| Validator.KeyErrorEscapes | scheduler/src/orxtra/scheduler/_validator.py:134-158 | the KeyError does escape: a single task that depends on a name that no task has |
| Validator.FaultlessTask | scheduler/src/orxtra/scheduler/_validator.py:87-131 | a task subtree has no error exactly when all its fields, modes and names are well formed at every level |
| Validator.NoErrors | scheduler/src/orxtra/scheduler/_validator.py:183-206 | no error of any kind exactly for a configuration that is well formed, with known dependencies, acyclic, and without collisions |
| Validator.KeysAreDistinct | scheduler/src/orxtra/scheduler/_validator.py:11 | output variables of different tasks or suffixes never coincide |
| GroupExecutor.Prepare | scheduler/src/orxtra/scheduler/_executor.py:626-631 | on a validated configuration neither the sort nor the layering can fail, and the groups hold every registered task exactly once |
| GroupExecutor.PublishResults | scheduler/src/orxtra/scheduler/_executor.py:664-692 | writes the three output variables of every task of the group |
| GroupExecutor.PublishedValues | scheduler/src/orxtra/scheduler/_executor.py:664-692 | after the write each task of the group has its own three values and no other task's value has changed |
| GroupExecutor.PublishedFields | scheduler/src/orxtra/scheduler/_executor.py:664-692 | by name: the text is the plain output, the output is the structured output unless that is missing or empty, and the result tells whether all checks passed and how many retries there were |
| GroupExecutor.EveryRun | scheduler/src/orxtra/scheduler/_executor.py:645-717 | in every interleaving starts are distinct and only of opened groups, snapshots hold the results of all earlier groups, and a stopping policy stops right after the escalated group |
| GroupExecutor.StartsAfterDependencies | scheduler/src/orxtra/scheduler/_executor.py:645-662 | a task that has started has all its transitive dependencies finished and their three variables in its snapshot |
| GroupExecutor.NothingAfterEscalation | scheduler/src/orxtra/scheduler/_executor.py:694-708 | under HALT and ABORT_ALL nothing in a group after that of an escalated task ever starts |
| GroupExecutor.StoppedByPolicy | scheduler/src/orxtra/scheduler/_executor.py:694-708 | with an escalated task in a group that is over a run is paused under HALT, aborted under ABORT_ALL and goes on under CONTINUE_INDEPENDENT; without one it goes on |
| GroupExecutor.EveryTaskRunsOnce | scheduler/src/orxtra/scheduler/_executor.py:645-709 | under CONTINUE_INDEPENDENT a run that is over has started and finished every task exactly once |
| GroupExecutor.SomeStepIsEnabled | scheduler/src/orxtra/scheduler/_executor.py:645-717 | no run gets stuck before it is over |
| GroupExecutor.RunsAreBounded | scheduler/src/orxtra/scheduler/_executor.py:645-717 | a run in which every step changes something has at most two steps for each group and each task |
| GroupExecutor.MaximalRunIsOver | scheduler/src/orxtra/scheduler/_executor.py:645-717 | a run that cannot go on is over |
| CompositeTask.PlanSubtasks | scheduler/src/orxtra/scheduler/_task_dispatch.py:235-280 | subtasks without dependencies run all at once; otherwise the groups are the longest-chain layers, and a CycleError or KeyError escapes exactly when the dependency lists are cyclic or name no sibling |
| CompositeTask.DependsAsListed | scheduler/src/orxtra/scheduler/_task_dispatch.py:235-262 | under distinct names a subtask depends on exactly what its own list names |
| CompositeTask.ValidatedYetCyclic | scheduler/src/orxtra/scheduler/_validator.py:125-131 | validation accepts a composite task with a subtask that depends on itself |
| MemoryBackend.InMemoryBackend.BufferEvent | dispatch/src/orxtra/dispatch/_memory_backend.py:105-107 | the entry is stored under its id, in place of an older one with that id |
| MemoryBackend.PutReplaces | dispatch/src/orxtra/dispatch/_memory_backend.py:105-107 | an entry under an id in use takes the place of the older one, and all others stay as they are |
| MemoryBackend.PendingIsAll | dispatch/src/orxtra/dispatch/_memory_backend.py:129-134 | the pending count of an action is the number of all its entries, claimed or not |
| MemoryBackend.InMemoryBackend.ClaimBatch | dispatch/src/orxtra/dispatch/_memory_backend.py:109-122 | returns the oldest unclaimed entries of the action up to the limit and marks exactly these as claimed |
| MemoryBackend.ClaimTakesOldest | dispatch/src/orxtra/dispatch/_memory_backend.py:109-122 | a claimed batch is oldest first, within the limit, of this action only, and nothing left unclaimed is older than anything taken |
| MemoryBackend.InMemoryBackend.ConfirmBatch | dispatch/src/orxtra/dispatch/_memory_backend.py:124-127 | exactly the given entries leave the accumulator and the claimed set |
| MemoryBackend.InMemoryBackend.AdvanceCursor | dispatch/src/orxtra/dispatch/_memory_backend.py:143-146 | sets this cursor and changes nothing else |
| MemoryBackend.InMemoryBackend.RecordCompletion | dispatch/src/orxtra/dispatch/_memory_backend.py:155-161 | adds the pair's record and changes nothing else |
| MemoryBackend.InMemoryBackend.PollEventsSince | dispatch/src/orxtra/dispatch/_memory_backend.py:165-181 | the events after the given one, at most the limit, none if it is unknown; a limit of zero still yields one event after a known one |
| MemoryBackend.PolledEvents | dispatch/src/orxtra/dispatch/_memory_backend.py:165-181 | what is polled follows on the given event without a gap, and is as long as the limit and the list allow |
| MemoryBackend.NothingAfterUnknown | dispatch/src/orxtra/dispatch/_memory_backend.py:165-181 | after an unknown event nothing is polled |
| MemoryBackend.InMemoryBackend.InjectEvent | dispatch/src/orxtra/dispatch/_memory_backend.py:183-185 | appends the event |
| DispatchProtocol.CursorsNeverPassUnfinished | dispatch/src/orxtra/dispatch/_dispatch_worker.py:210-271 | for any workers, interleavings and crashes, every event at or before a stored cursor has a record for every action of every matching subscription |
| DispatchProtocol.DueExactly | dispatch/src/orxtra/dispatch/_delivery.py:68-103 | an action is due for an event exactly if some subscription has it whose event types, principal and sources, as far as each is set, admit the event |
| DispatchBuffering.RecordedWasBuffered | dispatch/src/orxtra/dispatch/_dispatch_worker.py:240-266 | in every run an event recorded as done for an accumulating action has been in the accumulator for it |
| DispatchBuffering.EntriesAreDue | dispatch/src/orxtra/dispatch/_dispatch_worker.py:240-254 | in every run each entry of the accumulator is that of an accumulating action due for a known event |
| DispatchBuffering.ImmediateIsNotBuffered | dispatch/src/orxtra/dispatch/_dispatch_worker.py:240-262 | nothing is ever buffered for an action that is executed at once |
| DispatchBuffering.FlushOrSchedule | dispatch/src/orxtra/dispatch/_dispatch_worker.py:351-366 | after its insert a worker claims a batch exactly if the entries of the action, claimed or not, have reached its positive threshold, and otherwise a flush is scheduled if there is an interval |
| DispatchProtocol.ProgressKeepsSafe | dispatch/src/orxtra/dispatch/_dispatch_worker.py:227-267 | a call moves the cursor only to an event all of whose actions, and those of all events before it, are recorded |
| DispatchProgress.CatchesUp | dispatch/src/orxtra/dispatch/_dispatch_worker.py:210-271 | from every reachable state on, a worker with a positive batch size that does not crash, with no event appended and its cursor left alone, however the other workers, timed flushes and crashes interleave with it, has its cursor at the last event and all records written once it has made 1 call and for each event 3 calls and 7 for each of its actions |
| DispatchProgress.CanCatchUp | dispatch/src/orxtra/dispatch/_dispatch_worker.py:210-271 | so one worker alone can finish everything from every reachable state in that many calls |
| DispatchProgress.CallIsProgress | dispatch/src/orxtra/dispatch/_dispatch_worker.py:210-410 | each call lowers what a worker has left to do, whatever its outcome, until it is at the end, where it stays |
| DispatchAccounting.EveryPerformanceAccounted | dispatch/src/orxtra/dispatch/_dispatch_worker.py:240-266 | every execution or buffer insert is recorded, lost to a crash or under way, so every completion record was preceded by one |
| DispatchAccounting.PerformedOncePerLoss | dispatch/src/orxtra/dispatch/_dispatch_worker.py:240-266 | with one worker a pair is performed at most once more than the crashes between its performance and its record, and exactly so once recorded |
| DispatchAccounting.LossNeedsCrash | dispatch/src/orxtra/dispatch/_dispatch_worker.py:240-266 | without a crash nothing performed is lost |
| DispatchAccounting.ExactlyOnceWithoutCrash | dispatch/src/orxtra/dispatch/_dispatch_worker.py:240-266 | one worker without crashes performs every recorded pair exactly once |
| DispatchAccounting.TwoWorkersRepeat | dispatch/src/orxtra/dispatch/_dispatch_worker.py:240-266 | for any setup with two or more workers, whatever their cursors, a positive batch size and an event with an action, some run without a crash performs a pair twice |
| DispatchAccounting.AtMostOnceExactly | dispatch/src/orxtra/dispatch/_dispatch_worker.py:210-271 | all runs without a crash perform each pair at most once exactly when there is at most one worker, or the batch size is 0, or no event has an action |
| AccumulatorConservation.EntriesConserved | dispatch/src/orxtra/dispatch/_dispatch_worker.py:331-410 | every entry ever buffered is exactly one of unclaimed, claimed and confirmed; batches under way are disjoint, at most 100 long, and only executed entries are confirmed |
| AccumulatorConservation.StrandedExactlyWhenDropped | dispatch/src/orxtra/dispatch/_dispatch_worker.py:378-410 | after any run an entry is claimed, unexecuted and held by no process exactly when in some step the process that held it crashed, or its execution raised, before the batch had been executed |
| AccumulatorConservation.RunsThatStrand | dispatch/src/orxtra/dispatch/_dispatch_worker.py:331-410 | one worker and one event suffice: a run from the start whose last step is the crash, or the failing execution, of the flush strands the entry |
| AccumulatorConservation.FailedFlushIsNeverRetried | dispatch/src/orxtra/dispatch/_dispatch_worker.py:378-410 | such entries are never executed or confirmed in any later run |
| DispatchWorker.DispatchWorker.FlushAction | dispatch/src/orxtra/dispatch/_dispatch_worker.py:378-410 | executes one claimed batch and confirms it unless the execution raised; an empty batch changes nothing; what leaves the accumulator is in the batch executed; a flush that does not raise keeps every action below its threshold |
| DispatchWorker.DispatchWorker.BufferOrFlush | dispatch/src/orxtra/dispatch/_dispatch_worker.py:331-366 | afterwards an entry for the event is in the accumulator or in the batch just flushed, and nothing else has left the accumulator but in that batch; below the threshold the entry is only stored and a flush scheduled if an interval is set, at the threshold one batch is flushed and nothing scheduled; unless the flush fails every action stays below its positive threshold |
| AccumulatorThreshold.BelowThresholdThroughout | dispatch/src/orxtra/dispatch/_dispatch_worker.py:331-410 | from an empty store on, after any buffering calls and timed flushes of any actions of which none fails, every action has fewer entries pending than its positive threshold and nothing is left claimed |
| AccumulatorThreshold.BufferKeepsBelow | dispatch/src/orxtra/dispatch/_dispatch_worker.py:331-366 | one buffering call, with the flush it may ask for, keeps all actions below their thresholds |
| AccumulatorThreshold.FlushKeepsBelow | dispatch/src/orxtra/dispatch/_dispatch_worker.py:378-410 | and so does a timed flush of any action |
| AccumulatorThreshold.FlushKeepsOthers | dispatch/src/orxtra/dispatch/_dispatch_worker.py:378-410 | a flush of one action leaves the pending count of every other action as it was |
| AccumulatorThreshold.FlushLowersPending | dispatch/src/orxtra/dispatch/_dispatch_worker.py:378-410 | a flush with nothing claimed before takes at least one entry away |
| AccumulatorThreshold.FlushLeavesNothingClaimed | dispatch/src/orxtra/dispatch/_dispatch_worker.py:378-410 | and leaves nothing claimed behind |
| DispatchWorker.DispatchWorker.ProcessAction | dispatch/src/orxtra/dispatch/_dispatch_worker.py:243-266 | the pair is recorded, and unless it already was, an immediate action has been executed and an accumulating one has an entry for the event in the accumulator or in a batch flushed meanwhile |
| DispatchWorker.DispatchWorker.ProcessActions | dispatch/src/orxtra/dispatch/_dispatch_worker.py:240-266 | does so for each of the actions, the first of those with one id: every missing record comes from a new execution or a new entry, and the new executions are exactly those of the immediate actions, in order |
| DispatchWorker.ExecutionsAreAll | dispatch/src/orxtra/dispatch/_dispatch_worker.py:240-266 | every immediate action without a record is executed |
| DispatchWorker.DispatchWorker.ProcessEvent | dispatch/src/orxtra/dispatch/_dispatch_worker.py:231-266 | does so for the actions of all matching subscriptions of one event |
| DispatchWorker.ExecutionsAreNew | dispatch/src/orxtra/dispatch/_dispatch_worker.py:240-266 | no pair is executed that already has a record, and none twice |
| DispatchWorker.DispatchWorker.FinishEvent | dispatch/src/orxtra/dispatch/_dispatch_worker.py:231-269 | one more event of the batch is recorded and executed and the cursor moves to it |
| DispatchWorker.DispatchWorker.ProcessBatch | dispatch/src/orxtra/dispatch/_dispatch_worker.py:224-269 | processes a prefix of the batch, cut short only by a stop request, with the cursor on its last event; every missing record of these events comes from a new execution or a new entry; without a failing flush all actions stay below their thresholds |
| DispatchWorker.DispatchWorker.PollAndProcess | dispatch/src/orxtra/dispatch/_dispatch_worker.py:210-271 | takes up at the cursor, and a cursor with everything recorded behind it stays such a cursor; every action due for a polled event has been executed, or its event buffered, unless it was recorded before |
| DispatchWorker.BatchIsCaughtUp | dispatch/src/orxtra/dispatch/_dispatch_worker.py:210-271 | recording a polled stretch extends what is finished behind the cursor to the end of that stretch |
| Secrets.Scrub | secrets/src/orxtra/secrets/_registry.py:75-79 | replaces every secret in scrub order |
| Secrets.ReplaceAroundBarrier | secrets/src/orxtra/secrets/_registry.py:75-79 | replacement acts separately on both sides of a character that the value does not contain |
| SecretsRoundTrip.CreateKeepsSecrets | secrets/src/orxtra/secrets/_registry.py:11-23 | for any secrets under distinct names construction fails exactly for an empty value, and otherwise keeps every value and scrubs every secret, longest value first; the registry is one of the round trip exactly if every name consists of letters, digits, '_' and '-' and no value has a brace |
| SecretsRoundTrip.SubstituteReference | secrets/src/orxtra/secrets/_registry.py:65-73 | a reference whose name consists of one or more letters, digits, '_' and '-' is replaced by the value of its secret, or stays as it is if there is none |
| SecretsRoundTrip.SubstituteElsewhere | secrets/src/orxtra/secrets/_registry.py:65-73 | where no such reference starts the text keeps its first character |
| SecretsRoundTrip.SubstituteAfterScrub | secrets/src/orxtra/secrets/_registry.py:65-79 | scrubbing does not change what a text with references expands to, as long as no value clashes with a name in it or a name written earlier |
| SecretsRoundTrip.BraceFreeTextSurvives | secrets/src/orxtra/secrets/_registry.py:65-79 | if no placeholder can be damaged by a value scrubbed after it, substituting after scrubbing gives a brace-free text back |
| SecretsRoundTrip.ScrubUndoesSubstitute | secrets/src/orxtra/secrets/_registry.py:65-79 | under the same condition scrubbing that expansion gives the scrubbed text back |
| SecretsRoundTrip.RoundTripExactly | secrets/src/orxtra/secrets/_registry.py:65-79 | the round trip holds for every brace-free text exactly when no placeholder can be damaged by a value scrubbed after it |
| SecretsRoundTrip.NothingLeftExactly | secrets/src/orxtra/secrets/_registry.py:75-79 | no scrubbed brace-free text contains a registered value exactly when no placeholder that can be written contains one after the replacements that follow it; in every valid registry |
| SecretsRoundTrip.NothingLeftWithoutClash | secrets/src/orxtra/secrets/_registry.py:75-79 | if no placeholder can be damaged by a value scrubbed after it, nothing is left exactly when no value occurs inside a placeholder that can be written |
| SecretsRoundTrip.OwnPlaceholderReveals | secrets/src/orxtra/secrets/_registry.py:75-79 | a value can be left: that of a secret whose value is the word secret |
| SecretsRoundTrip.WholeValueScrubbedAsOne | secrets/src/orxtra/secrets/_registry.py:17-23 | a whole value is scrubbed to its own placeholder even if shorter values occur in it |
| Notification.InMemoryNotificationBackend.CreateDelivery | notification/src/orxtra/notification/_inmemory.py:23-39 | appends an unacknowledged delivery |
| Notification.InMemoryNotificationBackend.ListForPrincipal | notification/src/orxtra/notification/_inmemory.py:41-65 | the result are stored deliveries of the principal, unacknowledged if only these are asked for, past the cursor if there is one, in creation order; one that is missing comes after as many as the limit allows |
| Notification.InMemoryNotificationBackend.AcknowledgeDelivery | notification/src/orxtra/notification/_inmemory.py:67-82 | succeeds exactly for a known unacknowledged delivery, which alone becomes acknowledged, in its place |
| Notification.AcknowledgeAt | notification/src/orxtra/notification/_inmemory.py:67-82 | acknowledging changes that delivery in place and no other |
| NotificationStream.EmittedOnceToOwner | notification/src/orxtra/notification/_stream.py:122-194 | in every interleaving no delivery is emitted twice and every emitted one belongs to the stream's principal |
| NotificationStream.LostExactlyWhenDropped | notification/src/orxtra/notification/_stream.py:122-194 | if the principal has at most 50 deliveries, a drained stream has emitted, each once, exactly what was unacknowledged and past the cursor at replay or created since it subscribed, less what a heartbeat dropped |
| NotificationStream.DroppedByHeartbeat | notification/src/orxtra/notification/_stream.py:173-187 | a delivery counts as dropped exactly when in some step the wait timed out after its notification had been taken from the queue and before it had been emitted |
| NotificationStream.HeartbeatLosesDelivery | notification/src/orxtra/notification/_stream.py:173-187 | a run with a single delivery ends drained without having emitted it |
| NotificationStream.EmittedExactly | notification/src/orxtra/notification/_stream.py:69-194 | under a steady clock a drained stream has emitted exactly what it replayed and what was announced with fewer than 50 deliveries before it and not dropped by a heartbeat |
| NotificationStream.ListComplete | notification/src/orxtra/notification/_inmemory.py:41-65 | a listing with room for all deliveries of the principal misses none that it selects |
| NotificationStream.ListedIffEarly | notification/src/orxtra/notification/_stream.py:69-119 | under a steady clock a live fetch finds a delivery exactly when fewer than 50 of the principal's come before it |
| Locks.OverlapIffSharedPath | scheduler/src/orxtra/scheduler/_locks.py:10-23 | two claims overlap exactly when some path is covered by both, with or without trailing separators |
| Locks.FileLockRegistry.CheckConflict | scheduler/src/orxtra/scheduler/_locks.py:40-46 | finds a task whose claim overlaps exactly when there is one |
| Locks.FileLockRegistry.Claim | scheduler/src/orxtra/scheduler/_locks.py:30-35 | claims the paths exactly when none conflicts, and else changes nothing |
| Locks.FileLockRegistry.Release | scheduler/src/orxtra/scheduler/_locks.py:37-38 | drops this task's claim and no other |
| Locks.ClaimsStayExclusive | scheduler/src/orxtra/scheduler/_locks.py:26-46 | in every reachable registry the claims of distinct tasks do not overlap |
| Locks.NoPathCoveredTwice | scheduler/src/orxtra/scheduler/_locks.py:26-46 | no path is covered by the claims of two tasks |
| Lifecycle.LifecycleHandlers.InitTaskState | scheduler/src/orxtra/scheduler/_executor.py:719-729 | a new task is CREATED with no children and no parent |
| Lifecycle.LifecycleHandlers.HandleStartTask | scheduler/src/orxtra/scheduler/_lifecycle_handlers.py:25-76 | starts only a CREATED task whose prechecks pass and makes it the session's active task |
| Lifecycle.LifecycleHandlers.HandleEndTask | scheduler/src/orxtra/scheduler/_lifecycle_handlers.py:78-190 | completes the active task only if all children are completed and all checks pass, releasing its claims and the session |
| Lifecycle.LifecycleHandlers.CompleteTask | scheduler/src/orxtra/scheduler/_executor.py:818-844 | the task is COMPLETED and its claim, only its claim, is released |
| Lifecycle.LifecycleHandlers.HandleCreateTask | scheduler/src/orxtra/scheduler/_lifecycle_handlers.py:192-275 | registers a child of the active task unless blocked, and then claims its paths or fails |
| Lifecycle.LifecycleHandlers.HandleCreateWorkflow | scheduler/src/orxtra/scheduler/_lifecycle_handlers.py:277-315 | registers a child workflow of the active task unless blocked |
| Lifecycle.LifecycleHandlers.HandleCreateWaitFor | scheduler/src/orxtra/scheduler/_lifecycle_handlers.py:317-343 | registers a waiting child of the active task, blocked or not |
| Lifecycle.LifecycleHandlers.AbortRun | scheduler/src/orxtra/scheduler/_executor.py:852-867 | cancels exactly the tasks in progress and releases their claims |
| LifecycleInvariants.EveryRunKeepsInv | scheduler/src/orxtra/scheduler/_lifecycle_handlers.py:25-343 | after any calls the session-to-task map is injective and on uncompleted tasks, completed tasks have only completed children, and claims are exclusive and of uncompleted tasks |
| LifecycleSteps.EndEffect | scheduler/src/orxtra/scheduler/_lifecycle_handlers.py:78-190 | ending a task is refused without an active task or with an uncompleted child; if a check fails the task is POSTCHECK_FAILED, stays active and keeps its claim; if all pass it is COMPLETED, its session is free and its claim released |
| LifecycleSteps.StartEffect | scheduler/src/orxtra/scheduler/_lifecycle_handlers.py:25-76 | starting a task is refused unless it is CREATED; it becomes the session's active task if the prechecks pass and PRECHECK_FAILED if not |
| LifecycleSteps.CreateEffect | scheduler/src/orxtra/scheduler/_lifecycle_handlers.py:192-343 | a new task is CREATED under the active task of its session, if there is one and the budget allows it, and claims its paths if no claim has one in common |
| LifecycleSteps.AbortEffect | scheduler/src/orxtra/scheduler/_executor.py:852-867 | an abort cancels exactly the active, prechecking and postchecking tasks and releases exactly their claims |
| LifecycleSteps.BecomesCompleted | scheduler/src/orxtra/scheduler/_lifecycle_handlers.py:107-161 | in any run a task becomes COMPLETED exactly when its session ends it with all children completed, passed postchecks and satisfied constraints |
| LifecycleSteps.BecomesPostcheckFailed | scheduler/src/orxtra/scheduler/_lifecycle_handlers.py:132-190 | and POSTCHECK_FAILED exactly when some check or constraint fails instead |
| LifecycleSteps.BecomesActive | scheduler/src/orxtra/scheduler/_lifecycle_handlers.py:40-76 | a task becomes ACTIVE exactly when it is started as CREATED and its prechecks pass |
| LifecycleSteps.BecomesPrecheckFailed | scheduler/src/orxtra/scheduler/_lifecycle_handlers.py:40-76 | and PRECHECK_FAILED exactly when they do not |
| LifecycleSteps.BecomesCancelled | scheduler/src/orxtra/scheduler/_executor.py:852-867 | a task becomes CANCELLED exactly when an abort finds it in progress |
| LifecycleSteps.BecomesCreated | scheduler/src/orxtra/scheduler/_lifecycle_handlers.py:192-343 | a task is registered exactly by an allowed call for a new one |
| LifecycleSteps.OtherStatesNotEntered | scheduler/src/orxtra/scheduler/_lifecycle_handlers.py:25-343 | no call brings a task into any other state, and none is forgotten |
| LifecycleSteps.SessionsChange | scheduler/src/orxtra/scheduler/_lifecycle_handlers.py:25-190 | a session takes a task up by starting it and gives it up by completing it, and never otherwise |
| LifecycleSteps.ClaimIsMade | scheduler/src/orxtra/scheduler/_lifecycle_handlers.py:192-275 | a claim is made exactly by an allowed call whose paths are free, and never changes |
| LifecycleSteps.ClaimIsReleased | scheduler/src/orxtra/scheduler/_executor.py:818-867 | a claim is released exactly when its task is completed or cancelled |
| LifecycleSteps.ChildrenChange | scheduler/src/orxtra/scheduler/_lifecycle_handlers.py:192-343 | a new task is added at the end of its parent's children, and no other children change |
| LifecycleInvariants.DescendantsCompleted | scheduler/src/orxtra/scheduler/_lifecycle_handlers.py:78-190 | all descendants of a completed task are completed |
| LifecycleInvariants.CompletedIsFrozen | scheduler/src/orxtra/scheduler/_lifecycle_handlers.py:192-343 | a completed task stays completed, is nobody's active task, holds no claim and gains no child |
| LifecycleInvariants.BlockedForGood | scheduler/src/orxtra/scheduler/_lifecycle_handlers.py:198-200 | once the budget blocks new work no create_task or create_workflow call succeeds again |
| LifecycleInvariants.RefusedCreateChangesExactly | scheduler/src/orxtra/scheduler/_lifecycle_handlers.py:192-275 | a refused create_task call changes the tasks exactly when the session has an active task, the budget does not block, and its write paths conflict |
| LifecycleInvariants.OrphanStartsUnclaimed | scheduler/src/orxtra/scheduler/_lifecycle_handlers.py:25-76 | the child that such a call leaves behind can be started, and is then active without a claim |
| LifecycleInvariants.ConflictBlocksParent | scheduler/src/orxtra/scheduler/_lifecycle_handlers.py:78-190 | whatever calls follow, a session cannot end the parent of such a child as long as the child is not completed |
| LifecycleInvariants.ChildrenKept | scheduler/src/orxtra/scheduler/_lifecycle_handlers.py:192-343 | a child once registered stays a child of its parent in every continuation |
| BudgetedRun.RefusedExactly | scheduler/src/orxtra/scheduler/_lifecycle_handlers.py:192-315 | in a run of handler calls and charges a call to create work is refused exactly if its session has no active task, a blocking policy is in force and some task's charges have reached its budget, or its write paths conflict |
| BudgetedRun.NothingCreatedOnceExhausted | scheduler/src/orxtra/scheduler/_enforcement.py:92-115 | under a blocking policy, once some task's charges have reached its budget, a call to create work is refused and changes nothing |
| BudgetedRun.LedgerOfRun | scheduler/src/orxtra/scheduler/_enforcement.py:56-115 | the handlers see the flag that the charges of the run set, whatever calls come between them |
| AgentRetry.AgentExecution.ExecuteAgentTask | scheduler/src/orxtra/scheduler/_agent_execution.py:335-712 | for every sequence of sessions: the task ends COMPLETED exactly if some attempt succeeds (it ends by itself, with the task completed and any structured output valid), CANCELLED exactly if one times out, and ESCALATED exactly if a pre-retry callback raises or all attempts go on, each time after attempts that all went on; with the checks, locks and the one report of that case |
| AgentRetry.EndsAsAttemptsSay | scheduler/src/orxtra/scheduler/_agent_execution.py:339-640 | the outcome in terms of the attempts themselves, of which at most one ends the task |
| AgentRetry.RetriedWith | scheduler/src/orxtra/scheduler/_agent_execution.py:416-620 | what a retried attempt tells the later ones, and the check it leaves, by how it ended and in which state |
| AgentRetry.FailedAre | scheduler/src/orxtra/scheduler/_agent_execution.py:672-678 | a message is reported as failed exactly if a check with it has failed |
| AgentRetry.AgentExecution.MakeAttempts | scheduler/src/orxtra/scheduler/_agent_execution.py:335-640 | attempt k starts in CREATED with the records of attempts 1 to k-1, up to the first attempt that stops the loop |
| AgentRetry.AgentExecution.MakeAttempt | scheduler/src/orxtra/scheduler/_agent_execution.py:339-406 | one attempt is recorded with its number, start state and history before the callback or the session can change anything |
| AgentRetry.AgentExecution.RunSession | scheduler/src/orxtra/scheduler/_agent_execution.py:416-640 | the state after a session, by how it ended and whether attempts are left |
| AgentRetry.AgentExecution.Escalate | scheduler/src/orxtra/scheduler/_agent_execution.py:642-712 | releases the locks and reports once: to an active parent with a session, else to the Overseer |
| AgentRetry.AgentExecution.FailedMessages | scheduler/src/orxtra/scheduler/_agent_execution.py:672-678 | the messages of the failed checks, in order |
| AgentRetry.OutcomeIsFirstStop | scheduler/src/orxtra/scheduler/_agent_execution.py:339-640 | the loop ends at the first attempt that is not to be retried, and is exhausted exactly when all retry+1 are |
| AgentRetry.AtMostRetryPlusOne | scheduler/src/orxtra/scheduler/_agent_execution.py:335-339 | at most retry+1 attempts are made, and none for a negative count |
| AgentRetry.PriorsAreNumbered | scheduler/src/orxtra/scheduler/_agent_execution.py:481-486 | after n attempts there are n records, numbered from 1 |
| AgentRetry.AllPassedExactly | scheduler/src/orxtra/scheduler/_agent_execution.py:702-712 | all returned checks passed exactly for a completed task or when every attempt just stopped in some other state, which records no check |
| AgentRetry.EscalatedYetAllPassed | scheduler/src/orxtra/scheduler/_agent_execution.py:702-712 | an escalated task may carry no failed check |
| Budget.BudgetEnforcement.AccumulateCost | scheduler/src/orxtra/scheduler/_enforcement.py:56-115 | adds the charge, the threshold event when it crosses 80%, and the exhaustion event with the effect of the policy |
| Budget.SpentIsSum | scheduler/src/orxtra/scheduler/_enforcement.py:56-115 | however charges interleave, a task has spent the sum of its own |
| Budget.OneThresholdEvent | scheduler/src/orxtra/scheduler/_enforcement.py:77-91 | a task has exactly one threshold event once it has spent 80% of its budget and none before |
| Budget.BlockedIffExhausted | scheduler/src/orxtra/scheduler/_enforcement.py:92-115 | under a blocking policy new work is blocked exactly when some task has reached its budget |
| Budget.ExhaustionsCount | scheduler/src/orxtra/scheduler/_enforcement.py:92-115 | every charge that finds its task's budget used up brings one exhaustion event, and one abort under CANCEL_ALL and TIMEOUT_GRACE; without such a charge there is none |
| Budget.EventsAreGenuine | scheduler/src/orxtra/scheduler/_enforcement.py:77-115 | every event names its task's budget and what the task had spent at a charge of its own, at least 80% of it or all |
| BudgetEvents.SentInOrder | scheduler/src/orxtra/scheduler/_enforcement.py:117-159 | at any moment of interleaved sends the events sent of a task are the first it generated, each once, in order |
| BudgetEvents.NothingLeftAfterSend | scheduler/src/orxtra/scheduler/_enforcement.py:117-159 | when a task's send has ended exactly the events it generated have been sent and none is left in the list |
| Includes.ResolvesIffWellIncluded | compose/src/orxtra/compose/_includes.py:21-46 | resolution succeeds exactly when every chain of includes exists and none returns to a file on it |
| Includes.ErrorIsGenuine | compose/src/orxtra/compose/_includes.py:31-46 | a reported path ends a real chain of includes and is missing or already on the chain |
| Includes.ResolveIsExpand | compose/src/orxtra/compose/_includes.py:21-46 | a text is the result exactly when the expansion without a guard ends with that text at some depth |
| Includes.ResolveDirective | compose/src/orxtra/compose/_includes.py:18-46 | a directive is replaced by what its file resolves to, or fails as that does, and the text goes on right behind it |
| Includes.ResolveElsewhere | compose/src/orxtra/compose/_includes.py:18-46 | where no directive starts the text keeps its first character |
| ForEach.EverySchedule | scheduler/src/orxtra/scheduler/_task_dispatch.py:417-528 | in every schedule at most max_concurrency iterations are in flight, each index is created at most once, and a result at an index comes from the item at that index |
| ForEach.NothingCreatedAfterAbort | scheduler/src/orxtra/scheduler/_task_dispatch.py:423-470 | once the abort flag is set nothing more is created and it stays set |
| ForEach.AbortedExactly | scheduler/src/orxtra/scheduler/_task_dispatch.py:417-528 | the abort flag is set exactly if failures are to abort and some iteration has raised or returned a result that did not pass |
| ForEach.ResultsAreReturned | scheduler/src/orxtra/scheduler/_task_dispatch.py:417-528 | a result stands at an index exactly if the iteration of that index returned it, computed from its item |
| ForEach.AllCreatedWithoutAbort | scheduler/src/orxtra/scheduler/_task_dispatch.py:417-528 | without an abort every item has had its iteration when all are over |
| ForEach.SomeStepIsEnabled | scheduler/src/orxtra/scheduler/_task_dispatch.py:417-528 | with at least one permit no schedule gets stuck |
| ForEach.SchedulesAreBounded | scheduler/src/orxtra/scheduler/_task_dispatch.py:417-528 | a schedule in which every step changes something has at most three steps for each item |
| ForEach.MaximalScheduleIsOver | scheduler/src/orxtra/scheduler/_task_dispatch.py:417-528 | with at least one permit a schedule that cannot go on has every iteration over |
| Translator.AGUITranslator.CloseTextMessage | agui/src/orxtra/agui/_translator.py:72-82 | ends the open message under its own id and forgets it, or does nothing |
| Translator.AGUITranslator.CloseThinkingMessage | agui/src/orxtra/agui/_translator.py:84-89 | ends open thinking, or does nothing |
| Translator.AGUITranslator.HandleStreamDelta | agui/src/orxtra/agui/_translator.py:129-155 | ends thinking first, and starts a message only if none is open |
| Translator.AGUITranslator.HandleClosing | agui/src/orxtra/agui/_translator.py:157-220 | steps, tool calls and results close thinking and text before their own event |
| Translator.AGUITranslator.HandleThinking | agui/src/orxtra/agui/_translator.py:232-253 | emits only what the visibility shows, after ending open text |
| Translator.AGUITranslator.Translate | agui/src/orxtra/agui/_translator.py:96-127 | every input has this one effect on the open-message state, which stays coherent |
| Translator.OutputIsFramed | agui/src/orxtra/agui/_translator.py:129-253 | for every input sequence a strict consumer accepts the output: contents lie in the open message of their kind and id, text and thinking never overlap, no message is empty or closed without need, steps, tool starts and the end of the run come between messages, and a tool call never has a parent message |
| Translator.NothingLostOrAdded | agui/src/orxtra/agui/_translator.py:96-333 | without its framing the output is exactly what the inputs have to tell, in order, where thinking is told to everybody, of the Overseer only, or not at all; so the text deltas join to the streamed text |
| Translator.OpensUnderNewId | agui/src/orxtra/agui/_translator.py:129-155 | a message is opened by a delta only, when none is open, under the new id |
| BroadcasterRegistry.Registry.GetOrCreateChannel | agui/src/orxtra/agui/_registry.py:55-66 | one broadcaster per run, new only if the run has no channel |
| BroadcasterRegistry.Registry.Subscribe | agui/src/orxtra/agui/_registry.py:68-83 | counts the client on the run's channel after the sweep |
| BroadcasterRegistry.Registry.Unsubscribe | agui/src/orxtra/agui/_registry.py:85-103 | counts the client off, never below zero, and evicts a terminal channel left empty |
| BroadcasterRegistry.Registry.MarkTerminal | agui/src/orxtra/agui/_registry.py:105-119 | marks the channel, and evicts it if it is empty |
| BroadcasterRegistry.Registry.Sweep | agui/src/orxtra/agui/_registry.py:130-138 | evicts exactly the channels that are terminal and empty |
| BroadcasterRegistry.SweepNeverEvicts | agui/src/orxtra/agui/_registry.py:68-138 | after any calls whatever no stored channel is terminal and empty, so the sweep never evicts anything |
| BroadcasterRegistry.FinishMarks | agui/src/orxtra/agui/_registry.py:105-119 | the end of a run marks its channel, or removes it if nobody watches; no other channel changes |
| BroadcasterRegistry.LeaveCountsOff | agui/src/orxtra/agui/_registry.py:85-103 | a leaving client is counted off, and the last one to leave an ended run takes the channel along |
| BroadcasterRegistry.JoinCountsOn | agui/src/orxtra/agui/_registry.py:68-83 | a joining client is counted on its run's channel, which is new if there was none |
| BroadcasterRegistry.LookCreates | agui/src/orxtra/agui/_registry.py:55-66 | looking a channel up creates it, without a client, if there was none |
| BroadcasterRegistry.EveryRunKeepsInv | agui/src/orxtra/agui/_registry.py:68-119 | when clients come and go once, each channel's count is the number of its live clients |
| BroadcasterRegistry.SharedExactlyWithinRun | agui/src/orxtra/agui/_registry.py:55-83 | live clients share a broadcaster exactly when they watch the same run |
| BroadcasterRegistry.ClampNeverFires | agui/src/orxtra/agui/_registry.py:85-103 | a leaving client always finds its channel with a positive count |
| Rewrap.Fill | scripts/rewrap_long_help.py:33-52 | the lines of the greedy refill of the body's words |
| Rewrap.JoinOfSplit | scripts/rewrap_long_help.py:35 | splitting at spaces loses nothing |
| Rewrap.FillKeepsText | scripts/rewrap_long_help.py:33-52 | if no line is put out at an empty word the lines join to the same text |
| Rewrap.FillFits | scripts/rewrap_long_help.py:33-52 | every line has room for its separator within the budget of its place, or is a single word |
| Rewrap.FillIsGreedy | scripts/rewrap_long_help.py:33-52 | no line but the last had room for the first word of the next one |
| Rewrap.TextKeptAtLimit | scripts/rewrap_long_help.py:33-52 | at a given limit the text is kept exactly when the body starts with a word and no line is put out at an empty word |
| Rewrap.TextKeptExactly | scripts/rewrap_long_help.py:33-52 | the text is kept at every limit exactly when the body has no empty word |
| RewrapFile.RewrapBlock | scripts/rewrap_long_help.py:55-73 | refills a block of one indent and leaves any other alone |
| RewrapFile.EmitIsBlock | scripts/rewrap_long_help.py:65-73 | the literals written form one block with the given lead, indent and trail, and concatenate to the joined parts |
| RewrapFile.RefilledKeepsText | scripts/rewrap_long_help.py:55-73 | a refilled block has the same text, lead, indent and trail exactly when nothing is lost at an empty word |
| RewrapFile.RefilledFits | scripts/rewrap_long_help.py:55-73 | every line of a refilled block keeps the limit or holds a single word |
| RewrapFile.FindBlock | scripts/rewrap_long_help.py:92-99 | the block ends at a trailing comma, before a line with a keyword, or before a line that is no literal |
| RewrapFile.BlockSizeIs | scripts/rewrap_long_help.py:92-99 | the block found is the only run of continuing literals that cannot be extended |
| RewrapFile.ListOverLong | scripts/rewrap_long_help.py:101-107 | lists exactly the numbers of the over-long lines |
| RewrapFile.RewrapChunk | scripts/rewrap_long_help.py:101-114 | a chunk is replaced, or copied with its over-long lines reported |
| RewrapFile.RewrapLines | scripts/rewrap_long_help.py:76-117 | the file is the rewritten chunks in order, the report is that of the chunks that are not rewrapped, and without a rewrapped block the file is left as it is |
| RewrapFile.FileIsFaithful | scripts/rewrap_long_help.py:76-117 | if no rewrapped block loses anything at an empty word, the new file has the same chunks in the same order: lines outside rewrapped blocks are copied and a rewrapped block has the same text in lines that fit |
| RewrapFile.ChunksOfLines | scripts/rewrap_long_help.py:92-99 | maximal chunks written one after another are read back as exactly these chunks |
| RewrapFile.ReportedIsOverLong | scripts/rewrap_long_help.py:84-107 | a reported number is that of an over-long line in a chunk that cannot be rewrapped |
| RewrapFile.ReportedExactly | scripts/rewrap_long_help.py:84-107 | a number is reported exactly if its line, as text, is longer than the limit and lies in a chunk that is not a block of one indent |
| RewrapFile.RewrappedExactly | scripts/rewrap_long_help.py:101-114 | a chunk is rewrapped exactly if it is a block of one indent with a line longer than the limit |
| RewrapFile.OtherChunksAreCopied | scripts/rewrap_long_help.py:101-115 | every other chunk is copied as it is |
| RewrapFile.LenIsLength | scripts/rewrap_long_help.py:84-103 | the length that is compared is that of the line as it stands in the file |
| RewrapFile.NothingReportedAllFit | scripts/rewrap_long_help.py:76-137 | when nothing is reported every line of the result keeps the limit or holds a single word |

## Left out

- PostgreSQL backends, LISTEN/NOTIFY set-up and malformed payloads, pools, HTTP and SSE encoding: only the in-memory backends are modelled.
- Sources, subscriptions and actions are fixed during a run of the dispatch worker, and the sweep of expired inbox items is not modelled.
- What sessions, tools, checks, callbacks and action executions do: their outcomes are arbitrary.
- Pausing, cancelling and `gather` exceptions from outside in the group executor, and its health checks and advisories between groups.
- Prechecks and postchecks of composite and orchestrator tasks, which complete without looking at their children; the retry loop's move from COMPLETED back to CREATED is in `AgentRetry` and not a step of `Lifecycle`.
- `await_task`, which only notes the task its session waits for, and the task context with its nesting depth: no property modelled here depends on them.
- Rounding of `Decimal` amounts: costs and budgets are reals.
- Wall-clock time: a timed flush may fire at any step, and a timeout is one of the outcomes of a session.
- NotificationStream.EmittedExactly: assumes that later deliveries are not created with an earlier time, because the listing sorts by that time; `NotificationStream.LostExactlyWhenDropped` does not need it.
- SecretsRoundTrip.RoundTripExactly: speaks of registries whose names fit the reference pattern and whose values contain no brace, because a value with a brace can forge a reference.
- Includes.ResolveIsExpand: does not model the recursion limit of the interpreter or the file system; reading a file gives its fixed contents.
- Validator.ValidateTaskTree: the order of errors from dictionaries and sets is left open, because only their presence matters to the caller.
- AgentRetry.AgentExecution.ExecuteAgentTask: token counts, durations and the wording of messages are not modelled.
- Translator.AGUITranslator.Translate: `build_interrupt` is not modelled, because it emits the end of a run without closing anything.
- The literal pattern of the rewrapper, escapes in bodies and the reading and writing of files: a line is given in the parts that the pattern names.
- Generated validators, TOML loading, authentication, mechanical constraints, health windows, allow-lists, command lines and formatters: they would only add easy members.
