# Verified model of the Ansible operator runtime

The operator runs Ansible for custom resources in a Kubernetes cluster. This
project models the parts of it, and of the Docker collection it ships, in which
state, interleaving or parsing is intricate, and proves what they are for.

| module | what it models |
|---|---|
| `ReconcileSteps`, `ReconcileSafety`, `ReconcileRuns` | the reconcile and finalizer protocol as a state machine: any number of reconciles, users and other controllers over versioned objects with stale cached reads; its invariants, safety and progress |
| `ReconcileGuards` | what every run of it does before and after ansible: the finalizer first, failures in the answer |
| `Reconciler`, `JobEvents` | Reconcile as the straight-line code it is, proved to take only steps of that machine, and its event loop |
| `Conditions` | the status conditions and the three updates made to them |
| `EventReceiver` | the event receiver: concurrent handlers, one Close, a read-write lock, a bounded channel |
| `FrameStream`, `SocketHandler` | the demultiplexer of Docker's attach stream and the write side of the socket |
| `NumberBoundaries`, `NumberRuns`, `WordMapping`, `SnakeCase`, `CamelCase`, `Parameters` | conversion of names to snake case, of nested parameters, and the marking of unsafe strings |
| `Logfmt` | the logfmt parser |
| `RequestInfo` | the parser of API request paths |
| `TarStream`, `ChunkReader`, `LinkChase` | tar generation, the stream adapter, following links |
| `Compare` | the comparison of wanted and present values |

Code that changes state in place is a class or a method with loops, proved
against a function; the laws are proved about the functions. `Common` holds
what several modules use.

The frame format is that of the attach stream in the Docker Engine API; block
and record sizes are those of the ustar Interchange Format in POSIX.1-2017.

## Where the code differs from what is said about it

- The comment of SetCondition ties the transition time to a change of status. A
  status also changes without its time, because the updates pass a copy of the
  old condition (`Conditions.StatusChangesWithoutTime`); `TransitionTime` gives
  the exact rule.
- The finalizer's command is not always what precedes a removal: an object
  recreated under its name within a reconcile can lose the finalizer after the
  regular command (`ReconcileRuns.RecreatedObjectLosesFinalizer`).
- SetCondition keeps a condition whose status and reason stay, so a second
  success without the status marked as running keeps the first one's result
  (`Conditions.SecondSuccessKeepsResult`, and exactly when,
  `ResultReportedExactly`).
- A name that is just an acronym gets two underscores in front
  (`CamelCase.AcronymAlone`).
- The event receiver releases its read lock twice in the branch for stopped
  receivers (`EventReceiver.LateRequestCrashes`, and exactly when,
  `CrashedExactlyAfterRefusal`); sends stay safe.
- After a send raised inside `write`, later data is never sent
  (`SocketHandler.StalledForever`).
- ToSnake is not idempotent on all names (`SnakeCase.NotIdempotentOnDigits`);
  `IdempotentExactly` says on which it is.
- A loop of links need not be found (`LinkChase.SelfLinkNeverSettles`);
  `ClosedExactlyWhenSettles` says when following links ends.
- Unicode escapes in logfmt are always rejected (`Logfmt.ParseUnicodeSequence`).
- The strict comparison of sets of dictionaries is not symmetric
  (`Compare.StrictSetOfDictNotSymmetric`); `StrictBothWays` says when it holds
  both ways.

## Model

| member | source | states |
|---|---|---|
| `ReconcileSafety.FinalizerSafety` | internal/ansible/controller/reconcile.go:102-258 | in every interleaving of any number of reconciles with users and other controllers, from an empty cluster: each removal of the finalizer by the operator was decided on a first read that saw the deletion, after a run that delivered the stats event and left no failure unhandled, with the finalizer command unless the object was recreated in between; and an object that ever had the finalizer keeps it until such a removal or until somebody else takes it off |
| `ReconcileSafety.FinalizedBeforeRelease` | internal/ansible/controller/reconcile.go:206-258 | if no object was recreated within a reconcile: an object that lost the finalizer without outside help had the finalizer command run on it, as a deleted object, to the end and without failure |
| `ReconcileSafety.CreatedOnceIsSame` | internal/ansible/controller/reconcile.go:72-103 | which holds in every run in which the object is created at most once |
| `ReconcileSafety.StepKeeps` | internal/ansible/controller/reconcile.go:68-277 | every step (21 kinds, by the operator and by others, a write whose answer is lost among them) keeps the protocol invariant |
| `ReconcileSafety.RunKeeps` | internal/ansible/controller/reconcile.go:68-277 | so does every run |
| `ReconcileSafety.RemovalJustified` | internal/ansible/controller/reconcile.go:249-255 | a worker takes the finalizer off the stored object only at the removal, and then justifiably, although it decides on facts of three different reads |
| `ReconcileSafety.DeletedMidReconcile` | internal/ansible/controller/reconcile.go:246-270 | in every run: when the read after the ansible run finds a deletion that the first read did not see, then in every continuation up to the end of this reconcile its worker removes nothing, and the reconcile ends with the request to come back after five seconds |
| `ReconcileSafety.OperatorWritesExactly` | internal/ansible/controller/reconcile.go:249-255 | in every reachable state a step of the operator changes in the stored object nothing but its own finalizer and one condition update, and makes an object vanish only if it was deleted and held by that finalizer alone: stale reads lose nobody's changes |
| `ReconcileSafety.WritesAreExact` | internal/ansible/controller/reconcile.go:295-365 | the same for each of the five writes, from the invariant of versions |
| `ReconcileSafety.WorkerStepFits` | internal/ansible/runner/runner.go:190-261 | the command chosen for a run is the finalizer's exactly when the object given to it is deleted, and then the object still has the finalizer |
| `ReconcileRuns.DeletionCompletes` | internal/ansible/controller/reconcile.go:102-276 | progress: whatever happened before, when an object is deleted and only the operator's finalizer holds it, a reconcile in which nobody else acts and ansible succeeds, with any events and result, runs the finalizer command on it, removes the finalizer, makes the object vanish and ends without error |
| `ReconcileRuns.RecreatedObjectLosesFinalizer` | internal/ansible/controller/reconcile.go:102-258 | a run in which a stale first read and an object recreated under the same name make the operator take the finalizer off an object that is not deleted, after the regular command: why `FinalizedBeforeRelease` needs its assumption |
| `ReconcileRuns.GuardsNewObject` | internal/ansible/controller/reconcile.go:106-127 | whatever happened before: a worker alone on an object that is not deleted comes to the start of ansible, and the stored object then has exactly its old finalizers and the configured one, which is new where it was missing |
| `ReconcileRuns.ReconcileCompletes` | internal/ansible/controller/reconcile.go:68-277 | progress for an object that is not deleted: one reconcile by the worker alone, with any ansible run that comes to its end, leaves the object its finalizers and the operator's, takes nothing off, fails exactly when a failure was left unhandled, and where the status is managed the conditions say so, with the joined messages and the result |
| `ReconcileRuns.BadPeriodIsReported` | internal/ansible/controller/reconcile.go:88-100 | an annotation that is no period: ansible is not run, the object gets a failure with the message, the answer fails after the default period |
| `ReconcileRuns.FailedStartIsReported` | internal/ansible/controller/reconcile.go:146-168 | the same when ansible cannot be started or is refused for a deleted object without the finalizer |
| `ReconcileRuns.LostRunIsReported` | internal/ansible/controller/reconcile.go:217-230 | the same when ansible ends without stats and its output cannot be read |
| `ReconcileGuards.AnsibleRunsGuarded` | internal/ansible/controller/reconcile.go:106-118 | in every interleaving, with a finalizer configured: when ansible runs or has run, the object first read has had the finalizer before, and has it still unless somebody else or a justified removal took it off |
| `ReconcileGuards.CommandFits` | internal/ansible/runner/runner.go:182-192 | in every interleaving the running command is the finalizer's exactly when the object given to it is deleted, and then that object has the configured finalizer |
| `ReconcileGuards.HistoryIsExact` | internal/ansible/controller/reconcile.go:249-255 | what the safety results speak of is exact at every step: guarded from the moment the object has the finalizer; losing it is tampering by somebody else or a removal by the operator, and is recorded as such |
| `ReconcileGuards.FailedRunFails` | internal/ansible/controller/reconcile.go:232-276 | in every interleaving, with or without status management: a reconcile whose run left a failure unhandled ends with a failure if and only if the read after the run finds the object or fails |
| `ReconcileGuards.FailsExactly` | internal/ansible/controller/reconcile.go:68-277 | in every reachable state: the step that ends a reconcile answers without a failure exactly when it is one of seven: nothing to do at the first read, a requeue_after with a period, the object gone after the run, or after a run without unhandled failures the read, the accepted removal, the accepted final status, or nothing to write it to |
| `Reconciler.ReconcileOnce` | internal/ansible/controller/reconcile.go:68-277 | Reconcile as written, with others acting before each of its calls and any call failing, has the effect of a run of the step machine, answers what the machine answers, and so keeps the invariant |
| `Reconciler.Reconcile` | internal/ansible/controller/reconcile.go:68-277 | the same for any property that all steps keep |
| `Reconciler.EnsureFinalizer` | internal/ansible/controller/reconcile.go:70-118 | first read, period annotation, adding the finalizer: returns early or goes on as the machine does, and goes on only with the object that was read, all its finalizers and the configured one, and nothing else; with a deleted one only if it had it |
| `Reconciler.StartAnsible` | internal/ansible/runner/runner.go:182-192 | refuses a deleted object without the finalizer, otherwise chooses the command by object |
| `Reconciler.AwaitAnsible` | internal/ansible/controller/reconcile.go:170-230 | the event loop and its early returns |
| `Reconciler.Finish` | internal/ansible/controller/reconcile.go:232-276 | second read, removal or five-second return, final status and answer |
| `Reconciler.Release` | internal/ansible/controller/reconcile.go:242-259 | removes the finalizer or postpones; fails when the write does |
| `Reconciler.MarkRunning` | internal/ansible/controller/reconcile.go:295-322 | read, update, write; fails if any of them fails |
| `Reconciler.MarkError` | internal/ansible/controller/reconcile.go:326-365 | never changes the answer |
| `Reconciler.MarkDone` | internal/ansible/controller/reconcile.go:367-437 | a missing object is no failure; the answer fails if the run or the write did |
| `Reconciler.Cluster.ClientUpdate` | internal/ansible/controller/reconcile.go:111-116 | success means that the write was based on what was stored and is what is stored now; failure covers a rejected write and one that took effect but was answered with an error |
| `Reconciler.Cluster.LiveGet` | internal/ansible/controller/reconcile.go:234-240 | a read that answers, answers with what is stored |
| `Reconciler.Cluster.FirstRead` | internal/ansible/controller/reconcile.go:70-75 | the first read answers with something that was stored at some time |
| `JobEvents.ReadEvents` | internal/ansible/controller/reconcile.go:173-209 | the loop answers as the first interrupting event says (unreadable stats, a requeue_after), otherwise with all failures in order and whether the stats event came |
| `JobEvents.NoFailures` | internal/ansible/controller/reconcile.go:206-208 | there are no failure messages exactly when every failed event was ignored or rescued |
| `JobEvents.FirstDecides` | internal/ansible/controller/reconcile.go:175-204 | whatever follows, the first event that matters decides: unreadable stats fail with no period, a requeue_after of n seconds is answered with n and no failure, one that cannot be parsed with a failure and the period so far |
| `JobEvents.QuietCompletes` | internal/ansible/controller/reconcile.go:173-209 | without such an event all are taken in |
| `JobEvents.FailuresAppend` | internal/ansible/controller/reconcile.go:206-208 | an event adds its message exactly when it is a failure neither ignored nor rescued, after those before it |
| `Conditions.RunActsOnCells` | internal/ansible/controller/status/utils.go:55-96 | over any sequence of updates each condition type is a cell of its own: list, early return and time rule together refine one write rule per type |
| `Conditions.SetWritesOneCell` | internal/ansible/controller/status/utils.go:68-79 | setting a condition writes its own cell, keeping the time when the status stays, and no other |
| `Conditions.ApplyActsOnCells` | internal/ansible/controller/reconcile.go:295-437 | the effect of each of the three updates on each type from its cell alone |
| `Conditions.RunKeeps` | internal/ansible/controller/reconcile.go:295-437 | from any consistent status, every run keeps one condition per type, never shows Failure and Successful both True, and keeps foreign conditions unchanged and in order |
| `Conditions.TransitionTime` | internal/ansible/controller/status/utils.go:73-76 | exactly when a step of a run changes a transition time: when the status changes in an update that writes the type anew |
| `Conditions.StatusChangesWithoutTime` | internal/ansible/controller/reconcile.go:302-307 | a status that changes and keeps its old time: the update copies the old condition, time included |
| `Conditions.Outcome` | internal/ansible/controller/reconcile.go:295-437 | what the three conditions say after each update, whatever happened before |
| `Conditions.Status.GetCondition` | internal/ansible/controller/status/utils.go:56-64 | the first condition of the type |
| `Conditions.Status.SetCondition` | internal/ansible/controller/status/utils.go:68-79 | the new list, in which a failure is always the new one (`SetIsFound` says what is found in it) |
| `Conditions.FilterOutCondition` | internal/ansible/controller/status/utils.go:87-96 | the conditions of the other types, in order |
| `Conditions.Status.MarkAsRunning` | internal/ansible/controller/reconcile.go:300-319 | the update as code computes the specified list |
| `Conditions.Status.MarkAsError` | internal/ansible/controller/reconcile.go:340-362 | the same |
| `Conditions.Status.MarkAsDone` | internal/ansible/controller/reconcile.go:378-434 | the same |
| `Conditions.SetIsFound` | internal/ansible/controller/status/utils.go:68-79 | all fields of what is found after setting a condition: a failure is always replaced; another condition stays, message and result included, exactly when status and reason agree; the time stays with the status |
| `Conditions.SetLeavesOthers` | internal/ansible/controller/status/utils.go:77-78 | conditions of other types are found unchanged |
| `Conditions.ErrorIsReported` | internal/ansible/controller/reconcile.go:355-362 | after an error the failure has its message, whatever failed before |
| `Conditions.FailuresAreReported` | internal/ansible/controller/reconcile.go:416-430 | after a failed run the failure has all messages, one a line, and the result, whatever failed before |
| `Conditions.RunningAfterSuccess` | internal/ansible/controller/reconcile.go:385-406 | after a success Running is True, and is the new one, with the result, unless it said Successful already |
| `Conditions.ResultReportedExactly` | internal/ansible/controller/reconcile.go:385-406 | so the result of a successful run is reported if and only if Running did not say Successful already, or said it with the same result |
| `Conditions.MarkedRunReportsResult` | internal/ansible/controller/reconcile.go:295-437 | marking the start of the run makes it so |
| `Conditions.SecondSuccessKeepsResult` | internal/ansible/controller/status/utils.go:70-72 | without it, a second success keeps the result of the first |
| `Conditions.OthersAreReported` | internal/ansible/controller/reconcile.go:300-434 | the other messages, at the start and at the end of a run; a failure that is over says nothing any more |
| `EventReceiver.NoSendOnClosed` | internal/ansible/runner/eventapi/eventapi.go:94-104 | in every run of any number of handlers with one Close, nothing is sent on the closed channel, and once it is stopped no handler is past the check and still to send |
| `EventReceiver.StepKeeps` | internal/ansible/runner/eventapi/eventapi.go:106-177 | every step of handlers, closer and consumer keeps lock, flag and channel invariant |
| `EventReceiver.RunKeeps` | internal/ansible/runner/eventapi/eventapi.go:94-177 | so does every run |
| `EventReceiver.JobEventIsSent` | internal/ansible/runner/eventapi/eventapi.go:149-177 | progress: in every reachable state of a running receiver that is not stopped, a handler that has the lock and a job event, alone and with room in the channel, puts the event at its end and answers 204; nothing else changes |
| `EventReceiver.ArrivedIsSent` | internal/ansible/runner/eventapi/eventapi.go:149-177 | so is the event of a request that has arrived before Close was called |
| `EventReceiver.OtherEventIsDropped` | internal/ansible/runner/eventapi/eventapi.go:161-163 | what is no job event is answered 204 and not sent |
| `EventReceiver.LockedIsServed` | internal/ansible/runner/eventapi/eventapi.go:151-177 | in every interleaving: a handler that had the lock before the stop is never refused; it answers 204, and a job event was then accepted, or 500, and then only after its timeout |
| `EventReceiver.LateIsRefused` | internal/ansible/runner/eventapi/eventapi.go:151-157 | in every interleaving: one that is no further than the lock at the stop answers 410 or an error of its own request, and its event is never accepted |
| `EventReceiver.CloseWaitIsBounded` | internal/ansible/runner/eventapi/eventapi.go:94-98 | while Close waits for the lock, at most three steps of each handler inside are taken, however many requests arrive |
| `EventReceiver.Delivery` | internal/ansible/runner/eventapi/eventapi.go:147-177 | in every reachable state accepted is consumed then buffered, in order, at most 1000 buffered; a job event answered 204 was accepted exactly once, any other answer means never; 410 only after the stop |
| `EventReceiver.BufferedAtCloseDelivered` | internal/ansible/runner/eventapi/eventapi.go:94-104 | what is buffered at Close is still delivered: a consumer whose loop has ended has received exactly that in addition |
| `EventReceiver.WaitingCloseCanProceed` | internal/ansible/runner/eventapi/eventapi.go:164-173 | while Close waits for the lock it can take it or a handler inside can move, even if nobody consumes |
| `EventReceiver.BalancedUntilStopped` | internal/ansible/runner/eventapi/eventapi.go:149-150 | before the stop the lock counts the handlers inside and is never released unheld |
| `EventReceiver.SecondReleaseAfterStop` | internal/ansible/runner/eventapi/eventapi.go:149-156 | how: a handler that sees the flag while it alone holds the lock releases it twice |
| `EventReceiver.CrashedExactlyAfterRefusal` | internal/ansible/runner/eventapi/eventapi.go:147-156 | over all runs: whenever no handler is at work, the lock has been released unheld if and only if some handler was refused with 410 |
| `EventReceiver.LateRequestCrashes` | internal/ansible/runner/eventapi/eventapi.go:94-156 | a run from the start in which a request after the stop does so |
| `FrameStream.ChunkingIrrelevant` | openshift/release/ansible/ansible_collections/community/docker/plugins/module_utils/socket_handler.py:100-117 | from any state between reads: feeding any sequence of chunks leaves the whole state (stream, missing, partial block, leftover, blocks) as feeding their concatenation |
| `FrameStream.ConsumeRoundTrip` | openshift/release/ansible/ansible_collections/community/docker/plugins/module_utils/socket_handler.py:67-117 | any frames (and possibly a last one cut short), encoded and split anyhow, are answered with the two streams' payloads, each in order; it fails exactly when a non-empty frame is on neither stream |
| `FrameStream.FeedIsFold` | openshift/release/ansible/ansible_collections/community/docker/plugins/module_utils/socket_handler.py:100-117 | one read computes what a byte-at-a-time automaton computes |
| `FrameStream.DrainIsFold` | openshift/release/ansible/ansible_collections/community/docker/plugins/module_utils/socket_handler.py:101-113 | the loop from any state is that automaton over the buffered bytes |
| `FrameStream.FoldFrames` | openshift/release/ansible/ansible_collections/community/docker/plugins/module_utils/socket_handler.py:101-117 | exactly the non-empty payloads are delivered, each whole, under its id, in order |
| `FrameStream.FoldCutFrame` | openshift/release/ansible/ansible_collections/community/docker/plugins/module_utils/socket_handler.py:101-117 | a frame cut short delivers nothing |
| `FrameStream.BlocksKeepPayloads` | openshift/release/ansible/ansible_collections/community/docker/plugins/module_utils/socket_handler.py:183-189 | joining the blocks of a stream joins its frames' payloads |
| `FrameStream.ToBigEndian` | openshift/release/ansible/ansible_collections/community/docker/plugins/module_utils/socket_handler.py:112 | the length field is read back as written |
| `SocketHandler.DockerSocketHandler.Consume` | openshift/release/ansible/ansible_collections/community/docker/plugins/module_utils/socket_handler.py:179-196 | the two outputs are a function of the received bytes alone, however selects deliver them, also with writes in between, unless a send raised; the end of writing is requested first, and if nothing is left to send the socket was shut down |
| `SocketHandler.DockerSocketHandler.Pump` | openshift/release/ansible/ansible_collections/community/docker/plugins/module_utils/socket_handler.py:193-195 | its loop: the answer still to come from what is left of the stream never changes |
| `SocketHandler.DockerSocketHandler.Read` | openshift/release/ansible/ansible_collections/community/docker/plugins/module_utils/socket_handler.py:73-117 | one read: end of stream, no data, or the bytes fed; fails exactly when the callback rejects a block |
| `SocketHandler.DockerSocketHandler.ParseBuffer` | openshift/release/ansible/ansible_collections/community/docker/plugins/module_utils/socket_handler.py:101-113 | the loop computes `Drain`, and fails exactly when that delivers a block on an unknown stream |
| `SocketHandler.DockerSocketHandler.FillBlock` | openshift/release/ansible/ansible_collections/community/docker/plugins/module_utils/socket_handler.py:102-109 | the payload half of a round |
| `SocketHandler.DockerSocketHandler.AddBlock` | openshift/release/ansible/ansible_collections/community/docker/plugins/module_utils/socket_handler.py:183-189 | keeps the block under its stream or rejects its id |
| `SocketHandler.DockerSocketHandler.Select` | openshift/release/ansible/ansible_collections/community/docker/plugins/module_utils/socket_handler.py:136-170 | a read event, then a write event; the demultiplexer and writer advance independently |
| `SocketHandler.DockerSocketHandler.FlushBuffer` | openshift/release/ansible/ansible_collections/community/docker/plugins/module_utils/socket_handler.py:125-134 | what the socket took leaves the buffer, the selector follows, a due shutdown is made (`SendsWhatIsTaken`, `SendsEverything` and `EndOfWritingIsMade` say what that comes to) |
| `SocketHandler.DockerSocketHandler.Write` | openshift/release/ansible/ansible_collections/community/docker/plugins/module_utils/socket_handler.py:198-201 | appends; sends at once only into an empty buffer |
| `SocketHandler.DockerSocketHandler.RequestEndOfWriting` | openshift/release/ansible/ansible_collections/community/docker/plugins/module_utils/socket_handler.py:175-177 | shuts down now or when drained: the request is outstanding or a shutdown was made |
| `SocketHandler.DockerSocketHandler.constructor` | openshift/release/ansible/ansible_collections/community/docker/plugins/module_utils/socket_handler.py:29-52 | starts between frames with nothing to write |
| `SocketHandler.ReceiveStep` | openshift/release/ansible/ansible_collections/community/docker/plugins/module_utils/socket_handler.py:193-196 | taking one event off the front leaves the answer for the rest |
| `SocketHandler.EndOfWritingIsMade` | openshift/release/ansible/ansible_collections/community/docker/plugins/module_utils/socket_handler.py:119-123 | over any writes, partial sends and further requests: a request to end writing is outstanding, with bytes still to send, or the socket was shut down since; so once the buffer is drained it was |
| `SocketHandler.NoMoreEndsThanRequests` | openshift/release/ansible/ansible_collections/community/docker/plugins/module_utils/socket_handler.py:119-123 | the socket is not shut down more often than was asked for |
| `SocketHandler.SendsWhatIsTaken` | openshift/release/ansible/ansible_collections/community/docker/plugins/module_utils/socket_handler.py:125-134 | one send takes from the front of the buffer exactly what the socket took |
| `SocketHandler.SendsEverything` | openshift/release/ansible/ansible_collections/community/docker/plugins/module_utils/socket_handler.py:125-134 | progress: as many sends as bytes are buffered, each taking at least one, send everything given, and a requested shutdown is then made |
| `SocketHandler.RunSound` | openshift/release/ansible/ansible_collections/community/docker/plugins/module_utils/socket_handler.py:119-134 | for every sequence of writes, partial sends and end-of-writing requests: sent then buffered is what was given, and writing was shut down only when all given so far was sent |
| `SocketHandler.AsksExactlyWhenBuffered` | openshift/release/ansible/ansible_collections/community/docker/plugins/module_utils/socket_handler.py:125-134 | after every run the selector asks for write readiness exactly when bytes are buffered, if and only if no send made by `write` itself raised |
| `SocketHandler.StalledForever` | openshift/release/ansible/ansible_collections/community/docker/plugins/module_utils/socket_handler.py:198-201 | otherwise the buffered bytes are never sent, whatever is written later |
| `NumberBoundaries.MatchesIsMatchesHere` | internal/ansible/paramconv/paramconv.go:28 | the pattern read character by character matches where the greedy one does |
| `NumberBoundaries.LeftoverIsIsolated` | internal/ansible/paramconv/paramconv.go:37-41 | a match that the replacement leaves over never follows a letter |
| `NumberBoundaries.BoundariesChange` | internal/ansible/paramconv/paramconv.go:37-41 | a string without a match is unchanged, one with a match grows |
| `NumberRuns.LeftoverExactly` | internal/ansible/paramconv/paramconv.go:28-41 | the digit rule leaves a match over exactly for inputs with a run of an odd number, more than one, of letters each followed by digits |
| `NumberRuns.TwoGroups` | internal/ansible/paramconv/paramconv.go:28-29 | what one replacement leaves to be matched |
| `WordMapping.PreprocessWordMapping` | internal/ansible/paramconv/paramconv.go:84-110 | the loop over the acronyms computes `Preprocess`, with no index out of range |
| `WordMapping.SetWordApart` | internal/ansible/paramconv/paramconv.go:86-106 | the five branches amount to one rule: bars around the first occurrence, a plural s included |
| `WordMapping.Commutes` | internal/ansible/paramconv/paramconv.go:84-110 | two acronyms can be set apart in either order |
| `WordMapping.OrderIrrelevant` | internal/ansible/paramconv/paramconv.go:30-34 | so every iteration order of the map gives the same result |
| `SnakeCase.Split` | internal/ansible/paramconv/paramconv.go:123-162 | the loop computes the transducer; the index kept beside the word is its length less one, so its last character exists when asked for |
| `SnakeCase.ConvertToSnake` | internal/ansible/paramconv/paramconv.go:113-169 | the whole function as code |
| `SnakeCase.ToSnakeKeepsContent` | internal/ansible/paramconv/paramconv.go:113-169 | for every string that is not blank and every map order, letters, digits and other characters are kept in order up to case |
| `SnakeCase.ToSnakeIsSnake` | internal/ansible/paramconv/paramconv.go:113-169 | the output has no upper-case letter, space or hyphen and is not empty |
| `SnakeCase.ToSnakeIsDeterministic` | internal/ansible/paramconv/paramconv.go:85 | the result does not depend on Go's map order |
| `SnakeCase.SnakeNameFixed` | internal/ansible/paramconv/paramconv.go:113-169 | a snake-case name without the digit pattern is a fixed point of all passes together |
| `SnakeCase.LeftoverSurvives` | internal/ansible/paramconv/paramconv.go:37-41 | the digit pattern is in the output exactly when the digit rule left one over |
| `SnakeCase.IdempotentExactly` | internal/ansible/paramconv/paramconv.go:113-169 | converting twice is converting once exactly for the names without such a run |
| `SnakeCase.IdempotentWithoutDigits` | internal/ansible/paramconv/paramconv.go:113-169 | so for every name without digits |
| `SnakeCase.NotIdempotentOnDigits` | internal/ansible/paramconv/paramconv.go:28-29 | a name, a1b2c3, for which it is not: matches that overlap are not all replaced |
| `SnakeCase.OverlappingMatches` | internal/ansible/paramconv/paramconv.go:28-41 | what the rule makes of any three letters each with a digit |
| `CamelCase.CamelToSnake` | internal/ansible/paramconv/paramconv.go:112-169 | what every camel-case name without an acronym and without the digit pattern becomes: its words, lower case, with an underscore wherever the beginning of a word is visible |
| `CamelCase.CamelSeparated` | internal/ansible/paramconv/paramconv.go:112-169 | it is taken apart into exactly its words if and only if each begins after a lower-case letter that is not alone or starts with two lower-case letters |
| `CamelCase.PascalToSnake` | internal/ansible/paramconv/paramconv.go:164-168 | a name that starts with a capital likewise, with an underscore in front unless the output starts with an acronym |
| `CamelCase.AcronymInFront` | internal/ansible/paramconv/paramconv.go:97-168 | the same in front of a name, with an underscore before it only for a plural |
| `CamelCase.AcronymAlone` | internal/ansible/paramconv/paramconv.go:87-92 | an acronym or its plural alone gets an underscore twice |
| `CamelCase.DelimitersToUnderscores` | internal/ansible/paramconv/paramconv.go:149-153 | in any name without capitals and without the digit pattern exactly the inner spaces and hyphens become underscores |
| `CamelCase.SnakeAtDelimiter` | internal/ansible/paramconv/paramconv.go:149-153 | a delimiter ends one word and starts the next, whatever is on either side |
| `CamelCase.BlanksAround` | internal/ansible/paramconv/paramconv.go:114-115 | blanks around a name do not matter, for all names |
| `CamelCase.AcronymToSnake` | internal/ansible/paramconv/paramconv.go:77-110 | a word, an acronym or its plural, and any more words: the acronym becomes one word, in every map order |
| `CamelCase.LongWordsNoAcronym` | internal/ansible/paramconv/paramconv.go:85-87 | no acronym is found in names whose words after the first have two letters or more |
| `CamelCase.SnakeTail` | internal/ansible/paramconv/paramconv.go:130-162 | the splitting pass from any place in a word on |
| `Parameters.UnmarkMark` | internal/ansible/runner/runner.go:394-413 | marking has a left inverse on all JSON values, even those that hold the marker key already |
| `Parameters.MarkInjective` | internal/ansible/runner/runner.go:394-413 | no two values are marked alike |
| `Parameters.MarkUnmark` | internal/ansible/runner/runner.go:394-413 | the marked values are exactly those in which every string is under a marker |
| `Parameters.MarkUnsafeValues` | internal/ansible/runner/runner.go:394-413 | the loops over lists and maps |
| `Parameters.ConvertParameter` | internal/ansible/paramconv/paramconv.go:171-204 | the conversion is one of those that some order of the map allows |
| `Parameters.ConversionUnique` | internal/ansible/paramconv/paramconv.go:171-204 | it is determined when no map has two keys converted alike |
| `Parameters.FoundAgain` | internal/ansible/paramconv/paramconv.go:171-192 | when no map has two keys converted alike, whatever a path leads to in the value, the path with its keys converted leads to in the conversion, at any depth: the same simple value, a map, or a list of the same length |
| `Parameters.FoundBefore` | internal/ansible/paramconv/paramconv.go:171-192 | and whatever is found in any conversion comes from such a path, even when keys coincide |
| `Parameters.MarkingCommutes` | internal/ansible/runner/runner.go:347-359 | for any key conversion that keeps the marker key, the conversions of the marked value are exactly the marked conversions, for all map orders |
| `Parameters.ConvertThenMark` | internal/ansible/runner/runner.go:347-359 | one inclusion |
| `Parameters.MarkThenConvert` | internal/ansible/paramconv/paramconv.go:171-192 | the other: every conversion of a marked value is marked, and unmarks to a conversion |
| `Parameters.SnakeKeepsMarker` | internal/ansible/runner/runner.go:409 | the marker key is a fixed point of snake-casing |
| `Parameters.MarkingCommutesWithSnake` | internal/ansible/runner/runner.go:347-359 | so marking and snake-casing nested keys commute |
| `Logfmt.MapRoundTrip` | openshift/release/ansible/ansible_collections/community/docker/plugins/module_utils/_logfmt.py:107-208 | any map with identifier keys and printable values (keys without value only outside logrus mode), printed as pairs in any order, quoted or, where the value allows it, bare, is parsed back |
| `Logfmt.PrintParse` | openshift/release/ansible/ansible_collections/community/docker/plugins/module_utils/_logfmt.py:107-208 | the same for lists of pairs with repeated keys: the last one wins |
| `Logfmt.ParsePrintParse` | openshift/release/ansible/ansible_collections/community/docker/plugins/module_utils/_logfmt.py:107-208 | whatever line was parsed, in either mode: printing the result and parsing it gives the same result, if and only if it is not in logrus mode with a line that ends right after a key's equals sign |
| `Logfmt.LogrusValues` | openshift/release/ansible/ansible_collections/community/docker/plugins/module_utils/_logfmt.py:200-203 | in logrus mode only such a key has no value |
| `Logfmt.RunYieldsWellFormed` | openshift/release/ansible/ansible_collections/community/docker/plugins/module_utils/_logfmt.py:127-189 | every parsed key is a non-empty identifier and every value can be printed |
| `Logfmt.BlankAtEnd` | openshift/release/ansible/ansible_collections/community/docker/plugins/module_utils/_logfmt.py:198-208 | for every line, a blank at its end makes a difference exactly when the line ends right after the equals sign of a key: no value without it, the empty value with it |
| `Logfmt.LogrusOnlyRestricts` | openshift/release/ansible/ansible_collections/community/docker/plugins/module_utils/_logfmt.py:136-137 | what logrus mode accepts is parsed the same without it |
| `Logfmt.QuotedChar` | openshift/release/ansible/ansible_collections/community/docker/plugins/module_utils/_logfmt.py:165-189 | a printed character is read back in one turn |
| `Logfmt.ParseLine` | openshift/release/ansible/ansible_collections/community/docker/plugins/module_utils/_logfmt.py:107-208 | the loop ends on every line and computes the specification |
| `Logfmt.LineParser.Turn` | openshift/release/ansible/ansible_collections/community/docker/plugins/module_utils/_logfmt.py:198-199 | one turn of the loop is one step of the machine |
| `Logfmt.LineParser.ParseKey` | openshift/release/ansible/ansible_collections/community/docker/plugins/module_utils/_logfmt.py:127-140 | a mode function against its step |
| `Logfmt.LineParser.ParseQuotedValue` | openshift/release/ansible/ansible_collections/community/docker/plugins/module_utils/_logfmt.py:165-189 | the same for quoted values, with its errors |
| `Logfmt.LineParser.Close` | openshift/release/ansible/ansible_collections/community/docker/plugins/module_utils/_logfmt.py:200-208 | what happens at the end of the line in each mode |
| `Logfmt.ParseUnicodeSequence` | openshift/release/ansible/ansible_collections/community/docker/plugins/module_utils/_logfmt.py:91-104 | a unicode escape is always rejected: every digit looked at is the backslash |
| `Logfmt.Step` | openshift/release/ansible/ansible_collections/community/docker/plugins/module_utils/_logfmt.py:198-199 | a turn shortens the rest or leaves garbage mode, so the loop terminates |
| `Logfmt.QuotedValueIsRead` | openshift/release/ansible/ansible_collections/community/docker/plugins/module_utils/_logfmt.py:165-189 | a quoted value is read as what it means, each character written plainly or by any escape (the five letters, both quotes, backslash, slash) |
| `Logfmt.EscapeIsRead` | openshift/release/ansible/ansible_collections/community/docker/plugins/module_utils/_logfmt.py:165-181 | in a quoted value a backslash and a character are read in one turn as the character that escape stands for, and as no other |
| `Logfmt.BareValueIsRead` | openshift/release/ansible/ansible_collections/community/docker/plugins/module_utils/_logfmt.py:69-163 | a value of characters above a blank other than quotes and equals signs is read whole, up to the end of the line or the first other character |
| `Logfmt.BrokenQuoteFails` | openshift/release/ansible/ansible_collections/community/docker/plugins/module_utils/_logfmt.py:165-208 | how a quoted value can break off, with the error for each, whatever was read before |
| `RequestInfo.RenderParse` | internal/ansible/proxy/requestfactory/requestinfo.go:130-268 | the path rendered for a prefix, group, version, special verb, namespace, resource, name, subresource and further parts is parsed as those, with the verb adjusted |
| `RequestInfo.ParseRender` | internal/ansible/proxy/requestfactory/requestinfo.go:130-268 | the other direction: the parts of every resource path are those of a target, and a well-formed one unless it names the namespace itself |
| `RequestInfo.NamespaceItself` | internal/ansible/proxy/requestfactory/requestinfo.go:193-224 | for a namespace itself or its subresources, with or without group and special verb, name and namespace are both the namespace |
| `RequestInfo.ResourceRequests` | internal/ansible/proxy/requestfactory/requestinfo.go:139-173 | exactly which paths are resource requests and exactly which fail |
| `RequestInfo.SplitPathBetweenSlashes` | internal/ansible/proxy/requestfactory/requestinfo.go:271-277 | however many slashes are before and after the pieces |
| `RequestInfo.NamespaceCollection` | internal/ansible/proxy/requestfactory/requestinfo.go:193-265 | the collection of namespaces has neither namespace nor name; its verb is list, watch or deletecollection by method and options |
| `RequestInfo.SplitPathOfPieces` | internal/ansible/proxy/requestfactory/requestinfo.go:271-277 | a path made of pieces is split into them |
| `RequestInfo.NewRequestInfo` | internal/ansible/proxy/requestfactory/requestinfo.go:130-268 | the code computes the specification for every request, with no access out of range |
| `RequestInfo.ReadScope` | internal/ansible/proxy/requestfactory/requestinfo.go:193-224 | namespace, resource, name and subresource from the narrowed parts |
| `RequestInfo.VerbOfTarget` | internal/ansible/proxy/requestfactory/requestinfo.go:176-265 | for every target without a special verb: exactly which method, path and options make the verb create, update, patch, get, list, watch, delete or deletecollection, and what the name then is |
| `RequestInfo.SinglesAreNamed` | internal/ansible/proxy/requestfactory/requestinfo.go:226-265 | for every resource path: get and delete come with a name, deletecollection without |
| `TarStream.FileArchive` | openshift/release/ansible/ansible_collections/community/docker/plugins/module_utils/copy.py:92-119 | for every size and every sequence of short reads or early end of file: the header, exactly the announced number of bytes (those read, then zeros), zeros to the block, then only zeros, at least two blocks, to a record's end |
| `TarStream.TrailerCloses` | openshift/release/ansible/ansible_collections/community/docker/plugins/module_utils/copy.py:140-159 | the same for content from memory |
| `TarStream.TrailerSize` | openshift/release/ansible/ansible_collections/community/docker/plugins/module_utils/copy.py:107-119 | record alignment, at least two zero blocks after the block padding, and less than one record more than needed |
| `TarStream.ReadsJoined` | openshift/release/ansible/ansible_collections/community/docker/plugins/module_utils/copy.py:95-101 | how the reads are cut does not matter |
| `TarStream.ReadsUpToEnd` | openshift/release/ansible/ansible_collections/community/docker/plugins/module_utils/copy.py:95-101 | and nothing is read after an early end of file |
| `TarStream.GeneratorsAgree` | openshift/release/ansible/ansible_collections/community/docker/plugins/module_utils/copy.py:107-159 | for unchanged content both generators yield the same bytes after headers of equal length |
| `TarStream.FileTar` | openshift/release/ansible/ansible_collections/community/docker/plugins/module_utils/copy.py:88-119 | the file generator as code |
| `TarStream.StreamReads` | openshift/release/ansible/ansible_collections/community/docker/plugins/module_utils/copy.py:95-101 | its reading loop |
| `TarStream.ContentTar` | openshift/release/ansible/ansible_collections/community/docker/plugins/module_utils/copy.py:140-159 | the content generator as code |
| `ChunkReader.ReadsConserve` | openshift/release/ansible/ansible_collections/community/docker/plugins/module_utils/copy.py:259-280 | over any chunks and any series of buffer lengths, delivered then held then unread is the whole stream |
| `ChunkReader.ReadDeliversExactly` | openshift/release/ansible/ansible_collections/community/docker/plugins/module_utils/copy.py:259-280 | how much one read delivers: what is held, then at most one more chunk, up to the length asked for |
| `ChunkReader.ReadsFinish` | openshift/release/ansible/ansible_collections/community/docker/plugins/module_utils/copy.py:267-280 | enough reads into non-empty buffers deliver the whole stream |
| `ChunkReader.EmptyOnlyAtEnd` | openshift/release/ansible/ansible_collections/community/docker/plugins/module_utils/copy.py:275-278 | with non-empty chunks, an empty answer for a non-empty buffer means exactly that everything was delivered |
| `ChunkReader.ReadConserves` | openshift/release/ansible/ansible_collections/community/docker/plugins/module_utils/copy.py:267-280 | the same for one read; empty answers also with empty chunks: exactly when nothing is held and the next chunk is empty or missing |
| `ChunkReader.RawGeneratorFileobj.ReadInto` | openshift/release/ansible/ansible_collections/community/docker/plugins/module_utils/copy.py:267-280 | fills the front of the buffer with those bytes, in place, and leaves the rest alone |
| `ChunkReader.RawGeneratorFileobj.ReadIntoFromBuf` | openshift/release/ansible/ansible_collections/community/docker/plugins/module_utils/copy.py:259-265 | copies what is held to the given place |
| `LinkChase.StatFile` | openshift/release/ansible/ansible_collections/community/docker/plugins/module_utils/copy.py:214-248 | when following links settles, the loop ends, at the path that is not a link, or with a loop error exactly when no such path is reachable; `AbsoluteTarget` and `RelativeTarget` say where each link leads |
| `LinkChase.FetchFile` | openshift/release/ansible/ansible_collections/community/docker/plugins/module_utils/copy.py:291-333 | the same for fetching, with the answer for the archive found there |
| `LinkChase.AbsoluteTarget` | openshift/release/ansible/ansible_collections/community/docker/plugins/module_utils/copy.py:245 | a link to an absolute path is followed to that path: the answers are those of following from there, and it settles if and only if that does |
| `LinkChase.RelativeTarget` | openshift/release/ansible/ansible_collections/community/docker/plugins/module_utils/copy.py:245 | a link to a relative target is followed beside itself, in its directory, however many slashes end that |
| `LinkChase.RelativeToRoot` | openshift/release/ansible/ansible_collections/community/docker/plugins/module_utils/copy.py:245 | the same in the root directory and for a path without a directory |
| `LinkChase.PathForms` | openshift/release/ansible/ansible_collections/community/docker/plugins/module_utils/copy.py:245 | every path is of one of these forms |
| `LinkChase.SameEnd` | openshift/release/ansible/ansible_collections/community/docker/plugins/module_utils/copy.py:327 | so stating or fetching an absolute link ends as it does from its target |
| `LinkChase.AnswerIsUnique` | openshift/release/ansible/ansible_collections/community/docker/plugins/module_utils/copy.py:245 | the answer is determined, so stating and fetching end at the same path |
| `LinkChase.EndIsUnique` | openshift/release/ansible/ansible_collections/community/docker/plugins/module_utils/copy.py:214-248 | at most one path that is not a link is reached |
| `LinkChase.NoWayOut` | openshift/release/ansible/ansible_collections/community/docker/plugins/module_utils/copy.py:217-218 | links that resolve among themselves never end |
| `LinkChase.TrailCloses` | openshift/release/ansible/ansible_collections/community/docker/plugins/module_utils/copy.py:217-218 | meeting a path again is a loop |
| `LinkChase.ClosedExactlyWhenSettles` | openshift/release/ansible/ansible_collections/community/docker/plugins/module_utils/copy.py:214-245 | following links ends or comes back to a path if and only if the paths met lie in a finite set closed under resolution |
| `LinkChase.SelfLinkNeverSettles` | openshift/release/ansible/ansible_collections/community/docker/plugins/module_utils/copy.py:245 | a container in which it does neither: a link to ./l beside itself is met under ever longer names |
| `LinkChase.ReadArchive` | openshift/release/ansible/ansible_collections/community/docker/plugins/module_utils/copy.py:310-333 | the loop over the members: one expected, no more, no fewer |
| `Compare.CompareGeneric` | openshift/release/ansible/ansible_collections/community/docker/plugins/module_utils/util.py:161-226 | decides the specified relation for every method and datatype, None included |
| `Compare.ScanLists` | openshift/release/ansible/ansible_collections/community/docker/plugins/module_utils/util.py:184-191 | the greedy loop returns true exactly for subsequences |
| `Compare.GreedyIsSubsequence` | openshift/release/ansible/ansible_collections/community/docker/plugins/module_utils/util.py:184-191 | greedy matching succeeds exactly when some order-preserving embedding exists |
| `Compare.AllowMoreReflexive` | openshift/release/ansible/ansible_collections/community/docker/plugins/module_utils/util.py:161-226 | every operand matches itself, by every method |
| `Compare.AllowMoreTransitive` | openshift/release/ansible/ansible_collections/community/docker/plugins/module_utils/util.py:161-226 | allow_more_present is transitive for every datatype, None included |
| `Compare.StrictImpliesAllowMore` | openshift/release/ansible/ansible_collections/community/docker/plugins/module_utils/util.py:161-226 | a strict match is a match when more is allowed |
| `Compare.StrictSymmetric` | openshift/release/ansible/ansible_collections/community/docker/plugins/module_utils/util.py:161-226 | strict matching is symmetric for all datatypes but sets of dictionaries, and there if one is None |
| `Compare.StrictBothWays` | openshift/release/ansible/ansible_collections/community/docker/plugins/module_utils/util.py:205-226 | for sets of dictionaries it holds in both directions exactly when they have the same inclusion-maximal and the same inclusion-minimal dictionaries |
| `Compare.StrictSetOfDictNotSymmetric` | openshift/release/ansible/ansible_collections/community/docker/plugins/module_utils/util.py:213-225 | for those it is not: containment is used in both directions |
| `Compare.ScanDicts` | openshift/release/ansible/ansible_collections/community/docker/plugins/module_utils/util.py:205-226 | each dictionary is covered, and in the strict case each covers one |
| `Compare.CompareDictAllowMorePresent` | openshift/release/ansible/ansible_collections/community/docker/plugins/module_utils/util.py:124-133 | every entry of the first is in the second |
| `Compare.ComparesContents` | openshift/release/ansible/ansible_collections/community/docker/plugins/module_utils/util.py:182-204 | strictly, values, lists and dictionaries are compared for equality and sets by their elements; with more allowed, dictionaries by extension and sets by inclusion |
| `Compare.ComparesNone` | openshift/release/ansible/ansible_collections/community/docker/plugins/module_utils/util.py:163-181 | None is like something empty, except for values; only with more allowed, and as the first operand, it matches anything else |
| `Compare.StrictIsBothWays` | openshift/release/ansible/ansible_collections/community/docker/plugins/module_utils/util.py:161-226 | for every datatype but sets of dictionaries, None included: a strict match is a match in both directions when more is allowed |

## Left out

- HTTP servers, sockets, TLS, kubeconfig files, the ansible-runner process and its input files: each is a step with any result the original allows for.
- controller-runtime and client-go: only versioned writes, live reads and cached reads that may answer with anything ever stored are kept.
- The text encodings of statuses, events and annotations: conditions and events are records, an annotation is a number of seconds or unparsable, time is a number. One update of the conditions uses one time for all its conditions.
- Type assertions on event data that panic when a field has another type (`period`, `rescued`).
- The placeholder for a missing spec, event handlers, metrics and the printing of results in Reconcile.
- Custom Status fields other than conditions, RemoveCondition and the conversion of statuses from maps.
- The events of a run are given to Reconcile as a whole; the receiver's channel is modelled by itself in EventReceiver.
- FinalizedBeforeRelease: assumes that no object is recreated under the same name within a reconcile; `RecreatedObjectLosesFinalizer` shows the run that makes it necessary, `CreatedOnceIsSame` a class of runs without it.
- ReadEvents: the names of events and task actions are told apart only as far as the code looks at them.
- EventReceiver: nothing happens after a panic or crash.
- The paramiko work-around in `select`, receive exceptions other than the TLS end of stream, and the replay of blocks in set_block_done_callback (its `remove(0)` removes by value, so it replays nothing); the callback is installed before the first read, as consume does.
- DockerSocketHandler.Read: the length field is unsigned, so the branch for a negative length cannot be taken and is not modelled.
- ToSnakeKeepsContent: strings are ASCII; Unicode case mapping and multi-byte characters are not modelled.
- ConvertToSnake: requires something other than spaces, because the source indexes the first character and panics otherwise.
- General regular expressions: the one digit rule is written out.
- CamelToSnake: the name has no acronym (`AcronymToSnake`, `AcronymInFront` and `AcronymAlone` are about those with one) and no digit pattern (`OverlappingMatches` and `LeftoverExactly` are about those that do).
- PascalToSnake: the same, and the acronym is not at the front.
- AcronymToSnake: one acronym, and no digit pattern.
- DelimitersToUnderscores: no capitals; with capitals `SnakeAtDelimiter` says where the words are cut, without a formula for the whole name.
- ToCamel, the order in which makeParameters merges variables, and escapeAnsibleKey.
- MarkingCommutesWithSnake: a key of spaces only is kept as it is, where the source panics.
- ParseUnicodeSequence: its result is always an error, so decoding is not modelled; the characters it would name in the message are left out.
- VerbOfTarget: decoding of list options and field selectors is reduced to a watch flag and an optional name.
- GeneratorsAgree: assumes headers of equal length; their bytes (name, mode, owner, times) are not modelled, nor is any relation of the header length to the block size.
- BadPeriodIsReported: the error of the parser at the end of the message is left out.
- StatFile: paths are POSIX paths; when following links does not settle the loop does not end, and nothing is stated about it.
- FetchFile: processing callbacks are represented by the answer they are called for; that a regular first member was already processed when a second one makes the fetch fail is not.
- CompareGeneric: operands have the shape of their datatype or are None; values are opaque.
- ReadInto: the buffered reader around it is not modelled.
- DifferenceTracker, sanitize_result, and the modules and connection plugins that use these utilities.
- Scaffolding, sample generators, command-line flags and end-to-end helpers.
