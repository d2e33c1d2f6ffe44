# Verified models of the gateway's state machines

This project models the parts of the gateway that behave as state machines or algorithms, and proves what
each of them promises:

- **Executor scheduler.** Bounded slots, a FIFO per API key, a rotation over keys, pins, epochs, the operator
  gate, and the asynchronous half of `acquire` (timeouts, cancellations, promotions in any order).
- **Live dashboard hub.** Numbered events per scope, a bounded replay ring, replay-to-live handover, and
  drop-oldest subscriber queues with gap marks.
- **Context projection and message compression.** The provenance cycle search, de-duplication that keeps the
  last occurrence, eviction by priority under an arbitrary size function, and the windowing of a message history.
- **Evolution registry.** An append-only versioned table and the promotion discipline its operations keep.
- **Paired bootstrap.** Percentiles and confidence bounds over the reals, and the verdict built on them.
- **Delegate runtime, event-stream capture, Responses translation.** A budgeted worker pool with
  reconciliation, an incremental frame parser, and a list translation with its way back.

Code that updates state in place is a class or a method with loops, proved against functions on values; the
properties of whole runs are proved about those functions. Hashes, redaction, JSON text, byte sizes, clocks and
random draws are parameters.

The modules follow the source files:

| modules | source |
|---|---|
| `Scheduler*`, `HandoverLedger` | `executor_scheduler.py`, `set_executor_enabled` in `api.py` |
| `Dashboard*` | `live_dashboard.py` |
| `Provenance`, `Dedup`, `Eviction`, `Projection*` | `context_projection.py` |
| `Compression*` | `compression.py` |
| `Evolution*` | `evolution.py` |
| `Percentile`, `Bootstrap` | `evaluate-paired-noninferiority.py`, `evaluate-frontier-dominance-v2.py` and two scripts with the same percentile |
| `Delegation*`, `Reconciliation` | `async_moa.py` |
| `SseFraming`, `SseCapture`, `SseResults` | `capture-opencode-sse.py` |
| `Responses*` | the Responses translation in `api.py` |

`Prelude` holds shared vocabulary (optional values, duplicate-free sequences, subsequences).

## Properties that turned out to have a condition

Where the code does not meet a property on all inputs, the model keeps the code as it is, and the exact
condition is proved.

- The scheduler keeps every pin and slot with exactly one caller if and only if its callers keep three rules, each
  of which can be checked before the call: `on_queued` does not raise, nobody releases a pinned request that it does
  not hold, and nobody acquires a request again that is already pinned for its key and not queued
  (`SchedulerWaiters.AccountedIffDisciplined`). Breaking them loses a slot for good
  (`SchedulerWaiters.AbandonedForever`), lets a timeout take away a later admission of the same request
  (`SchedulerWaiters.StaleTimeoutTakesLease`), or leaves a second caller with an admission that owns nothing
  (`SchedulerWaiters.SecondHolderLosesSlot`).
- A hub whose replay size is zero tells a returning subscriber nothing about the events it missed
  (`Dashboard.HandoverExact`, and over whole runs `DashboardRuns.HandoverDelivers`).
- A retained evidence item that the executor summary rewrote is listed as included and as excluded
  (`Projection.EvidenceAccounting`).
- Tool results are trimmed after de-duplication, so two of them can become equal
  (`Compression.TrimmingCanCollide`). The output has no two equal fingerprints exactly when no two retained tool
  results agree in everything but text and in the text that the budget leaves
  (`Compression.OutputDistinct`); results that fit the budget as they are never collide.
- A non-positive retention limit makes message compression index past the end
  (`Compression.WindowStart`).
- Line ends are normalised chunk by chunk, so a chunk boundary inside a CR LF pair changes the text
  (`SseFraming.NormalizeChunks`, `SseResults.CutPairMatters`).
- Cancelling obsolete delegates keeps the verdict (`Reconciliation.CancelPreserves`) but can lose requested actions.
  Whatever the tasks would end with, the actions survive if and only if no relevant handle is obsolete
  (`Reconciliation.ActionsSurviveIff`).
- A custom tool call comes back with the arguments it had exactly when those are the text of some input
  (`ResponsesTrip.UnchangedIff`).

## Model

| member | source | states |
|---|---|---|
| SchedulerInvariant.AdmitKeepsInv | gateway/src/dgx_moa/executor_scheduler.py:152-242 | Every outcome of an admission keeps the full invariant: pins are exactly owners, waiters and overflows with matching lease states, the rotation lists exactly the waiting keys once, FIFOs are ordered, limits hold, and nobody waits while a slot is free |
| SchedulerInvariant.ReleaseKeepsInv | gateway/src/dgx_moa/executor_scheduler.py:287-306 | A release of any request, an unknown one included, keeps the full invariant |
| SchedulerInvariant.ReleaseOwnerKeeps | gateway/src/dgx_moa/executor_scheduler.py:257-306 | Releasing an owner grants the slot exactly when somebody waits, and changes owners and queued total by exactly that |
| SchedulerInvariant.WithdrawKeeps | gateway/src/dgx_moa/executor_scheduler.py:296-306 | Withdrawing a queued request, also from the middle of its queue, removes that request only and keeps the invariant |
| SchedulerInvariant.PromoteKeeps | gateway/src/dgx_moa/executor_scheduler.py:257-285 | With a free slot, a promotion moves exactly one waiter to the owners when the rotation is not empty, and otherwise changes nothing |
| SchedulerInvariant.RemoveEntryKeeps | gateway/src/dgx_moa/executor_scheduler.py:257-306 | Taking out any one queued request keeps pins, queues and tickets consistent |
| SchedulerInvariant.OwnersDistinct | gateway/src/dgx_moa/executor_scheduler.py:178-193 | No request owns two slots |
| SchedulerRuns.StepEpoch | gateway/src/dgx_moa/executor_scheduler.py:178-193 | Each grant takes the next epoch and each owner release gives one slot back, whatever the step |
| SchedulerRuns.SlotConservation | gateway/src/dgx_moa/executor_scheduler.py:178-306 | Over any run, epochs granted minus owner releases is the change in owned slots, and new owners carry new epochs |
| SchedulerRuns.EpochsFromStart | gateway/src/dgx_moa/executor_scheduler.py:63-306 | From the start of any run, epoch minus owner releases equals the number of owners, and live owners carry strictly increasing epochs |
| SchedulerRuns.QueueStep | gateway/src/dgx_moa/executor_scheduler.py:224-306 | A request leaves its queue only by its own withdrawal or by promotion and never returns with the same ticket |
| SchedulerFairness.PatienceStep | gateway/src/dgx_moa/executor_scheduler.py:257-306 | While a request waits, no step lengthens its remaining wait and each owner release shortens it |
| SchedulerFairness.OwnerReleaseTurns | gateway/src/dgx_moa/executor_scheduler.py:257-306 | An owner release that serves another key strictly lowers slots-held times total limit plus rotation index |
| SchedulerFairness.TurnsBound | gateway/src/dgx_moa/executor_scheduler.py:257-306 | That measure is always below (capacity + 1) times the total limit |
| SchedulerFairness.NoStarvation | gateway/src/dgx_moa/executor_scheduler.py:257-306 | Within (depth + 1)(capacity + 1) times total limit owner releases a waiting request is granted a slot or withdrawn by its own release |
| SchedulerFairness.ServedDiffers | gateway/src/dgx_moa/executor_scheduler.py:257-285 | With two or more keys waiting, the promoted key is not the one that releases, and the oldest request of the served key gets the slot |
| SchedulerDrain.DisabledAdmit | gateway/src/dgx_moa/executor_scheduler.py:160-177 | With local admission off, no new request becomes local or queued |
| SchedulerDrain.DrainStep | gateway/src/dgx_moa/executor_scheduler.py:82-85 | During a drain, owners plus queued falls by one for each effective local release and otherwise stays |
| SchedulerDrain.DrainTerminates | gateway/src/dgx_moa/api.py:6534-6572 | The drain condition is reached exactly when as many local requests were released as there were when the gate closed |
| SchedulerDrain.NoOwnerNothingQueued | gateway/src/dgx_moa/api.py:6553-6566 | No owner already implies an empty queue, so the drain task's two tests are one |
| SchedulerDrain.DrainStillPromotes | gateway/src/dgx_moa/executor_scheduler.py:287-306 | Waiters are still promoted while the gate is closed |
| SchedulerDrain.PositionIsSortedIndex | gateway/src/dgx_moa/executor_scheduler.py:98-106 | The published position is the 1-based index in the list of all waiters sorted by ticket |
| SchedulerDrain.HighRiskStaysLocal | gateway/src/dgx_moa/executor_scheduler.py:160-223 | With the gate open, a new high-risk request is admitted locally, queued or refused, and refused exactly at a queue limit |
| SchedulerDrain.NewRequestRouting | gateway/src/dgx_moa/executor_scheduler.py:160-242 | With the gate open, which new requests get a slot, overflow, wait or are refused, each if and only if |
| SchedulerDrain.AcquireTwice | gateway/src/dgx_moa/executor_scheduler.py:153-159 | Asking again for an admitted request gives its key the same admission, refuses other keys, and changes nothing |
| SchedulerAdmission.NotLocal | gateway/src/dgx_moa/executor_scheduler.py:160-177 | Without the local executor, by the caller's word or by the gate, a new request overflows with reason local_unavailable exactly if Flash is available and is refused otherwise; owners, queues, rotation, tickets and epoch stay |
| SchedulerAdmission.FreeSlot | gateway/src/dgx_moa/executor_scheduler.py:178-193 | While a slot is free a new request of any risk gets it, with the next epoch, and nothing else changes |
| SchedulerAdmission.FullOverflow | gateway/src/dgx_moa/executor_scheduler.py:195-215 | All slots and the queue full: a request of low risk overflows, with the reason telling whether its key owns a slot |
| SchedulerAdmission.FullRefused | gateway/src/dgx_moa/executor_scheduler.py:216-223 | All slots taken and no room: which requests are refused and with which error |
| SchedulerAdmission.JoinsQueue | gateway/src/dgx_moa/executor_scheduler.py:224-242 | A new waiter gets the next ticket, the end of its key's queue, and the position behind everybody who waits |
| SchedulerAdmission.NotFresh | gateway/src/dgx_moa/executor_scheduler.py:149-159 | Malformed and already pinned requests never change anything, and what each of them is answered |
| SchedulerAdmission.ReleaseAnswers | gateway/src/dgx_moa/executor_scheduler.py:287-306 | A release answers whether the request was pinned, removes its pin, and leaves everything alone if there was none |
| SchedulerAdmission.GrantIs | gateway/src/dgx_moa/executor_scheduler.py:257-285 | A freed slot goes to the oldest request of the first key in the rotation, or of the second if the first is the one that releases, with the next epoch; the other owners stay |
| SchedulerAdmission.PinShown | gateway/src/dgx_moa/executor_scheduler.py:98-123 | A queued pin is shown with the present first owner, its rank by ticket among all who wait, and the present epoch; any other pin as stored |
| SchedulerObject.ExecutorScheduler.SetLocalEnabled | gateway/src/dgx_moa/executor_scheduler.py:82-85 | Only the gate changes |
| SchedulerObject.ExecutorScheduler.Waiting | gateway/src/dgx_moa/executor_scheduler.py:98-106 | Lists every waiting request once, in ticket order |
| SchedulerObject.ExecutorScheduler.QueuePosition | gateway/src/dgx_moa/executor_scheduler.py:98-106 | Computes the position that the sorted-index lemma speaks of |
| SchedulerObject.ExecutorScheduler.Pinned | gateway/src/dgx_moa/executor_scheduler.py:108-123 | A pin is reported with its current queue position |
| SchedulerObject.ExecutorScheduler.TakeSnapshot | gateway/src/dgx_moa/executor_scheduler.py:125-137 | The snapshot shows no owner request and nothing queued exactly when the scheduler is drained |
| SchedulerObject.ExecutorScheduler.Admit | gateway/src/dgx_moa/executor_scheduler.py:149-242 | The in-place update is the admission function that the SchedulerAdmission lemmas spell out for every request, and the object stays valid |
| SchedulerObject.ExecutorScheduler.JoinQueue | gateway/src/dgx_moa/executor_scheduler.py:224-242 | A new waiter gets the next ticket, the end of its key's queue, a place in the rotation and a queued pin |
| SchedulerObject.ExecutorScheduler.PromoteNext | gateway/src/dgx_moa/executor_scheduler.py:257-285 | The in-place promotion is the promotion function on values |
| SchedulerObject.ExecutorScheduler.Release | gateway/src/dgx_moa/executor_scheduler.py:287-306 | The in-place release is the release function on values, and the object stays valid |
| HandoverLedger.ReleaseBalance | gateway/src/dgx_moa/executor_scheduler.py:287-306 | Releasing a request together with its waiter leaves every remaining pin in somebody's hands |
| HandoverLedger.AdmittedBalance | gateway/src/dgx_moa/executor_scheduler.py:153-223 | Handing out an admission keeps one caller per pin exactly when its request has no pin yet |
| HandoverLedger.ForeignReleaseBreaks | gateway/src/dgx_moa/executor_scheduler.py:287-306 | Releasing a pinned request by anybody but the caller that holds or awaits it leaves that caller with nothing |
| HandoverLedger.LeaveBreaks | gateway/src/dgx_moa/executor_scheduler.py:243-255 | A call that ends without releasing always leaves its pin to nobody |
| SchedulerWaiters.GiveUpBalance | gateway/src/dgx_moa/executor_scheduler.py:248-255 | A timeout or cancellation before promotion, between promotion and resolution, or after it loses and duplicates no slot |
| SchedulerWaiters.FinishBalance | gateway/src/dgx_moa/executor_scheduler.py:287-306 | A release by a caller that holds the request loses and duplicates no slot |
| SchedulerWaiters.AccountedIffDisciplined | gateway/src/dgx_moa/executor_scheduler.py:149-315 | An event keeps every pin and slot with exactly one caller or live call if and only if it is not one of: a second acquire of a request pinned for its key and not queued, a release of a pinned request by somebody else, a failing queue callback |
| SchedulerWaiters.NoOverAdmission | gateway/src/dgx_moa/executor_scheduler.py:178-193 | At most capacity callers hold a local admission, counted by caller, and each of them owns a slot of its own |
| SchedulerWaiters.IdleWhenQuiet | gateway/src/dgx_moa/executor_scheduler.py:287-315 | When all calls have ended and all holders released, no pin, owner or waiter is left |
| SchedulerWaiters.CallbackFailureAbandons | gateway/src/dgx_moa/executor_scheduler.py:243-248 | If the queue callback raises, the request stays pinned with nobody to release it |
| SchedulerWaiters.AbandonedForever | gateway/src/dgx_moa/executor_scheduler.py:243-306 | In every continuation that does not name it, such a request stays pinned, and once promoted it keeps its slot |
| SchedulerWaiters.ForeignReleaseLeavesStale | gateway/src/dgx_moa/executor_scheduler.py:287-306 | A foreign release of a waiting request leaves its call stale |
| SchedulerWaiters.StaleTimeoutTakesLease | gateway/src/dgx_moa/executor_scheduler.py:250-255 | When the request is admitted anew, the stale call's timeout removes the new admission while its holder still uses it |
| SchedulerWaiters.SecondHolderLosesSlot | gateway/src/dgx_moa/executor_scheduler.py:153-159 | A second acquire of a held request hands out the same slot; after the first release the second caller holds an admission without a slot |
| Dashboard.PushKeepsRing | gateway/src/dgx_moa/live_dashboard.py:79-84 | The ring is always the last min(n, size) events, contiguous and ending at the current number |
| Dashboard.ResyncExact | gateway/src/dgx_moa/live_dashboard.py:98-108 | For any ring size: resynchronisation is demanded exactly for a future position, a lost event, or a backlog larger than the queue; without a ring only for a future position |
| Dashboard.HandoverExact | gateway/src/dgx_moa/live_dashboard.py:98-108 | Without that demand, replay gives every later event once and in order if and only if there is a ring or nothing was missed |
| DashboardHub.StepSound | gateway/src/dgx_moa/live_dashboard.py:79-155 | Every interleaving of recording, scheduling, delivery, reading, subscribing and leaving keeps rings and subscriber streams sound |
| DashboardHub.NewSubGets | gateway/src/dgx_moa/live_dashboard.py:86-109 | What a new subscriber's queue holds, from the history alone: nothing without a position, the demand to resynchronise, or exactly the later events |
| DashboardSubscriber.ExactlyOnce | gateway/src/dgx_moa/live_dashboard.py:86-155 | Until its first drop, what a subscriber has read, holds and has coming is its scope's history from its base, once and in order |
| DashboardSubscriber.NoSilentLoss | gateway/src/dgx_moa/live_dashboard.py:115-120 | An event that does not directly follow the last one read carries the gap mark, or one still queued behind it does, also when a dropped item was the demand to resynchronise; queued numbers are contiguous |
| DashboardRuns.NoSilentLossInRuns | gateway/src/dgx_moa/live_dashboard.py:115-155 | Over any run, every jump in what a consumer has read is marked on that event, on a later one it has read, or on one still in its queue |
| DashboardRuns.HandoverDelivers | gateway/src/dgx_moa/live_dashboard.py:86-155 | In every continuation without overflow, a returning subscriber gets exactly once and in order, across replay and live delivery, every event after the one it names, if and only if there is a ring or it had missed nothing |
| DashboardObject.EventQueue.Put | gateway/src/dgx_moa/live_dashboard.py:115-120 | A full queue loses its oldest item and the new one is marked |
| DashboardObject.LiveDashboardHub.Record | gateway/src/dgx_moa/live_dashboard.py:79-84 | The event gets the next number of its scope and closes the ring of that scope only |
| DashboardObject.LiveDashboardHub.Subscribe | gateway/src/dgx_moa/live_dashboard.py:86-109 | The new queue and the reported number are one consistent cut of the scope's history |
| DashboardObject.LiveDashboardHub.Unsubscribe | gateway/src/dgx_moa/live_dashboard.py:111-113 | Exactly the named subscriber goes and the others keep their order |
| DashboardObject.LiveDashboardHub.Publish | gateway/src/dgx_moa/live_dashboard.py:147-155 | Both scopes are recorded, and the callbacks are exactly one per operator with the public event and one per subscriber of the owner with the private event, in order, each with its scope's next number |
| DashboardFanout.CallbacksExact | gateway/src/dgx_moa/live_dashboard.py:147-155 | Exactly the operators and the owner's subscribers are called, in order, each with the event made for it |
| DashboardFanout.PublishedHistories | gateway/src/dgx_moa/live_dashboard.py:147-150 | Operators' history grows by the public body, the owner's by the private one, and no other history changes |
| DashboardFanout.SchedulingDelivers | gateway/src/dgx_moa/live_dashboard.py:151-155 | Scheduling the snapshot of a publication appends to each subscriber exactly the callbacks meant for it |
| DashboardFanout.PublicationReaches | gateway/src/dgx_moa/live_dashboard.py:147-155 | End to end, an operator gets the public event, the owner's subscriber the private one, every other subscriber nothing |
| Provenance.TopologicalAcyclic | gateway/src/dgx_moa/context_projection.py:200-224 | An order in which parents come first rules out every cycle |
| Provenance.Search.Visit | gateway/src/dgx_moa/context_projection.py:205-219 | A reported cycle exists; otherwise the item is visited and the search state is restored |
| Provenance.Search.Run | gateway/src/dgx_moa/context_projection.py:200-224 | The search reports a cycle if and only if the parents have one, and otherwise leaves a topological order of all items |
| Provenance.CheckParents | gateway/src/dgx_moa/context_projection.py:191-204 | Accepts exactly when every parent is known and no item is its own parent, and otherwise reports the first offending item's fault |
| Provenance.Validate | gateway/src/dgx_moa/context_projection.py:191-227 | Accepts exactly the snapshots with unique ids, known acyclic parents and known citations, and reports each other fault exactly when it is the first |
| Dedup.KeepLast | gateway/src/dgx_moa/context_projection.py:562-575 | The backward scan with a set of fingerprints computes the last-occurrence list |
| Dedup.LastOfExact | gateway/src/dgx_moa/context_projection.py:562-575 | Exactly the items whose fingerprint does not occur later survive, in order |
| Dedup.LastOfDistinct | gateway/src/dgx_moa/compression.py:50-58 | No fingerprint survives twice and every fingerprint survives |
| Eviction.EvictKeepsBest | gateway/src/dgx_moa/context_projection.py:661-679 | Dropping the worst k times leaves exactly the n - k items with the smallest keys, in original order |
| Eviction.AttemptStep | gateway/src/dgx_moa/context_projection.py:661-679 | Each further drop takes the worst item of the first list that still has one |
| Eviction.Fit | gateway/src/dgx_moa/context_projection.py:661-679 | The loops stop at the first drop count that fits for any size function, touch contributions and inputs only in turn, and fit or leave nothing |
| Projection.EvidenceOrder | gateway/src/dgx_moa/context_projection.py:429-452 | The evidence key orders any evidence with distinct ids totally |
| Projection.EvidenceSurvivors | gateway/src/dgx_moa/context_projection.py:429-452 | Every dropped evidence item has a greater retention key than every item kept |
| Projection.InputSurvivors | gateway/src/dgx_moa/context_projection.py:455-464 | Every dropped input has a greater retention key than every input kept |
| Projection.RenumberedEviction | gateway/src/dgx_moa/context_projection.py:672-679 | For any number of drops, recomputing the input indices after each of them leaves the same inputs as numbering them once |
| Projection.ContributionPartition | gateway/src/dgx_moa/context_projection.py:604-629 | Included and excluded contributions partition those the policy allows |
| Projection.EvidenceAccounting | gateway/src/dgx_moa/context_projection.py:604-629 | Every evidence item is listed, and listed on both sides exactly when it was retained in a rewritten form |
| Projection.StagesAccounted | gateway/src/dgx_moa/context_projection.py:604-679 | Both accounts hold after any number of evictions |
| Projection.ProjectionSurvivors | gateway/src/dgx_moa/context_projection.py:552-679 | From a snapshot with distinct ids, at any number of evictions the evidence and inputs left outrank all that went, in original order, and contributions go from the end |
| Projection.ProjectionAccounted | gateway/src/dgx_moa/context_projection.py:552-659 | The accounts of evidence and contributions hold for the projection of a snapshot, at any number of evictions |
| Projection.Project | gateway/src/dgx_moa/context_projection.py:552-679 | Selection, de-duplication, rewriting and eviction give the first stage that fits, with its exact exclusion lists |
| ProjectionClasses.InputClasses | gateway/src/dgx_moa/context_projection.py:455-464 | At any number of drops: a system, developer or metadata input goes only when nothing else is kept, any other input that is no user message only when no user message is kept, and within one class the older go first |
| ProjectionClasses.LoopClasses | gateway/src/dgx_moa/context_projection.py:672-679 | The same for the loop that numbers the inputs anew before each drop |
| ProjectionClasses.EvidenceRanking | gateway/src/dgx_moa/context_projection.py:429-452 | The retention key ranks policy, failed tests, open failures, diffs, tool output and passing tests, checkpoints, closed failures, and then by id |
| ProjectionClasses.EvidenceClasses | gateway/src/dgx_moa/context_projection.py:429-452 | No dropped evidence outranks any that is kept |
| ProjectionClasses.ChosenExact | gateway/src/dgx_moa/context_projection.py:552-554 | Exactly the evidence of the admitted kinds is taken, in order |
| ProjectionClasses.AllowedExact | gateway/src/dgx_moa/context_projection.py:555-561 | Exactly the contributions of the admitted roles are taken and, if causal parents are named, only those of their attempts |
| ProjectionClasses.ProjectionRespectsClasses | gateway/src/dgx_moa/context_projection.py:552-679 | At any number of evictions a projection respects these classes |
| Compression.WindowStart | gateway/src/dgx_moa/compression.py:37-39 | The window is as late as the limit allows without starting inside a run of tool results, and fails exactly for a non-positive limit on a long enough history |
| Compression.SelectedInOrder | gateway/src/dgx_moa/compression.py:40-49 | The selected messages are a subsequence of the history |
| Compression.RetainedInOrder | gateway/src/dgx_moa/compression.py:34-58 | What is retained is a subsequence of the redacted history with pairwise different fingerprints |
| Compression.NewestUserSurvives | gateway/src/dgx_moa/compression.py:40-58 | The newest user message of the whole history survives window, anchor, de-duplication and trimming |
| Compression.ToolTextWithinLimit | gateway/src/dgx_moa/compression.py:59-68 | All tool text together stays within the limit |
| Compression.OutputDistinct | gateway/src/dgx_moa/compression.py:50-68 | The output has no equal fingerprints exactly when no two retained tool results agree in everything but text and in what the budget leaves of it |
| Compression.ShortTextsStayDistinct | gateway/src/dgx_moa/compression.py:50-68 | If every retained tool text fits the budget as it is, the output is what was retained and has no equal fingerprints |
| Compression.TrimmingCanCollide | gateway/src/dgx_moa/compression.py:59-68 | Two different tool results that become equal by trimming |
| Compression.CompressMessages | gateway/src/dgx_moa/compression.py:34-68 | The loops compute the retained and trimmed messages of the latest admissible window, which RetainedExact and TrimmedExact spell out; no result exactly for a non-positive limit on a long enough history |
| CompressionKeeps.SelectedExact | gateway/src/dgx_moa/compression.py:37-51 | Exactly the window, the policy messages at the very beginning and the last user message before the window are selected |
| CompressionKeeps.RetainedExact | gateway/src/dgx_moa/compression.py:40-58 | Exactly the selected messages that are not said again later are retained, redacted, in order |
| CompressionKeeps.NothingForgotten | gateway/src/dgx_moa/compression.py:50-58 | Every selected message is represented by one with its fingerprint |
| CompressionKeeps.TrimmedExact | gateway/src/dgx_moa/compression.py:59-68 | A tool result keeps the beginning of its compressed text, as long as an equal share of the limit; every other message stays as it is |
| Evolution.GenerateKeeps | gateway/src/dgx_moa/evolution.py:152-195 | Generation keeps the table disciplined: versions 1..n per artifact with the stages of the lifecycle, unchanged content, rows that re-validate, and the evidence each stage needs |
| Evolution.EvaluateKeeps | gateway/src/dgx_moa/evolution.py:276-302 | Evaluation keeps the discipline; what it writes is spelled out by EvaluateExactly |
| Evolution.StartCanaryKeeps | gateway/src/dgx_moa/evolution.py:304-330 | Starting a canary keeps the discipline: version 3 follows an evaluated version and names a rollback target |
| Evolution.RecordCanaryKeeps | gateway/src/dgx_moa/evolution.py:332-347 | Recording a canary keeps the discipline |
| Evolution.PromoteKeeps | gateway/src/dgx_moa/evolution.py:349-384 | Promotion keeps the discipline: a fourth version exists only after a helpful canary, and active rows carry approval and rollback target |
| Evolution.RollbackKeeps | gateway/src/dgx_moa/evolution.py:386-414 | Rollback keeps the discipline, although it copies a row without validating it |
| Evolution.ReadsValidate | gateway/src/dgx_moa/evolution.py:252-260 | No stored row, rollbacks included, ever fails its validation on read |
| EvolutionRuns.AppendOnly | gateway/src/dgx_moa/evolution.py:226-250 | Over any run no row changes or disappears |
| EvolutionRuns.RejectedIsTerminal | gateway/src/dgx_moa/evolution.py:276-414 | After a rejection the artifact never gets another version or an active one |
| EvolutionRuns.ActiveIsNewest | gateway/src/dgx_moa/evolution.py:416-420 | An active version exists exactly from the fourth version on, and it is the newest |
| EvolutionRuns.ActiveLineage | gateway/src/dgx_moa/evolution.py:82-119 | Before every active version stand a candidate with the same content, an evaluation that is schema-valid, replayed, within regression thresholds, reviewer-approved, with evidence and, if high impact, judge-approved, and a canary found helpful |
| EvolutionRuns.ActiveDescends | gateway/src/dgx_moa/evolution.py:276-414 | Following the recorded parents from any active row, rollbacks included, leads to the helpful canary, the passed evaluation and the candidate |
| EvolutionRuns.ParentsEarlier | gateway/src/dgx_moa/evolution.py:276-414 | Every recorded parent is an existing earlier version of the same artifact |
| EvolutionOperations.EvaluateExactly | gateway/src/dgx_moa/evolution.py:276-302 | When an evaluation succeeds and with which failure it ends otherwise; version two is evaluated exactly if all six requirements are met, otherwise rejected, with the other fields kept |
| EvolutionOperations.VerdictIs | gateway/src/dgx_moa/evolution.py:111-119 | Every stored verdict is that of the six requirements on the evaluation that judged it |
| EvolutionOperations.StartCanaryExactly | gateway/src/dgx_moa/evolution.py:304-330 | When a canary starts, the row it writes, and each failure |
| EvolutionOperations.RecordCanaryExactly | gateway/src/dgx_moa/evolution.py:332-347 | A record is added, as it is, exactly to a canary and exactly with evidence |
| EvolutionOperations.PromoteExactly | gateway/src/dgx_moa/evolution.py:349-384 | A promotion succeeds exactly for a canary found helpful with an approval, and the row it writes |
| EvolutionOperations.RollbackExactly | gateway/src/dgx_moa/evolution.py:386-414 | A rollback succeeds exactly from an active version with an approval, and the row it writes |
| EvolutionOperations.GenerateExactly | gateway/src/dgx_moa/evolution.py:152-195 | A good signal yields the newest existing version or a candidate whose policy kind is always high impact; any other is refused |
| EvolutionOperations.RowsAreValid | gateway/src/dgx_moa/evolution.py:82-90 | Every stored row has a usable prompt if it is one, and approval and rollback target if it is active |
| EvolutionOperations.LifeReachesActive | gateway/src/dgx_moa/evolution.py:152-384 | A good signal, a convincing evaluation and a helpful canary do lead to an active version |
| EvolutionObject.EvolutionRegistry.Write | gateway/src/dgx_moa/evolution.py:226-250 | A row is inserted once; an existing version is refused and nothing changes |
| EvolutionObject.EvolutionRegistry.Read | gateway/src/dgx_moa/evolution.py:252-260 | A read never fails validation on a disciplined table |
| EvolutionObject.EvolutionRegistry.Greatest | gateway/src/dgx_moa/evolution.py:416-420 | Finds the active row with the greatest version if there is one |
| EvolutionObject.EvolutionRegistry.EvaluateVersion | gateway/src/dgx_moa/evolution.py:276-302 | The in-place evaluation has the outcome and table of the function that EvaluateExactly spells out, and keeps the discipline |
| EvolutionObject.EvolutionRegistry.BeginCanary | gateway/src/dgx_moa/evolution.py:304-330 | The in-place canary start has the outcome and table of the specification and keeps the discipline |
| EvolutionObject.EvolutionRegistry.PromoteVersion | gateway/src/dgx_moa/evolution.py:349-384 | The in-place promotion has the outcome and table of the specification and keeps the discipline |
| EvolutionObject.EvolutionRegistry.RollbackTo | gateway/src/dgx_moa/evolution.py:386-414 | The in-place rollback has the outcome and table of the specification and keeps the discipline |
| Percentile.SortDominates | scripts/evaluate-paired-noninferiority.py:43-50 | Raising values pointwise raises every order statistic |
| Percentile.SortedUnique | scripts/evaluate-paired-noninferiority.py:43-50 | There is one sorted rearrangement, so any correct sort gives the same percentile |
| Percentile.PercentileDominates | scripts/evaluate-paired-noninferiority.py:43-50 | Raising values pointwise never lowers a percentile |
| Percentile.PercentileMonotone | scripts/evaluate-frontier-dominance-v2.py:20-38 | A higher quantile is never lower |
| Percentile.PercentileWithin | scripts/evaluate-paired-noninferiority.py:43-50 | A percentile stays between the least and the greatest value |
| Percentile.VariantsAgree | scripts/run-client-quality-matrix.py:1575-1582 | Before rounding, the floor/ceiling, clamped-index and unbranched forms give the same value |
| Percentile.PercentileRank | scripts/evaluate-paired-noninferiority.py:43-50 | No more than (n - 1)q values, rounded up, lie below the q-th percentile, and at least one more than (n - 1)q, rounded down, do not lie above it |
| Percentile.PercentileValue | scripts/evaluate-paired-noninferiority.py:43-50 | The percentile lies between two neighbours of the sorted list in proportion to the fraction of the position |
| Percentile.PercentileMirror | scripts/summarize-request-path-baseline.py:17-23 | Negating the values mirrors the percentiles |
| Bootstrap.BootstrapMonotone | scripts/evaluate-paired-noninferiority.py:53-60 | For fixed draws, pointwise larger differences lower neither bound |
| Bootstrap.BootstrapInterval | scripts/evaluate-paired-noninferiority.py:53-60 | The lower bound is at most the upper one and both stay within the range of the differences |
| Bootstrap.BootstrapMirror | scripts/evaluate-paired-noninferiority.py:53-60 | Exchanging target and reference mirrors the interval |
| Bootstrap.SampleIsMean | scripts/evaluate-paired-noninferiority.py:53-60 | Each sample times the number of differences is the sum of the drawn differences |
| Bootstrap.IntervalRanks | scripts/evaluate-paired-noninferiority.py:53-60 | The interval leaves a fortieth of the samples on each side, the one-sided bound a twentieth below |
| Bootstrap.PassMonotone | scripts/evaluate-paired-noninferiority.py:99-170 | Better target outcomes never turn a pass into an inconclusive verdict |
| Bootstrap.PassBothWays | scripts/evaluate-paired-noninferiority.py:99-170 | A clean pass is the same as an upper bound below the negated margin with the sides exchanged |
| Bootstrap.Evaluate | scripts/evaluate-paired-noninferiority.py:99-170 | Pass needs enough pairs, only valid scores, no violation and a lower bound above the margin |
| Bootstrap.DifferenceAt | scripts/evaluate-paired-noninferiority.py:156 | The difference of a pair is the target's outcome minus the reference's |
| Bootstrap.PassExactly | scripts/evaluate-paired-noninferiority.py:99-170 | Pass, written out: no fault, at least thirty pairs, all outcomes known, and the 2.5 percent bound above -0.1 |
| Bootstrap.PassMonotoneOnRows | scripts/evaluate-paired-noninferiority.py:99-170 | Raising target outcomes, lowering reference outcomes or removing faults never ends a pass |
| Delegation.StepKeeps | gateway/src/dgx_moa/async_moa.py:207-258 | Every step keeps handle names, role counts, budgets and worker permits right |
| Delegation.LaunchAppends | gateway/src/dgx_moa/async_moa.py:233-247 | A launch never overwrites an earlier handle in the dictionary |
| Delegation.NameDistinct | gateway/src/dgx_moa/async_moa.py:236 | Handle names with different numbers differ, whatever the digests |
| Delegation.Classify | gateway/src/dgx_moa/async_moa.py:63-71 | Stale exactly when head or working tree differ, current exactly when nothing differs |
| DelegationRuns.Budgets | gateway/src/dgx_moa/async_moa.py:199-247 | In every run: launches = handles = sum of role counts, within the total and role budgets, none when effort is fast, and workers within max(1, limit) |
| DelegationRuns.HandlesDistinct | gateway/src/dgx_moa/async_moa.py:233-247 | In every run all handle names are distinct |
| DelegationRuns.Spaced | gateway/src/dgx_moa/async_moa.py:222-235 | With a monotone clock, two launches with one fingerprint are at least the cooldown apart |
| DelegationRuns.LaunchesExactly | gateway/src/dgx_moa/async_moa.py:199-247 | A call launches exactly under effort, threshold, budgets, depth and cooldown, all written out, and the handle and counts it leaves |
| DelegationRuns.CancelsExactly | gateway/src/dgx_moa/async_moa.py:252-258 | Exactly the unfinished handles with another head or working tree are marked |
| DelegationObject.AsyncMoARuntime.Spawn | gateway/src/dgx_moa/async_moa.py:207-247 | Launches exactly under the guards; a refusal changes nothing, a launch adds one last handle and counts it |
| DelegationObject.AsyncMoARuntime.CancelStale | gateway/src/dgx_moa/async_moa.py:252-258 | Asks exactly the pending stale tasks to cancel, reports them in launch order and changes nothing else |
| DelegationObject.ObsoleteIdsExactly | gateway/src/dgx_moa/async_moa.py:252-258 | The reported names are those of exactly these handles, in launch order |
| DelegationObject.AsyncMoARuntime.Finalize | gateway/src/dgx_moa/async_moa.py:260-317 | Reloop exactly if some relevant finding that is not stale is corrective; actions are listed once, by first appearance |
| DelegationObject.KeepFirst | gateway/src/dgx_moa/async_moa.py:316 | An order-preserving de-duplication |
| Reconciliation.ResultsInOrder | gateway/src/dgx_moa/async_moa.py:260-288 | Exactly one result per relevant handle, in launch order |
| Reconciliation.DecisionsIff | gateway/src/dgx_moa/async_moa.py:292-310 | There is a decision exactly when some handle is corrective |
| Reconciliation.DecisionsExactly | gateway/src/dgx_moa/async_moa.py:292-310 | One decision per corrective finding that is not stale, in launch order, with its invalidated assumptions, its facts and observations, direction, actions, role and snapshot |
| Reconciliation.ReloopExactly | gateway/src/dgx_moa/async_moa.py:292-315 | Reloop and notification hold exactly if there is such a finding |
| Reconciliation.ResultExactly | gateway/src/dgx_moa/async_moa.py:266-288 | What is reported about a handle by how its task ended, with messages cut at 256 characters |
| Reconciliation.RequestedExactly | gateway/src/dgx_moa/async_moa.py:289-291 | Requested actions are those of all findings of relevant handles, stale ones included |
| Reconciliation.CancelPreserves | gateway/src/dgx_moa/async_moa.py:252-317 | However cancelled tasks end, cancelling obsolete work first gives the same reloop, notification and decisions |
| Reconciliation.SameFreshResults | gateway/src/dgx_moa/async_moa.py:252-290 | Results of handles that are not stale are untouched by the cancellation |
| Reconciliation.CancelCanLoseActions | gateway/src/dgx_moa/async_moa.py:289-291 | An obsolete finding that is cancelled no longer contributes the actions it would have requested |
| Reconciliation.ActionsSurviveIff | gateway/src/dgx_moa/async_moa.py:252-316 | The distinct requested actions are the same after a cancellation, for all outcomes that agree on fresh work, if and only if no relevant handle is obsolete |
| SseFraming.SplitExact | scripts/capture-opencode-sse.py:64-67 | The split is the one way to write a text as frames closed by their first blank line, plus a rest without one |
| SseFraming.SplitAppend | scripts/capture-opencode-sse.py:64-67 | Splitting a prefix and continuing with its rest gives the frames of the whole |
| SseFraming.NormalizeChunks | scripts/capture-opencode-sse.py:65 | Normalising by chunk equals normalising the body if and only if no boundary cuts a CR LF pair |
| SseFraming.CleanWithoutReturns | scripts/capture-opencode-sse.py:65 | A stream without CR is never cut that way |
| SseCapture.HandleBuffer | scripts/capture-opencode-sse.py:66-120 | The inner loop handles every complete frame up to the first error and leaves the rest |
| SseCapture.Run | scripts/capture-opencode-sse.py:62-142 | The capture by chunks is the capture of the concatenated normalised chunks, and of the whole body when no boundary cuts a CR LF pair |
| SseResults.ChunkIndependence | scripts/capture-opencode-sse.py:62-142 | Two clean ways of cutting the same body give the same events and tool calls |
| SseResults.AcceptedExactly | scripts/capture-opencode-sse.py:66-126 | Accepted exactly when nothing follows the last blank line and readable payloads are closed by one end marker |
| SseResults.FramingErrors | scripts/capture-opencode-sse.py:121-126 | The two end-of-body errors occur exactly when every frame was fine and the end is wrong |
| SseResults.FaultsExactly | scripts/capture-opencode-sse.py:70-87 | Each other error is raised exactly when the first payload that cannot be handled has that fault: a second end marker, a payload after it, or text that does not decode or parse |
| SseResults.AcceptedShape | scripts/capture-opencode-sse.py:45-123 | Started, one event per payload with its kind and finish reason, one done, eof, numbered from 1 |
| SseResults.CallsAccumulate | scripts/capture-opencode-sse.py:110-119 | Tool calls appear once per index by first appearance, each with all its pieces joined in order |
| SseResults.CallsJoined | scripts/capture-opencode-sse.py:110-119 | Identifier, name and arguments of each call are the concatenations, in order, of what was sent for its index |
| SseResults.KindExactly | scripts/capture-opencode-sse.py:88-98 | Which kind of event a payload becomes |
| SseResults.CutPairMatters | scripts/capture-opencode-sse.py:65 | A cut CR LF pair turns an accepted body into an unframed one |
| Responses.FailsExactly | gateway/src/dgx_moa/api.py:341-373 | Translation fails exactly on a call without identifier or name, or an output without identifier |
| Responses.CoerceInput | gateway/src/dgx_moa/api.py:330-383 | The loop, with its in-place extension of the last message, computes the item-by-item translation |
| ResponsesOrder.CallsKept | gateway/src/dgx_moa/api.py:341-362 | The calls of the messages are the calls of the items, in order |
| ResponsesOrder.ResultsKept | gateway/src/dgx_moa/api.py:363-372 | The tool results of the messages are the outputs of the items, in order |
| ResponsesOrder.CallExactly | gateway/src/dgx_moa/api.py:341-351 | A call keeps identifier and name, and its arguments or its wrapped input |
| ResponsesOrder.MessageExactly | gateway/src/dgx_moa/api.py:363-381 | An output becomes a tool message; a message keeps everything but the kind of its input and output text parts, which becomes text |
| ResponsesOrder.ReasoningIgnored | gateway/src/dgx_moa/api.py:339-340 | Reasoning items leave no trace and do not break a run of calls |
| ResponsesOrder.CoerceIsGrouped | gateway/src/dgx_moa/api.py:337-382 | Item-by-item translation equals grouping by maximal runs of calls |
| ResponsesTrip.ResponsesPayload | gateway/src/dgx_moa/api.py:432-522 | A reply is reported as failed exactly for an upstream error or when it has no reasoning, text or call |
| ResponsesTrip.RoundTrip | gateway/src/dgx_moa/api.py:330-522 | Coercing a reply's output gives back its text and its calls with identifiers, names and (for function calls) arguments |
| ResponsesTrip.FixedPoint | gateway/src/dgx_moa/api.py:485-502 | Custom calls settle after one trip out and in |
| ResponsesTrip.UnchangedIff | gateway/src/dgx_moa/api.py:485-502 | A custom call returns unchanged exactly when its arguments are the text of some input |
| ResponsesMatching.MatchesIff | gateway/src/dgx_moa/api.py:557-581 | True exactly when only tool results follow some request for tools and one of them answers one of its calls |
| ResponsesMatching.ToolTurn | gateway/src/dgx_moa/api.py:330-581 | A reply's output sent back with tool outputs is recognised exactly when an output answers one of its calls |

## Left out

- Endpoints, streaming generators, leases, retries, authentication, dashboards' pages, OAuth and subprocesses: they depend on the network and on modules outside this model.
- Durations: a timeout or cancellation is an event that may happen at any time; the length of the wait and the thread that resolves a future are not modelled.
- Publishers that overlap: events are scheduled outside the lock, so delivery order is stated for one publisher at a time.
- Owner lookup, redaction and masking of dashboard payloads: they decide what a body says, not how it is numbered or delivered.
- Recursion depth, hashes and the size check of evidence snapshots: the search is modelled on ids and parents alone.
- Retention of tool and media parts, `compress_text`'s choice of lines, redaction rules and summary text: abstract functions, assumed only to respect message roles.
- Negative limits on tool text: a limit is a natural number.
- SQLite, content digests and field patterns of evolution artifacts: the table is a map from (id, version) to rows; `judged` in the model records which evaluation produced version 2.
- Floating-point rounding and the quality of random numbers: percentiles are over the reals and draws are any fixed index lists.
- The wording of violations and reports: violations are counted.
- JSON and UTF-8 decoding: reading a payload is an arbitrary function from its text.
- Worker bodies and event-loop scheduling: a task waits, works and ends in any order the permits allow; role budgets and thresholds are total functions.
- `Responses.CoerceInput`: a message item is copied by value; the source copies it shallowly and would extend the caller's own call list, which no item of the Responses form has.
- `ResponsesTrip.ResponsesPayload`: edit-call normalisation is taken as the identity, and identifiers, timestamps and usage are not modelled.
- `DelegationObject.AsyncMoARuntime.Finalize`: waiting for tasks is a function from handle names to outcomes, so exceptions raised by the wait itself do not occur.
- `Percentile.VariantsAgree`: the clamped variant's rounding to three decimals is not modelled.
- `Bootstrap.Evaluate`: the separate checks of a pair are a given number of faults per pair; their conditions and texts are not modelled.
- `SseResults.AcceptedShape`: of an event only number, kind and finish reason are modelled, not role, choice index, delta keys, usage position or time.
- `Compression.CompressMessages`: the content of a tool message is its text; a content that is not text stands for its JSON text.
- `SchedulerWaiters.NoOverAdmission`: a caller that releases twice counts as somebody else the second time.
