# Courier: a verified model

This project models the task protocol of Courier and the self-contained algorithms beside it, and proves what they
keep. `dafny verify dfyconfig.toml` checks all of it.

**The task protocol.** A controller is the only writer of an append-only journal of events. Every event is sealed into
a hash chain and carries an optional deduplication key; a pure transition function decides, inside the append, whether
the event is legal for its task, and a task table is the incremental form of the fold of that function. The controller
adds leases and a verification queue that live only in memory and are rebuilt on boot.

| file | what it holds |
|---|---|
| `Events`, `Records`, `Options` | events, their validity, default deduplication keys, wrappers |
| `StateMachine` | the transition function and the invariant of one task's state |
| `Histories` | every accepted history of one task |
| `Chain` | stored rows, decoding, the chain check, tamper evidence |
| `Projection`, `Journal`, `JournalFile` | the task table as a fold; the append transaction; the journal object |
| `Verification` | the fail-closed verifier wrapper and the retry decision it feeds |
| `ControllerSteps`, `ControllerLog`, `Runtime`, `ControllerSpec` | the events the controller builds; what a controller-written log satisfies; how leases and queues match the table; the specification of each operation |
| `Controller` | the controller object: boot, create, claim, start, heartbeat, result, cancel, resolve, tick, verify |
| `Recovery` | crashes after any event, restarts, and whole runs |
| `Bytes`, `RingBuffer` | the shared-memory ring of length-prefixed messages |
| `Scheduler` | the preempting priority scheduler |
| `DeltaPatcher` | chunk-matching patches and their replay |
| `Strings`, `DagResolver`, `Provenance` | sorted sets of strings; staged topological resolution; the provenance audit |
| `Merkle`, `Replica`, `RateLimiter` | inclusion proofs; the replicated log; rate limits |

Time is a parameter (a `real`), hashes are function parameters with no property but the ones a lemma asks for, and
dispatch ids are parameters that a claim requires to be unused. Where security of a hash is needed, it is asked only
of the finitely many texts or rows that were actually hashed. A controller operation that runs under the lock is one
method; a crash may cut its appends anywhere, which `Recovery.Restart` covers by cutting the log at any length.

The invariant of the controller is `Controller.Controller.Valid`. It has a durable half, which holds after every
single append (the log is intact and is the fold behind the table; every stored event still says something true about
its task; an unfinished operation is always followed by the event that recovery would append), and a volatile half,
which holds between operations (leases correspond one to one to claimed and running tasks, queue and verifications
under way to verifying tasks, and no task is accepted, pending a retry decision, or queued with a cancel request).

## Results that are not a plain yes

- A rejection whose reason mentions a timeout is never retried automatically for a non-idempotent task, wherever the
  mention stands. A mention of a lost lease is looked up only in the recorded reason, which is cut to 500 characters:
  a worker-reported failure that mentions `lease-lost` later than that and claims to be retryable is retried
  (`Verification.LateLeaseLostIsRetried`; exact condition over the reported text:
  `Verification.RejectionRetriedExactlyWhen`).
- Recovery completes a half-done cancellation exactly for a queued task; a blocked one stays blocked
  (`Recovery.CutCancelRecovers`).
- An intact chain does not fix its stored rows: NULL may stand for the default key (`Chain.NullKeyIsInvisible`), and
  that is all. Rows with the head hash of an intact chain are intact if and only if they differ from it in such keys
  only (`Chain.ChainFixesRows`).
- A dependency listed twice is reported as a cycle (`DagResolver.RepetitionIsNoCycle`), and the items an error names
  include those that merely wait for a cycle; `DagResolver.Resolve` has the exact condition and the exact list.
- A Merkle root does not fix the number of leaves. Two lists of digests share it exactly if the one of lower height,
  padded to a full tree, is the other tree's level of that height, also padded, where the digest of the empty text
  stands for the empty list (`Merkle.RootsMeetExactly`). So the empty list shares its root with one other list, that of
  the single digest of the empty text, which is what the empty tree accepts a proof of (`Merkle.EmptyRootExactly`,
  `Merkle.EmptyTreeAccepts`). A proof
  that is shorter than the tree is high is about an inner node, exactly the one it leads to (`Merkle.AcceptedIsNode`,
  `Merkle.NodesVerify`), and hashes of another width can be divided elsewhere (`Merkle.OtherSplitAccepted`).
- The audit of a provenance graph reports one cycle, at the first node in insertion order that leads to one
  (`Provenance.FindCycle`). That node need not lie on a cycle (`Provenance.ReportedOffCycle`); it does for every
  insertion order exactly if every node that leads to a cycle lies on one (`Provenance.FirstLiesOnCycle`).
- A proposal counts the entries of an acknowledgement list, not the nodes behind them. The counted entries come from a
  quorum of nodes exactly if those that repeat a node or name none of the cluster are no more than the entries beyond
  the quorum (`Replica.CountedIsQuorum`); one node that acknowledges often enough is counted and is a quorum only of
  itself (`Replica.OneVoiceCounted`).
- A leader that proposes with a lower fence than before makes a log that no follower can take over
  (`Replica.CatchUpCompletes`); proposals do not look at fences.
- The multi-tier limiter takes negative amounts. Without them no bucket ever exceeds its capacity and the bound on
  what is taken holds (`RateLimiter.NeverOverfull`, `RateLimiter.RateBound`); a full bucket can serve more than its
  capacity at one instant exactly after a negative amount (`RateLimiter.NegativeAmountsOverfill`).
- The command line can assign any chunk size past the constructor's minimum of 8. The diff ends on every pair of files
  exactly if the size is not 0 (`DeltaPatcher.ScanAlwaysEnds`, `DeltaPatcher.ScanAdvances`); with 0 it stands still
  exactly where the base does not start with the target's byte (`DeltaPatcher.ZeroChunkStalls`).
- A ring whose 64-bit sequence stands at its last value refuses to count one more message, but only after the message
  has been queued, so that write fails and the message is read all the same (`RingBuffer.SharedRing.Write`).
- A new edge keeps the provenance graph acyclic exactly if its child does not lead to its parent
  (`Provenance.EdgeKeepsAcyclic`), and a sound graph stays sound exactly under the conditions of
  `Provenance.EdgeKeepsSound`, `Provenance.FreshNodeKeepsSound` and `Provenance.ReplacementKeepsSound`; the graph
  object checks none of them.

## Model

| member | source | states |
|---|---|---|
| Events.SameKeySameEffect | courier_core/events.py:123-150 | two events with the controller's keys share a key only if they are the same effect: same kind and same task, attempt, dispatch or result, whichever the kind is keyed by |
| Events.SameEffectSameKey | courier_core/events.py:123-150 | every effect that is recorded once has a key, and submitting the same effect gives the same key |
| Events.ContentIsEvent | courier_core/events.py:196-212 | under one key, equal content means the equal event, payload included |
| Events.DigitsAreDecimal | courier_core/events.py:123-150 | the numbers in keys and hashed texts are written in decimal |
| Events.AsciiBlank | courier_core/events.py:327 | which ASCII characters alone make a reason blank |
| Events.DigestCharacters | courier_core/events.py:38 | a digest is 64 characters, each a decimal digit or one of a to f; one newline may follow |
| Events.ValidExactly | courier_core/events.py:240-327 | an event is valid if and only if it is well formed column by column: which kinds may leave a column empty, what lengths and numbers it may hold, which payload goes with which kind |
| StateMachine.TransitionKeepsInv | courier_core/state_machine.py:182-325 | every legal step of any kind keeps the task invariant: attempt bounds, which results, dispatch and resolution each status has |
| StateMachine.ApplyKeepsInv | courier_core/state_machine.py:160-179 | the same for the fold step, creation included |
| StateMachine.QueuedIsClaimable | courier_core/state_machine.py:199-216 | a queued task accepts a claim of its next attempt if and only if no cancel is pending and an input is given exactly when it has a dependency, from that dependency; the attempt budget never stands in the way |
| StateMachine.StepsExactly | courier_core/state_machine.py:182-325 | the legal next events of a task, status by status, as an if-and-only-if; the status each leads to; and which fields no event, or one kind only, changes |
| StateMachine.MentionsAnyCase | courier_core/state_machine.py:144-148 | a word without capitals is found in a text if and only if it stands there in some mixture of small and capital letters |
| StateMachine.DecisionMeans | courier_core/state_machine.py:139-157 | what follows a lost lease or a rejection, from the fields of the task: blocked, cancelled, failed or queued again |
| StateMachine.WorkerIsFenced | courier_core/state_machine.py:125-131 | a worker's event is accepted only for the current attempt, dispatch and worker |
| Histories.TerminalIsFinal | courier_core/state_machine.py:186-192 | after a terminal status only late reports are accepted, each is counted, and nothing but that count and the update time changes |
| Histories.AcceptedResultStays | courier_core/state_machine.py:230-254 | an accepted result is never replaced or dropped, and nothing is accepted or confirmed after it |
| Histories.ExactlyOnce | courier_core/state_machine.py:230-254 | any accepted history has at most one acceptance and at most one completing event, and never both an acceptance and a human confirmation after it |
| Histories.TraceBack | courier_core/state_machine.py:199-242 | a task under a claim has the claim, start, report and acceptance its status implies, in order, all naming its attempt and dispatch |
| Histories.CompletionIsEarned | courier_core/state_machine.py:243-254 | TASK_COMPLETE names an attempt, dispatch and result that were claimed, started, reported and accepted in this order with no claim in between |
| Histories.QuarantineHolds | courier_core/state_machine.py:139-157 | a task held for an uncertain effect leaves that condition only by a RETRY_AUTHORIZED that names the attempt |
| Histories.HeldUntilAuthorized | courier_core/state_machine.py:256-325 | at every later moment the uncertain attempt has been authorized or the task is still held |
| Histories.HeldForHuman | courier_core/state_machine.py:256-325 | after an uncertain end the task is neither tried again nor failed, completed or cancelled before an event in which a named human decides about the attempt |
| Histories.NoBlindReexecution | courier_core/state_machine.py:139-157 | no claim follows a lost lease, or a rejection whose recorded reason says timeout or lease-lost in any letter case, of a started attempt of a task that is not idempotent, before a RETRY_AUTHORIZED naming that attempt |
| Histories.AttemptsInOrder | courier_core/state_machine.py:199-216 | attempts are claimed as 1, 2, 3, ... without gaps, within the created budget plus the authorized retries, and never beyond 100 |
| Verification.AcceptedOnlyByVerdict | courier_core/verification.py:101-129 | a result is accepted if and only if the worker reported success and the adapter answered with an explicit acceptance |
| Verification.VerdictMeans | courier_core/verification.py:101-129 | the verdict in terms of what the worker reported and the adapter answered: acceptance, the recorded reason cut to 500 characters, and when a retry is allowed |
| Verification.RejectionRetriedExactlyWhen | courier_core/verification.py:101-129 | when a rejected non-idempotent attempt is retried without a human, as an if-and-only-if over the words of the worker or adapter: they claim it, say timeout nowhere in any letter case, and say no lost lease in the first 500 characters |
| Verification.TimeoutNeverRetried | courier_core/verification.py:101-129 | a reason that says timeout, in any letter case and even beyond the recorded part, never leads to an automatic retry |
| Verification.EarlyLeaseLostNeverRetried | courier_core/verification.py:101-129 | a lost lease mentioned within the recorded part never leads to one either |
| Verification.LateLeaseLostIsRetried | courier_core/verification.py:104-129 | the failing family: a mention beyond the recorded part, on a retryable report, is retried |
| Chain.RowRoundTrip | courier_core/events.py:196-212 | storing and reading back an event loses nothing |
| Chain.DecodesExactly | courier_core/events.py:205-212 | a stored row decodes if and only if its schema and kind are known, it has a payload, an identifier and a UTC time, and the event is well formed |
| Chain.VerifyChain | courier_core/journal.py:253-277 | the loop reports ok if and only if every row is intact and linked; otherwise it names the first bad row and its defect, and everything before is intact |
| Chain.FirstRowLinksToZeros | courier_core/journal.py:253-277 | the first row of an intact chain links to 64 zeros |
| Chain.DefectMeans | courier_core/journal.py:253-277 | what each reported defect says about the row, the first thing wrong with it |
| Chain.PrefixesAgree | courier_core/journal.py:253-277 | two intact chains agree, event by event, up to any two places that are linked to the same hash |
| Chain.TamperEvidence | courier_core/events.py:215-226 | under an unchanged head hash, any altered, dropped, inserted or reordered event breaks the chain |
| Chain.ChainFixesRows | courier_core/journal.py:253-277 | next to an intact chain, other rows are an intact chain with the same head hash if and only if they are the same rows, except that NULL may stand for a default key or the other way round |
| Chain.RowsDifferInKeyOnly | courier_core/events.py:187 | two intact chains with one head agree in every column but the key, and where the keys differ one is NULL |
| Chain.NullKeyIsInvisible | courier_core/events.py:187 | NULL in place of a default key decodes to the same event and passes the same check |
| Projection.FoldsIsFold | courier_core/projection.py:164-174 | the table kept step by step equals a fresh fold of the events |
| Projection.ProjectKeepsInv | courier_core/projection.py:126-142 | one stored event rewrites the row of its task and no other, as the fold step says, and keeps every row's invariant |
| Projection.TaskHistory | courier_core/projection.py:133-174 | the events of one task in a log form an accepted history that ends in the task's row |
| Journal.AppendKeepsInv | courier_core/journal.py:218-250 | an append that stores, repeats, conflicts or is illegal keeps the store a replay of its log; only a stored event changes it, by one |
| Journal.JournalRefinesFold | courier_core/journal.py:218-250 | after any sequence of submissions the table is the fold of the log, sequence numbers are 1..n, keys are unique, and the rows verify and decode |
| Journal.ResubmissionIsIdempotent | courier_core/journal.py:218-250 | a repeated event, any number of appends later, returns the stored one and changes nothing; any other event under its key is refused |
| Journal.AppendAnswers | courier_core/journal.py:218-250 | an append is a duplicate if and only if the very event is stored, and a conflict if and only if another is stored under its key |
| Journal.CreatedInvHolds | courier_core/projection.py:117-123 | created_seq is the sequence number of the task's one creation event |
| JournalFile.JournalDb.Append | courier_core/journal.py:218-250 | the journal object's transaction is exactly the append on values; it is a duplicate exactly if the very event is stored, a conflict exactly if another event has its key, and then leaves the object untouched |
| JournalFile.JournalDb.Head | courier_core/journal.py:185-187 | the head is the last stored sequence number and hash |
| JournalFile.JournalDb.GetEventByDedupeKey | courier_core/journal.py:199-202 | returns the stored event with a key, of which there is at most one |
| JournalFile.JournalDb.ClaimForDispatch | courier_core/journal.py:204-209 | returns the first claim that issued a dispatch, or none exists |
| JournalFile.JournalDb.Tasks | courier_core/projection.py:117-123 | lists exactly the tasks of a status, in the order of their creation |
| JournalFile.JournalDb.Replay | courier_core/projection.py:164-174 | the loop over the stored rows gives the fold of the events, or the refusal of the first event that is illegal where it stands |
| JournalFile.JournalDb.VerifyProjection | courier_core/journal.py:294-299 | true if and only if the stored table equals the fold of the stored events, and an error exactly if the fold is refused |
| JournalFile.JournalDb.RebuildInPlace | courier_core/projection.py:70-83 | rebuilding restores a valid journal whatever the table held, exactly if the stored events fold; otherwise it reports the refusal and changes nothing |
| JournalFile.JournalDb.Crashed | courier_core/journal.py:218-250 | any committed prefix of the log is again a valid journal, with the table of that moment |
| ControllerLog.TransitionMovesOn | courier_core/state_machine.py:182-325 | attempt, dispatch and worker change only together, and no step leads back to a claimed or leased status of the same dispatch, out of acceptance or out of completion |
| ControllerLog.AppendKeepsFacts | courier_core/controller.py:255-285 | after any append of the controller's shape, every stored event still says something true about its task, dispatches have one owner, and dependencies were created earlier |
| ControllerLog.OpenKeyIsFree | courier_core/controller.py:255-285 | an event whose effect the state leaves open cannot be swallowed as a duplicate or refused as a conflict |
| ControllerLog.ReportIsStored | courier_core/controller.py:378-400 | the report behind a pending or accepted result is found under the key the controller looks up |
| ControllerSteps.DecideEffect | courier_core/controller.py:271-285 | the event built for a pending decision is legal for every reachable pending task, and settles it |
| ControllerSteps.ClaimEffect | courier_core/controller.py:360-376 | the claim event is legal for a queued task with a fitting input, and gives the claimed state |
| ControllerSteps.VerdictEffect | courier_core/controller.py:628-645 | the acceptance or rejection event is legal for every verifying task |
| ControllerSteps.HumanEffect | courier_core/controller.py:548-589 | the human decision event is legal for a blocked task under the stated conditions |
| Controller.Controller.Boot | courier_core/controller.py:162-180 | booting on a log cut after any event gives a valid controller in which every task has the status that finishing its interrupted operation gives, from the fields of its row, with full restart leases |
| Controller.Controller.Recover | courier_core/controller.py:218-232 | from an empty runtime, recovery settles every row, re-leases the active ones with grace, and queues the verifying ones |
| Controller.Controller.RecoverTask | courier_core/controller.py:221-232 | recovery of one task settles it and touches no other row or lease |
| Controller.Controller.Submit | courier_core/controller.py:255-261 | one append through the controller is the journal's append and keeps the durable invariant |
| Controller.Controller.Emit | courier_core/controller.py:255-265 | every event the controller emits about a known task is stored: the log grows by exactly it and the row becomes the intended state |
| Controller.Controller.Decide | courier_core/controller.py:271-285 | journals the decision for a pending failure, which leaves the task settled |
| Controller.Controller.Complete | courier_core/controller.py:267-269 | journals completion of an accepted task |
| Controller.Controller.CreateTask | courier_core/controller.py:308-345 | each refusal and its status; a new task with exactly the given fields if its id is new; otherwise the same task if it was created with this very payload, or a conflict, and nothing changes |
| ControllerSpec.AcceptedMeans | courier_core/controller.py:308-337 | which creation requests are well formed: adapter name, effect class, attempts, time to live, time-out and dependency within their limits |
| ControllerSpec.CheckReason | courier_core/controller.py:120-126 | a reason is accepted exactly if it is not blank and has at most 2000 characters |
| ControllerSpec.CheckHeartbeat | courier_core/controller.py:428-436 | a heartbeat is well formed exactly if it names a worker and at most 256 dispatches by ids of 1 to 200 characters |
| ControllerSpec.CheckResult | courier_core/controller.py:465-489 | a report is well formed exactly if its ids have 1 to 200 characters, it lists at most 1000 artifacts, its outcome is known and its reason has at most 2000 characters |
| Controller.Controller.Claim | courier_core/controller.py:347-376 | a malformed worker id is refused without effect; otherwise a lease goes to the oldest claimable task, with a verified input: every older queued task was failed because its dependency ended without a usable result, or still waits for an open one; without a grant that is so of every queued task, and when nothing is under way none stays queued, so dependencies cannot deadlock |
| Controller.Controller.OldestFirst | courier_core/controller.py:347-400 | when nothing is under way, the dependency of the oldest task left queued has ended |
| Controller.Controller.VerifiedInput | courier_core/controller.py:378-400 | an input handed out is the artifact list of the dependency's accepted report; the task is failed only if its dependency has ended and no such list exists, and left waiting only if the dependency is open |
| ControllerSpec.OneReport | courier_core/controller.py:378-400 | the report behind a result is one event, so a verified result has one artifact list |
| ControllerSpec.OneClaim | courier_core/controller.py:402-406 | the claim behind a dispatch is one event |
| Controller.Controller.NoForwardDependency | courier_core/controller.py:337-341 | in creation order no task comes before a task it depends on |
| Controller.Controller.ClaimOf | courier_core/controller.py:402-406 | finds the claim of a dispatch exactly if the dispatch was ever issued |
| Controller.Controller.Start | courier_core/controller.py:408-426 | the answer in every case, a malformed id first, from the claim that issued the dispatch; granted if and only if the dispatch is leased, to this worker if one is named, and not to be cancelled; only the current claimed dispatch is started, and nothing else changes |
| Controller.Controller.Heartbeat | courier_core/controller.py:428-463 | a malformed request changes nothing; otherwise the worker is told exactly which dispatches are not its own and which are cancelled, its reported leases run for their full time again, and exactly its cancelled unreported dispatches are stopped and their tasks cancelled |
| ControllerSpec.ReportedOutlives | courier_core/controller.py:440-451 | a heartbeat and a later tick together: a reported dispatch is still leased if and only if less than its time to live has passed, a suspension not counted |
| Controller.Controller.Result | courier_core/controller.py:465-516 | the answer in every case, malformed ids, outcomes, too many artifacts and too long reasons first; a repetition is acknowledged exactly if the very report is stored, and another report for the same result is a conflict; a report under the current running dispatch is stored, releases its lease and queues its task; the first late report under its key is stored and counted, and nothing else ever changes |
| Controller.Controller.RequestCancel | courier_core/controller.py:518-546 | the answer to a malformed request, and the answer and every field of the row after a cancellation in every status, cancelled at once exactly where nobody works on the task |
| Controller.Controller.Resolve | courier_core/controller.py:548-589 | a human decision is taken exactly on a blocked task whose attempt it names, with the documented refusals, malformed requests first; every field of the row after it; a repetition is acknowledged exactly if the very decision is stored |
| Controller.Controller.Tick | courier_core/controller.py:592-614 | exactly the leases are expired whose deadline has passed, or had passed at the last tick if the machine was suspended since; the others keep their remaining time; each affected task is blocked, cancelled, failed or queued as its row says; no other row changes |
| Controller.Controller.Expire | courier_core/controller.py:606-614 | expiring one lease releases it, journals expiry and decision, and settles its task |
| ControllerSpec.ExpiredMeans | courier_core/controller.py:271-285 | the row after a lost lease, from the fields of the task |
| Controller.Controller.BeginVerify | courier_core/controller.py:616-630 | takes the first queued task with the stored report of its pending result |
| Controller.Controller.EndVerify | courier_core/controller.py:630-646 | journals the verdict and what follows from it for the task it is about, which is still waiting for it: completed with the result, or blocked, cancelled, failed or queued as reason and row say |
| ControllerSpec.ReportToRow | courier_core/controller.py:630-646 | from report and adapter answer to the row: completed exactly by an explicit acceptance of a reported success, blocked if the words leave the effect open, queued again only if claimed, allowed and without a timeout |
| Recovery.Restart | courier_core/controller.py:218-232 | after a crash at any event the restarted controller is valid, and the interrupted task has the outcome of the uncut operation |
| Recovery.CutCancelRecovers | courier_core/controller.py:530-546 | a cancellation cut between its two events reaches the uncut outcome if and only if the task was queued |
| Recovery.Perform | courier_core/controller.py:308-646 | every operation keeps the controller's invariant and only extends the log |
| Recovery.Crash | courier_core/controller.py:162-232 | any series of crashes, each in the middle of the recovery that the one before it made necessary, ends in a valid controller that has kept the committed events |
| Recovery.RunAll | courier_core/controller.py:162-646 | every run of operations from an empty journal, with crashes in the middle of operations and of the recoveries that follow them, keeps the controller's invariant |
| Recovery.TaskHistoryIsAccepted | courier_core/projection.py:133-174 | in every reachable state, the history theorems apply to each task's events |
| Runtime.DropLease | courier_core/controller.py:606-614 | taking a lease away leaves exactly its own task without one |
| Runtime.Grant | courier_core/controller.py:360-376 | granting a lease to an active task keeps the one-to-one correspondence |
| Runtime.BeginVerification | courier_core/controller.py:616-630 | moving a task from the queue to verification keeps queue and verifications disjoint and exact |
| Runtime.EndVerification | courier_core/controller.py:630-646 | ending a verification leaves exactly its own task unaccounted for |
| RingBuffer.WriteAppends | courier_core/shared_memory_ring.py:121-156 | writing a frame behind the unread bytes, wrapped or not, leaves them as they are and appends the frame |
| RingBuffer.FrameReadBack | courier_core/shared_memory_ring.py:158-166 | bytes written around the end are read back unchanged |
| RingBuffer.FirstFrame | courier_core/shared_memory_ring.py:168-185 | the unread bytes start with the length and the content of the oldest message |
| RingBuffer.SharedRing.constructor | courier_core/shared_memory_ring.py:69-81 | a fresh ring is an empty queue of the stated capacity |
| RingBuffer.SharedRing.HeaderStart | courier_core/shared_memory_ring.py:69-90 | the ring starts with its magic bytes and version, and the data follow 32 bytes of header |
| RingBuffer.SharedRing.Write | courier_core/shared_memory_ring.py:121-156 | a message is accepted if and only if four bytes more than its length fit the free space; then it joins the queue, the sequence grows by one and no unread byte changes; otherwise nothing changes, except that at the last 64-bit sequence number the call fails with the message queued |
| RingBuffer.SharedRing.Read | courier_core/shared_memory_ring.py:168-185 | returns the oldest message, or none exactly if the queue is empty, never corruption |
| RingBuffer.SharedRing.FreePlusUsed | courier_core/shared_memory_ring.py:109-119 | free and used space add up to one less than the capacity |
| RingBuffer.Interleave | courier_core/shared_memory_ring.py:121-185 | any interleaving of writes and reads behaves as a queue: what was read, then what waits, is what entered it, in order, and the sequence counts the entries until it stands at its last 64-bit value |
| Bytes.ValueOfBigEndian | courier_core/shared_memory_ring.py:92-102 | a number that fits its field is read back from its big-endian bytes |
| Bytes.FirstByteWeighsMost | courier_core/shared_memory_ring.py:92-102 | of several bytes the first one weighs most |
| Scheduler.AgingBeatsPriority | courier_core/priority_scheduler.py:133-143 | a task that has waited the threshold and 45 seconds is never ranked below one enqueued 45 seconds later or more, whatever their priorities |
| Scheduler.PriorityDecides | courier_core/priority_scheduler.py:18-24 | of two tasks that have not waited beyond the threshold the one of higher priority, and only that, has the higher score |
| Scheduler.AgingExactly | courier_core/priority_scheduler.py:133-143 | how long a task must have waited to outscore one of higher priority, exactly, for every pair of priorities |
| Scheduler.FirstComeFirstRanked | courier_core/priority_scheduler.py:152-158 | within one priority the earlier enqueued ranks first |
| Scheduler.SortKeeps | courier_core/priority_scheduler.py:152-158 | sorting the queue loses and duplicates nothing and ranks it |
| Scheduler.PriorityScheduler.Enqueue | courier_core/priority_scheduler.py:116-131 | adds an unknown task; a waiting one may only gain priority; a running one is left alone |
| Scheduler.PriorityScheduler.LowestCandidate | courier_core/priority_scheduler.py:170-180 | finds the first of the lowest preemptible tasks not dispatched in this tick |
| Scheduler.PriorityScheduler.Tick | courier_core/priority_scheduler.py:145-198 | at most max_slots dispatches, highest first; no task lost or duplicated; no slot free while a task waits; no waiting task of higher score than a preemptible running one, and none of higher priority among those that have not aged; within a priority nothing is dispatched before what was enqueued earlier; nothing preempted and dispatched in the same tick |
| Scheduler.PriorityScheduler.CompleteTask | courier_core/priority_scheduler.py:200-207 | removes exactly the completed running task and marks it completed |
| Scheduler.PriorityScheduler.CancelTask | courier_core/priority_scheduler.py:209-224 | removes exactly the cancelled task from where it stands and marks it cancelled |
| DeltaPatcher.CreatePatch | courier_core/delta_patcher.py:71-157 | applying the patch to its base gives the target, for every base, target and chunk size of any sign for which the scan ends; copies lie inside the base, are at least a chunk long and right-maximal, no two inserts are adjacent, no inserted position starts an indexed chunk, lengths add up |
| DeltaPatcher.SliceIsStretch | courier_core/delta_patcher.py:187-191 | what a COPY takes from the base, negative and overlong bounds included |
| DeltaPatcher.IndexChunks | courier_core/delta_patcher.py:103-109 | the loop builds the specified index, for every chunk size |
| DeltaPatcher.IndexMeaning | courier_core/delta_patcher.py:103-109 | the index knows exactly the probed chunks, each by the first offset it is probed at |
| DeltaPatcher.ProbesExactly | courier_core/delta_patcher.py:104-107 | the base is probed exactly at the multiples of half a chunk at which a whole chunk fits |
| DeltaPatcher.LongRunIsFound | courier_core/delta_patcher.py:103-127 | wherever the target repeats the base for one and a half chunks, a match is found within half a chunk |
| DeltaPatcher.LongRunsAreCopied | courier_core/delta_patcher.py:103-146 | no INSERT of a created patch writes the first half chunk of such a run |
| DeltaPatcher.ExtendedMatches | courier_core/delta_patcher.py:130-136 | extending a match keeps it one and ends where it cannot grow |
| DeltaPatcher.ApplyPatch | courier_core/delta_patcher.py:159-216 | the replay gives the target or the first applicable refusal: other base, unknown operation, other result |
| DeltaPatcher.SuccessMeansTarget | courier_core/delta_patcher.py:176-206 | whatever has become of the operations, success means the named base and the named target |
| DeltaPatcher.ScanAdvances | courier_core/delta_patcher.py:118-144 | the scan gets ahead at every position of every pair of files if and only if the chunk size is not 0 |
| DeltaPatcher.ScanAlwaysEnds | courier_core/delta_patcher.py:118-144 | the scan ends on every pair of files if and only if the chunk size is not 0 |
| DeltaPatcher.ZeroChunkStalls | courier_core/delta_patcher.py:244 | with chunk size 0, which the command line can assign, the scan stays where it is exactly if the base does not start with the target's next byte |
| DagResolver.Resolve | courier_core/dag_resolver.py:104-146 | resolves if and only if the known dependencies have no cycle and no repetition; then every stage is the sorted list of the items whose longest dependency chain has its index as length and the order runs through all items once; otherwise it names exactly the items that a cycle or repetition blocks |
| DagResolver.StageIsDepth | courier_core/dag_resolver.py:121-136 | an item is completed by stage k exactly if its longest chain of known dependencies has k steps |
| Strings.LeqIsLexicographic | courier_core/dag_resolver.py:124 | the order of the items in a stage is the lexicographic one |
| DagResolver.Verdict | courier_core/dag_resolver.py:138-141 | when no stage is left, everything is completed exactly if there is no cycle and no repetition |
| DagResolver.StuckIsBlocked | courier_core/dag_resolver.py:138-141 | an item left over can be traced back to a cycle or a repeated dependency |
| DagResolver.EntriesCount | courier_core/dag_resolver.py:112-116 | the counter of an item equals the number of its distinct known dependencies if and only if none is repeated |
| DagResolver.RunStage | courier_core/dag_resolver.py:126-136 | one stage queues exactly the items it makes ready, each once |
| DagResolver.RepetitionIsNoCycle | courier_core/dag_resolver.py:112-116 | an acyclic catalogue with a repeated dependency, which is refused |
| Provenance.VerifyIntegrity | courier_core/provenance_graph.py:126-211 | valid if and only if all endpoints exist, no directed cycle exists, every child lists its parent's hash, and every DONE node has a VERIFICATION and a DISPATCH ancestor; missing ends, broken links and unverified DONE nodes are each reported exactly where they are, and at most one cycle, at the first node in insertion order that leads to one |
| Provenance.HasCycle | courier_core/provenance_graph.py:147-157 | the recursive search ends, finds only cycles, and otherwise has left every node it visited after all its children |
| Provenance.FindCycle | courier_core/provenance_graph.py:140-163 | one cycle is reported if and only if there is one, and the node named is the first in insertion order that leads to a cycle |
| Provenance.FirstLiesOnCycle | courier_core/provenance_graph.py:159-163 | the node named lies on a cycle in every insertion order if and only if every node that leads to a cycle lies on one |
| Provenance.ReportedOffCycle | courier_core/provenance_graph.py:159-163 | a graph whose reported node lies on no cycle |
| Provenance.FinishedIsAcyclic | courier_core/provenance_graph.py:147-163 | an order in which every node follows its children rules out every cycle |
| Provenance.SearchBack | courier_core/provenance_graph.py:181-202 | the backward search sees a verification, or a dispatch, exactly if one is an ancestor, with duplicates in the queue and cycles in the graph |
| Provenance.EdgeKeepsAcyclic | courier_core/provenance_graph.py:140-163 | an edge keeps an acyclic graph acyclic if and only if its child is not its parent and does not lead to it |
| Provenance.EdgeKeepsSound | courier_core/provenance_graph.py:126-211 | an edge keeps a sound graph sound if and only if its endpoints exist, the child lists the parent's hash, and the child does not lead to the parent |
| Provenance.FreshNodeKeepsSound | courier_core/provenance_graph.py:126-211 | a new node keeps a sound graph sound if and only if it is not DONE |
| Provenance.ReplacementKeepsSound | courier_core/provenance_graph.py:126-211 | replacing a node keeps a sound graph sound if and only if the new one fits the hash links from its parents and to its children, and every DONE node it is or leads to finds a verification and a dispatch in it or elsewhere |
| Provenance.ProvenanceGraph.AddNode | courier_core/provenance_graph.py:110-111 | a node is added or replaced and the edges stay; acyclicity never changes, and a sound graph stays sound exactly under the conditions for new and for replaced nodes |
| Provenance.ProvenanceGraph.AddEdge | courier_core/provenance_graph.py:116-124 | an edge is added, whatever its endpoints; exactly when an acyclic or sound graph stays so |
| Provenance.ProvenanceGraph.Verify | courier_core/provenance_graph.py:126-211 | the audit of the graph object as it stands |
| Merkle.ProofsVerify | courier_core/result_notary.py:95-132 | every leaf's generated proof is accepted and as long as the tree is high |
| Merkle.HeightIsLog | courier_core/result_notary.py:70-87 | the height is the binary logarithm of the leaf count, rounded up |
| Merkle.AcceptedIsLeaf | courier_core/result_notary.py:121-132 | an accepted proof of the tree's height made of digests is about the leaf its directions point to, given no collision among the texts hashed |
| Merkle.AcceptedIsNode | courier_core/result_notary.py:121-132 | an accepted proof of any length up to the height is about the node its directions point to, on the level as far below the root as the proof is long |
| Merkle.NodesVerify | courier_core/result_notary.py:95-132 | every node of every level has an accepted proof, as long as its level is far from the root |
| Merkle.RootsMeetExactly | courier_core/result_notary.py:70-91 | two lists of digests, empty ones included, share a root if and only if the shallower, padded to a full tree, equals the padded level of the deeper tree at that height; lists of one height if and only if they pad to the same list |
| Merkle.EmptyRootExactly | courier_core/result_notary.py:70-74 | a list of digests has the root of the empty list if and only if it is empty or the single digest of the empty text |
| Merkle.EmptyTreeAccepts | courier_core/result_notary.py:121-132 | against the root of no leaves, exactly the empty proof of the digest of the empty text is accepted |
| Merkle.FullFixesRoot | courier_core/result_notary.py:79-85 | lists of one height that pad to the same list have the same root, with no condition on the hash |
| Merkle.RootBindsLeaves | courier_core/result_notary.py:70-91 | equal roots and equal counts mean equal leaf lists, under the same condition |
| Merkle.PaddingIsInvisible | courier_core/result_notary.py:79-85 | writing out all the padding of a list leaves its root unchanged |
| Merkle.RootFromTheTop | courier_core/result_notary.py:79-91 | the root of a full tree is the hash of the roots of its halves, the left one first |
| Merkle.OtherSplitAccepted | courier_core/result_notary.py:41-42 | without the width, the halves of a hashed text can be divided anywhere |
| Merkle.MerkleTree.BuildTree | courier_core/result_notary.py:70-87 | the loop builds the levels of the tree over the leaves, or the empty root |
| Merkle.MerkleTree.TreeRoot | courier_core/result_notary.py:88-90 | the top level holds the root |
| Merkle.MerkleTree.GenerateProof | courier_core/result_notary.py:95-118 | the loop gives the leaf's proof, or refuses an index out of bounds |
| Merkle.VerifyInclusionProof | courier_core/result_notary.py:121-132 | accepts exactly if the proof leads from the leaf to the root; a malformed direction is refused |
| Replica.ReplicaCoordinator.ProposeMutation | courier_core/replica_coordinator.py:124-169 | commits exactly if a majority is active and, where a list is given, a majority of entries is counted; then the chain grows by one valid entry with the stated number and hashed text, otherwise nothing changes; the acknowledgements come from a quorum of nodes exactly if the repeated and unknown ones can be spared |
| Replica.ReplicaCoordinator.GetDeltaCatchup | courier_core/replica_coordinator.py:171-172 | the entries after a sequence number are a suffix of the log |
| Replica.ReplicaCoordinator.ApplyDeltas | courier_core/replica_coordinator.py:174-194 | absorbs deltas in place, keeps a valid chain also when it refuses one, and reports the count or the refused delta |
| Replica.AbsorbKeepsChain | courier_core/replica_coordinator.py:174-194 | whatever deltas arrive, honest or not, a valid log stays valid and keeps its entries |
| Replica.FollowerIsPrefix | courier_core/replica_coordinator.py:174-194 | under loss, duplication and reordering of a leader's entries a follower stays a prefix of the leader, and refuses only where the leader's fence drops |
| Replica.FollowerStaysPrefix | courier_core/replica_coordinator.py:174-194 | the same over whole runs of batches, refused ones included |
| Replica.CatchUpCompletes | courier_core/replica_coordinator.py:171-194 | full catch-up makes the logs equal if and only if no fence drops in what was missing |
| Replica.BatchCatchesUp | courier_core/replica_coordinator.py:174-194 | a batch of the leader's entries and repeated ones, in any order and number, brings the follower level if and only if it holds everything missing in order and no fence drops in it |
| Replica.OverlapCatchesUp | courier_core/replica_coordinator.py:171-194 | catch-up from a number behind the follower's skips what it has and completes it if and only if no fence drops in what was missing |
| Replica.LastHashFixesLog | courier_core/replica_coordinator.py:139-142 | two valid chains that end in the same commit hash are the same log, in everything that is hashed |
| Replica.ContentInjective | courier_core/replica_coordinator.py:142 | the hashed text determines sequence number, fence, previous hash and payload |
| Replica.QuorumsMeet | courier_core/replica_coordinator.py:116-118 | any two quorums of a cluster share a node |
| Replica.QuorumIsLeast | courier_core/replica_coordinator.py:116-118 | a quorum is the smallest majority of the local node and its peers |
| Replica.CountedIsQuorum | courier_core/replica_coordinator.py:144-153 | a counted list of acknowledgements comes from a quorum of distinct cluster nodes if and only if its repeated and unknown entries are no more than those beyond the quorum; a list of the quorum's length, if and only if it has none |
| Replica.OneVoiceCounted | courier_core/replica_coordinator.py:144-153 | one node that fills a counted list is a quorum if and only if there are no peers |
| Replica.ReplicaCoordinator.AcksMeet | courier_core/replica_coordinator.py:116-153 | two lists of acknowledgements with entries to spare for all repeated and unknown ones have a cluster node in common |
| RateLimiter.RateBound | courier_core/rate_limiter.py:35-61 | in any interval, over any run with a clock that never goes back, at most the capacity plus the rate times its length is taken if no amount is negative; what is taken less what negative amounts give back is bounded so in any run |
| RateLimiter.NeverOverfull | courier_core/rate_limiter.py:35-40 | without negative amounts a bucket never holds more than its capacity, whatever its clock does |
| RateLimiter.NegativeAmountsOverfill | courier_core/rate_limiter.py:132-144 | a full bucket can serve more than its capacity at one instant after an amount if and only if that amount is negative |
| RateLimiter.TokenBucketLimiter.Bounded | courier_core/rate_limiter.py:35-61 | both bounds for the recorded calls of a limiter object, each tier of the multi-tier one included |
| RateLimiter.TokenBucketLimiter.Capped | courier_core/rate_limiter.py:35-40 | a limiter object that has served no negative amount holds at most its capacity |
| RateLimiter.WaitSuffices | courier_core/rate_limiter.py:66-68 | waiting for the deficit at the refill rate is long enough, and no shorter wait is |
| RateLimiter.TokenBucketLimiter.Acquire | courier_core/rate_limiter.py:42-65 | refuses malformed amounts without effect; otherwise takes the amount exactly if the refilled bucket holds it |
| RateLimiter.MultiTierRateLimiter.Acquire | courier_core/rate_limiter.py:132-144 | takes the amount from all tiers if and only if all hold it; a refusal takes from none and refills only the tiers it looked at |
| RateLimiter.SlidingWindowLimiter.AllowRequest | courier_core/rate_limiter.py:100-111 | accepts exactly if fewer than the maximum were accepted in the window that ends now |
| RateLimiter.SlidingWindowLimiter.WindowBound | courier_core/rate_limiter.py:100-111 | the (i + maximum)-th acceptance comes at least a window after the i-th |

## Left out

- SQLite, WAL, triggers, file permissions, process locks, threads and condition variables: an append is one step that commits or changes nothing, and an operation under the lock is one method.
- The degraded and stopping modes, `_inspect_existing`, health and status views, the server and command lines: plumbing around the modelled operations.
- Event ids and their UNIQUE constraint, uuid4 and wall-clock text: stamps are a parameter; a fresh dispatch id is one that no stored claim issued.
- Canonical JSON and SHA-256: a stored payload is its canonical form or any other text with the meaning it decodes to; hashes are function parameters. Payload fields beyond those the protocol reads are not represented.
- Request bodies: unknown fields and values of another JSON type, refused with 400 like the limits on ids, counts and lengths that are modelled.
- Answers carry their status and code, not their body (heartbeat interval, effect keys, messages).
- Verification.RunVerifier: an adapter name that ends in a newline is quoted as it is in a reason, without the escape Python writes.
- Python's Unicode `lower`: modelled for ASCII, which decides the searched keywords alike for ASCII reasons.
- The branches of `_cancel` for a task pending a retry decision and of `_verified_input` for a missing dependency: unreachable by the invariant, so the model has no case for them.
- The order in which `tick` and `heartbeat` walk the leases: arbitrary, and the result is proved for every order.
- `_to_row` and `_from_row` of the task table: rows are task states; their JSON columns are not represented.
- Controller.Controller.BeginVerify: assumes the lock is acquired after the queue entry is taken; a timeout there, which would strand the entry until the next boot, is not modelled.
- Shared memory and concurrent access to the ring: one reader and one writer take turns by whole calls.
- Scheduler.PriorityScheduler.Tick: tasks are values held by the two lists, so aliasing between a caller's task object and the queued one is not represented, nor is the saved state file.
- DeltaPatcher.CreatePatch: inserted bytes are kept as bytes, without their base64 form (section 4 of RFC 4648).
- DeltaPatcher.ApplyPatch: malformed operation fields, and the temporary file with its atomic replacement, are not modelled; a refusal stands for an untouched target.
- DagResolver.Resolve: the files the items are loaded from and the readiness report are not modelled; the order in which an error lists the blocked items is not stated.
- Provenance.HasCycle: the interpreter's recursion limit, which stops the search on very long paths, is not modelled.
- Provenance: node actors, timestamps, relations and the diagram export do not take part in the audit.
- Merkle: hashing of raw items, batch records and their signatures.
- Replica: loading and saving, timestamps, and `resolve_divergence`, a two-way comparison.
- RateLimiter.TokenBucketLimiter.Acquire: one attempt; the sleeping loop of a blocking call is a sequence of attempts of which the last may take, so the bound covers it, but its timing does not appear.
- RateLimiter: real arithmetic instead of floating point.
- Fencing tokens, lock manager, lease sync, event bus, ledgers, caches, quorum verifier, backpressure and the release gates: easier versions of invariants proved here, or decision tables.
