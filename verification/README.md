# TCS: verified models

TCS is a small capability system for guests on seL4: workers that can be started
once and contained for good, an administrator whose signed commands change a
policy under audit, and a serial terminal. Its C code is allocation-free and keeps
explicit state in 64-bit counters. This project models the code in Dafny and
proves what its documentation promises, for all inputs and all runs. The
repository's own exploration of the lifecycle is bounded.

Each source file that changes state in place is a class whose methods are the C
functions, proved to compute functions on values; the theorems are lemmas about
those functions and about whole runs of them.

- **Workers.** `Lifecycle` and `LifecycleRuns` (the two-slot state machine and its
  runs), `Reduction` (sticky inhibit bits sampled from a shared mailbox),
  `Deadline` and `DeadlineRuns` (nonrenewable lifetimes and a fail-closed clock).
  Each layer refines the one below. `LifecycleSupervisor`, `LifecycleBroker` and
  `Containment` are the guests that drive the stack, with the kernel's view of
  which worker may run as a model-only field.
- **Administration.** `Policy`, `AuditServer`, `PolicyServer` (decide, record,
  commit), `AdminReceipt` (which receipts are possible), `Codec` and `Admin`
  (canonical packets and admission), `AdminServer` (the two parties together, with
  replies that may be lost or replaced) and `AdminAudit` (with the audit server
  behind them).
- **Terminal.** `Serial` (the lossy ring), `LineEditor`, `Commands` (decimal
  numbers and the command grammar), `SignedInput` (hex frames and the path of a
  command from operator to administrator), `Console` (what the input makes the
  terminal do), `TerminalText` (what it prints), `Wire` (its calls on record, and the
  chain from the serial line to the administrator) and `TerminalServer` (the output
  buffer and the service loop).

- **Outcomes.** `LifecycleOutcomes`, `DeadlineOutcomes`, `BrokerOutcomes`,
  `ContainmentOutcomes`, `PolicyOutcomes`, `AdminOutcomes` and `InputOutcomes` prove
  what each request is answered with and does, exactly, in every state the layer
  reaches, and what that guarantees to a caller from one request to the next: a worker
  that can be taken through its whole life, a contained one that can always be
  confirmed, a granted number that is honoured, a typed packet that is submitted.

`Words` and `Messages` hold the shared words and protected-call messages.

Runs are sequences of calls chosen by an arbitrary environment. A property of all
runs is a lemma about every such sequence and every position in it.

## Findings

- One observation of the latch performs at most one detector containment, not two:
  a valid model never has two occupied slots (`DeadlineRuns.PollRefines`).
- The internal invalid-state exits of the latch and the deadline owner, and the
  failure branch after a kernel stop in both supervisors, are never taken.
- A contained worker cannot always be drained and then replaced. One that was
  contained before its first call to the broker never is
  (`LifecycleBroker.NeverIntroducedNeverDrained`), and two requests reach that state
  (`LifecycleBroker.StuckReachable`). A contained worker can be retired if and only if
  the supervisor has not failed and the broker was introduced to the worker, which the
  two status replies show (`LifecycleBroker.RetirableExactly`).
- After an uncertain reply the administrator stays busy for good. This is what
  makes execution exactly-once (`AdminServer.UncertainIsFinal`).
- Completion of a signed frame is documented as one-shot until the next begin
  (include/tcs/signed_input.h:10-12). A loss breaks that: it discards the digits and
  the completion, and the next delimiter or Ctrl-C yields a second event, a rejection
  or a cancellation (`SignedInput.LossReopens`). Without a loss, completion is
  one-shot, and no second event ever accepts (`SignedInput.OneShotExactly`). The
  service loop leaves packet mode on the first event, so it never feeds a completed
  frame (`Console.FrameOpen`).

## Model

| member | source | states |
|---|---|---|
| Lifecycle.StepValid | lib/lifecycle.c:54-127 | every event, accepted or refused, keeps the structural validity that `tcs_lc_valid` checks |
| Lifecycle.LifecycleOwner.IsValid | lib/lifecycle.c:3-31 | the counting loop accepts exactly the valid models: at most one occupied slot, counters and confirmations in the shape of each phase, incarnations unique and at most `last` |
| Lifecycle.LifecycleOwner.Apply | lib/lifecycle.c:54-127 | copy, edit and commit compute the transition table: same refusals in the same order, same new state, same value |
| Lifecycle.Permitted | lib/lifecycle.c:39-49 | the caller table grouped by operation is the trust table grouped by caller |
| LifecycleRuns.RunValid | lib/lifecycle.c:54-127 | from the zero state every run of any callers and events stays valid |
| LifecycleRuns.HistoryGenuine | lib/lifecycle.c:54-127 | each remembered RESERVE, CONTAIN, STOPPED or DRAINED really was accepted at that point of the run |
| LifecycleRuns.HistoryExplains | lib/lifecycle.c:71-122 | in every reachable state the phase of a slot is explained by accepted events: confirmations carry its incarnation and the count issued when it was contained |
| LifecycleRuns.ReplacementOrdering | lib/lifecycle.c:71-122 | a second RESERVE is accepted only in the other slot and after the first worker was contained and then confirmed STOPPED by the supervisor and DRAINED by the broker, with its incarnation and final issued count, in either order |
| LifecycleRuns.ReservedOnce | lib/lifecycle.c:72-82 | a slot is reserved at most once in a run |
| LifecycleRuns.TicketConservation | lib/lifecycle.c:92-122 | tickets issued equal accepted BEGINs and equal completed plus outstanding plus abandoned by the drain |
| LifecycleRuns.RunOnward | lib/lifecycle.c:54-127 | over any run phases never go back, incarnations stay put and the incarnation counter never decreases |
| LifecycleRuns.IncarnationsUnique | lib/lifecycle.c:72-82 | the two slots never carry the same incarnation, even at different times |
| LifecycleRuns.OneWorkerAllowed | lib/lifecycle.c:33-37 | at most one slot and incarnation is ever allowed to work |
| LifecycleRuns.ContainedForGood | lib/lifecycle.c:33-37 | a contained incarnation is never allowed again, and the only events naming it that are still accepted are STOPPED and DRAINED for its slot |
| LifecycleRuns.AcceptedDecreases | lib/lifecycle.c:54-127 | every accepted event strictly decreases a natural measure |
| LifecycleRuns.AcceptedBounded | lib/lifecycle.c:54-127 | a run accepts at most 14 + 4 * (2^64 - 1) events |
| LifecycleOutcomes.ReserveOutcome | lib/lifecycle.c:72-82 | selecting a slot is granted, with the next incarnation, exactly when the slot is fresh, no worker is about, incarnations are left and the selection is audited |
| LifecycleOutcomes.StartedOutcome | lib/lifecycle.c:83-86 | a start is confirmed exactly for a starting worker |
| LifecycleOutcomes.ActivateOutcome | lib/lifecycle.c:87-91 | activation is granted exactly for a ready worker and with an audit record; without one it is refused as such and nothing changes |
| LifecycleOutcomes.BeginOutcome | lib/lifecycle.c:92-97 | a ticket is given, one higher than the last, exactly to an active worker without one, while numbers last |
| LifecycleOutcomes.CompleteOutcome | lib/lifecycle.c:98-103 | it is given back exactly by its own number |
| LifecycleOutcomes.ContainOutcome | lib/lifecycle.c:104-109 | containment closes every live slot, audited or not, keeping its ticket |
| LifecycleOutcomes.StoppedOutcome | lib/lifecycle.c:110-122 | a stop is recorded once, for the final ticket count, and retires the slot exactly if it is drained |
| LifecycleOutcomes.DrainedOutcome | lib/lifecycle.c:110-122 | and a drain likewise, giving up the ticket |
| LifecycleOutcomes.StaleOutcome | lib/lifecycle.c:68-69 | any well-formed event for another incarnation is stale |
| LifecycleOutcomes.UnnamedOutcome | lib/lifecycle.c:61-64 | an event other than RESERVE that names no incarnation is invalid |
| LifecycleOutcomes.DeniedOutcome | lib/lifecycle.c:57-60 | a caller is denied exactly when its role does not permit the operation |
| LifecycleOutcomes.InvalidOutcome | lib/lifecycle.c:57-64 | exactly which events are invalid |
| LifecycleOutcomes.AuditNeeded | lib/lifecycle.c:54-127 | no RESERVE or ACTIVATE succeeds without an audit record, a missing one is reported exactly when nothing else is wrong, and no other event looks at it |
| LifecycleOutcomes.ActiveAudited | docs/PROGRESS.md:45 | in every run an active worker has an audited RESERVE and a later audited ACTIVATE |
| LifecycleOutcomes.WorkGateExact | lib/lifecycle.c:33-37 | in every run the work gate is open exactly from activation to containment, for the incarnation reserved |
| Reduction.ContainmentCloses | lib/reduction.c:20-38 | the detector containment of a live slot is always accepted and closes exactly that slot |
| Reduction.PollValid | lib/reduction.c:20-38 | a poll keeps validity, never loses an inhibit bit and never takes the internal invalid-state exit |
| Reduction.ApplyValid | lib/reduction.c:40-50 | an event after its poll keeps validity |
| Reduction.QuietPoll | lib/reduction.c:20-38 | polling an empty sample changes nothing |
| Reduction.PollsCoalesce | lib/reduction.c:20-38 | polling s1 then s2 ends in the state of polling s1 OR s2, for all samples, malformed ones included |
| Reduction.PollsCommute | lib/reduction.c:20-38 | polls commute and are idempotent |
| Reduction.MailboxFaithful | lib/reduction.c:69-79 | for every interleaving of publishers and polls the mailbox is the union of what was published, no input fault arises and after each poll the inhibited bits are all requests published so far |
| Reduction.Mailbox.Publish | lib/reduction.c:69-74 | ORs in the two defined bits only and reports whether anything else was asked |
| Reduction.Mailbox.Sample | lib/reduction.c:76-79 | reads the whole word and clears nothing |
| Reduction.ReductionOwner.IsValid | lib/reduction.c:7-18 | accepts exactly the valid latches |
| Reduction.ReductionOwner.PollOwner | lib/reduction.c:20-38 | the slot loop over a copy computes the poll on masks |
| Reduction.ReductionOwner.ApplyOwner | lib/reduction.c:40-50 | polls first, then applies the event only if the poll allows it |
| Reduction.ReductionOwner.StopMaskOwner | lib/reduction.c:52-60 | the loop collects the slots that need a physical stop; all of them when the state is invalid |
| DeadlineOutcomes.PollOutcome | lib/reduction.c:20-38 | a poll answers MALFORMED exactly for an unknown bit, remembers every bit, and closes exactly the live slots it inhibits |
| DeadlineOutcomes.RdOutcome | lib/reduction.c:40-50 | only RESERVE and ACTIVATE of an inhibited slot are denied; every other event meets the lifecycle rules |
| DeadlineOutcomes.ConfirmationOutcome | lib/reduction.c:40-50 | the missing STOPPED or DRAINED of a contained worker is accepted whatever is inhibited or sampled |
| DeadlineOutcomes.RdGateOutcome | lib/reduction.c:62-67 | the gate of a valid latch is open exactly for the active incarnation |
| Deadline.DlPollValid | lib/deadline.c:16-34 | a poll keeps validity and every end, keeps inhibit bits, and never reports an internal error |
| Deadline.DlApplyValid | lib/deadline.c:36-52 | an event keeps validity |
| Deadline.DeadlineOwner.IsValid | lib/deadline.c:3-14 | accepts exactly the valid owners |
| Deadline.DeadlineOwner.PollOwner | lib/deadline.c:16-34 | the loop over the ends and the nested latch poll compute the poll on values |
| Deadline.DeadlineOwner.ApplyOwner | lib/deadline.c:36-52 | poll, duration check, nested event and end update compute the event on values |
| Deadline.DeadlineOwner.StopMaskOwner | lib/deadline.c:54-57 | the mask of the latch; both slots when the owner is invalid |
| DeadlineRuns.OwnerValid | lib/deadline.c:16-52 | every run of polls and events with any words, readings, callers and durations stays valid |
| DeadlineRuns.PollRefines | lib/deadline.c:16-34 | one observation is at most one accepted detector CONTAIN of the lifecycle table |
| DeadlineRuns.CallRefines | lib/deadline.c:36-52 | one call is at most one CONTAIN and then at most its own event; it is invalid exactly when the duration does not fit the event, denied before the table exactly for RESERVE or ACTIVATE of an inhibited slot, and otherwise answered by the lifecycle |
| DeadlineRuns.LayeredRefinement | lib/deadline.c:16-52 | the lifecycle part of every run is itself a run of `tcs_lc_apply`, at most two events a call |
| DeadlineRuns.StopsOwed | lib/deadline.c:54-57 | in every run the stop mask is exactly the slots whose containment was accepted and whose stop was not yet |
| DeadlineRuns.LongestSteadyIsLongest | lib/deadline.c:16-34 | the number of good readings used below is that of the longest prefix of vouched-for, nondecreasing readings |
| DeadlineRuns.HistoryRemembered | lib/deadline.c:16-34 | exact history: the clock fault is 0 iff all readings were good, the last tick is that of the longest good prefix, and the inhibited slots are those requested, those whose end has been reached, and both after a fault |
| DeadlineRuns.AcceptedInTime | lib/deadline.c:36-52 | STARTED, ACTIVATE, BEGIN and COMPLETE are accepted only with a trusted reading strictly below the end of the slot, and move no end |
| DeadlineRuns.ReservedInTime | lib/deadline.c:36-52 | an accepted RESERVE sets the end of its own slot to tick plus duration |
| DeadlineRuns.LeaseGenuine | lib/deadline.c:36-52 | the recorded lease of a slot is its accepted reservation |
| DeadlineRuns.EndNeverMoves | lib/deadline.c:36-52 | an end, once set, never changes in any run |
| DeadlineRuns.LifetimeBound | lib/deadline.c:36-52 | whenever work or a phase change is accepted, its reservation was accepted earlier, the sampled tick is strictly below that tick plus its duration, and no reading so far was bad |
| DeadlineRuns.AllowedInTime | lib/deadline.c:59-62 | the work gate is open only within the lifetime, under a clock that never failed and without malformed requests |
| DeadlineOutcomes.AcceptedExactly | lib/deadline.c:36-52 | RESERVE, STARTED, ACTIVATE, BEGIN and COMPLETE are accepted exactly when the lifecycle accepts them, the duration fits, the reading is good and before the end, and neither word inhibits the slot; a RESERVE sets its end to tick plus duration |
| DeadlineOutcomes.RetiredExactly | lib/deadline.c:36-52 | in every run, whatever is inhibited, expired or faulted, a contained worker is retired exactly when its stop and its drain have both been reported for its last ticket |
| DeadlineOutcomes.ConfirmationAccepted | lib/deadline.c:36-52 | and each report is answered with the incarnation when it is new |
| DeadlineOutcomes.PollAnswer | lib/deadline.c:16-34 | a poll of a run answers OK exactly when every reading so far was good and no request word so far was malformed |
| DeadlineOutcomes.GateExact | lib/deadline.c:59-62 | in every run the gate is open exactly from activation to containment in the lifecycle events the run amounts to |
| DeadlineOutcomes.FailClosed | lib/deadline.c:16-62 | an invalid owner does nothing, opens no gate and asks for both workers to be stopped |
| LifecycleSupervisor.ContainedExactly | tests/lifecycle/supervisor.c:14-25 | containing a live slot always closes it, stops the thread and records the stop, so the failure branch behind it is never taken |
| LifecycleSupervisor.ServedSound | tests/lifecycle/supervisor.c:34-84 | after every request a worker runs exactly while its slot is starting, ready or active and nothing has failed |
| LifecycleSupervisor.NudgedSound | tests/lifecycle/supervisor.c:34-105 | the same after every fault |
| LifecycleSupervisor.DisturbedSound | tests/lifecycle/supervisor.c:34-105 | and after any sequence of both |
| LifecycleSupervisor.GateOwner.Init | tests/lifecycle/supervisor.c:26-32 | a second initialisation fails and stops both workers |
| LifecycleSupervisor.GateOwner.Contain | tests/lifecycle/supervisor.c:14-25 | event, kernel stop and confirmation in this order give the specified state |
| LifecycleSupervisor.GateOwner.Protected | tests/lifecycle/supervisor.c:34-84 | every request of either channel gives the specified state and reply |
| LifecycleSupervisor.GateOwner.HandleFault | tests/lifecycle/supervisor.c:85-105 | only the one expected fault contains its worker; any other fails the supervisor; no faulted worker is resumed |
| BrokerOutcomes.ReserveServed | tests/lifecycle/supervisor.c:44-57 | the controller reserves a fresh slot when no worker is about; the reply is its incarnation and its thread runs |
| BrokerOutcomes.ActivateServed | tests/lifecycle/supervisor.c:44-57 | and activates exactly a ready one |
| BrokerOutcomes.ContainServed | tests/lifecycle/supervisor.c:44-57 | and contains exactly a live one, whose thread stops |
| BrokerOutcomes.StatusServed | tests/lifecycle/supervisor.c:37-43 | the eighteen words of the status are the failure flag, fault count, last incarnation, both slots and the fault registers |
| BrokerOutcomes.ViewServed | tests/lifecycle/supervisor.c:58-64 | the six words of a view are the slot |
| BrokerOutcomes.EventServed | tests/lifecycle/supervisor.c:71-82 | the broker events meet the lifecycle rules, except that nothing is drained before it is stopped |
| BrokerOutcomes.OtherServed | tests/lifecycle/supervisor.c:34-84 | any other message is invalid on its channel, and nothing is served before the start or after a failure |
| BrokerOutcomes.SyndromeExact | tests/lifecycle/supervisor.c:96-97 | the accepted syndromes are exactly writes with a translation fault of any level |
| BrokerOutcomes.FaultOutcome | tests/lifecycle/supervisor.c:85-105 | the first provoked fault of worker B holding its first ticket contains and stops it and records the registers; every other fault stops both workers for good |
| LifecycleBroker.TicketServed | tests/lifecycle/broker.c:70-82 | what the supervisor does with a BEGIN or COMPLETE and what the broker reads back |
| LifecycleBroker.DrainForwarded | tests/lifecycle/broker.c:36-55 | a drain the broker forwards succeeds for that slot whatever other callers do while it waits, unless they fail the supervisor |
| LifecycleBroker.Agreement | tests/lifecycle/broker.c:5-83 | in every interleaving the broker mirrors incarnation and ticket of each slot exactly while it has not failed, and it fails only if the supervisor has |
| LifecycleBroker.DrainOutcome | tests/lifecycle/broker.c:36-55 | a drain of a known slot is answered OK with its incarnation iff the slot is contained and undrained and the supervisor does not fail meanwhile; then the slot is retired |
| LifecycleBroker.OneWorkerRuns | tests/lifecycle/supervisor.c:14-105 | in every run of the pair a worker runs iff its slot is live and nothing failed, so never both |
| LifecycleBroker.NeverIntroducedNeverDrained | tests/lifecycle/broker.c:36-69 | a limit of the fixture: a worker contained before its first call can never be drained, so its slot never retires |
| LifecycleBroker.StuckReachable | tests/lifecycle/broker.c:36-69 | two controller requests, start and contain worker 0, reach such a slot with neither side failed |
| LifecycleBroker.RetirableExactly | tests/lifecycle/broker.c:36-69 | the exact condition, for every run: a contained slot can be retired by some continuation iff the supervisor has not failed and the broker was introduced to the worker |
| LifecycleBroker.IntroducedShown | tests/lifecycle/broker.c:29-35 | the condition is visible to the controller in the last word of the broker status |
| BrokerOutcomes.HelloOutcome | tests/lifecycle/broker.c:60-69 | while both sides work, a first call of a starting worker is answered with its incarnation and makes it ready; exactly which others are refused |
| BrokerOutcomes.BeginServed | tests/lifecycle/broker.c:70-82 | a ticket is given exactly to the active worker of that incarnation that holds none |
| BrokerOutcomes.CompleteServed | tests/lifecycle/broker.c:70-82 | and taken back exactly by its number |
| BrokerOutcomes.BadRequest | tests/lifecycle/broker.c:70-71 | any other message of a worker is counted and refused |
| BrokerOutcomes.KickOutcome | tests/lifecycle/broker.c:36-44 | a kick is granted exactly for an active worker without a ticket, and changes nothing |
| BrokerOutcomes.DrainServed | tests/lifecycle/broker.c:45-54 | a drain of a contained worker the broker knows gives up its ticket and retires it |
| BrokerOutcomes.StatsOutcome | tests/lifecycle/broker.c:29-35 | the seven words of the broker status |
| BrokerOutcomes.WorkerLife | tests/lifecycle/broker.c:25-83 | from every reachable state with a fresh slot, no other worker and no failure, a worker can be started, introduced, activated, given a ticket, contained and drained, each request granted, and ends retired |
| LifecycleBroker.Desk.CallGate | tests/lifecycle/broker.c:5-11 | any reply but a well-formed result latches failure |
| LifecycleBroker.Desk.ViewSlot | tests/lifecycle/broker.c:12-22 | a view is believed only when it is well-formed and matches the mirror |
| LifecycleBroker.Desk.Protected | tests/lifecycle/broker.c:25-83 | the handler with its nested calls gives the specified state of both sides and the specified reply |
| Containment.RunSafe | tests/containment/supervisor.c:11-77 | in every run with any mailbox contents at each entry, the physical state follows the model and each receipt bit names a recorded stop |
| Containment.OneResume | tests/containment/supervisor.c:41-75 | at most one resume ever happens and at most one worker runs |
| Containment.ReceiptMeansStopped | tests/containment/supervisor.c:11-75 | a receipt bit is permanent and its worker never runs again |
| Containment.ReceiptOnlyByNotification | tests/containment/supervisor.c:11-40 | only a notification adds receipt bits, and exactly those of the live slots this observation inhibits |
| Containment.StopRecorded | tests/containment/supervisor.c:11-32 | the confirmation after a physical stop is always accepted |
| Containment.Keeper.Sync | tests/containment/supervisor.c:11-32 | poll, stop loop, confirmation and receipt give the specified state |
| Containment.Keeper.Protected | tests/containment/supervisor.c:41-75 | every request gives the specified state and reply |
| ContainmentOutcomes.SyncOutcome | tests/containment/supervisor.c:11-32 | each observation closes and stops exactly the live slots asked for, an unknown bit standing for both, and receipts them exactly on a notification |
| ContainmentOutcomes.QuietSync | tests/containment/supervisor.c:11-32 | an empty mailbox changes nothing |
| ContainmentOutcomes.ReserveAnswer | tests/containment/supervisor.c:54-61 | a worker is started exactly when its slot is not inhibited, is fresh and no other is about |
| ContainmentOutcomes.ActivateAnswer | tests/containment/supervisor.c:54-61 | and activated exactly when it is ready and not inhibited |
| ContainmentOutcomes.ReadyAnswer | tests/containment/supervisor.c:62-67 | and made ready exactly when it is starting |
| ContainmentOutcomes.BeginAnswer | tests/containment/supervisor.c:68-72 | and given a ticket exactly when it is active, holds none and names its incarnation |
| ContainmentOutcomes.StatusAnswer | tests/containment/supervisor.c:48-53 | the sixteen words of the status |
| ContainmentOutcomes.ViewAnswer | tests/containment/supervisor.c:62-63 | the six words of a view are the slot |
| ContainmentOutcomes.OtherAnswer | tests/containment/supervisor.c:41-75 | any other message is denied, there is none to drain a worker or confirm its stop, and nothing is served after a failure |
| Policy.SessionIrrevocable | lib/policy.c:20-82 | once a subject has left its session no later CHECK with that generation succeeds, whatever happens and even when the generation is saturated |
| Policy.GoneStays | lib/policy.c:20-69 | no operation undoes the loss of a session |
| Policy.LeavingIsGone | lib/policy.c:20-69 | every way out of a session makes it irrecoverable |
| Policy.DonePresentable | lib/policy.c:20-82 | every operation keeps every subject in a state that can be shown as a valid snapshot |
| Policy.PolicyOwner.Apply | lib/policy.c:20-69 | the edits through the subject pointer compute verdict, new policy and returned generation |
| Policy.PolicyOwner.CompareApply | lib/admin_policy.c:3-13 | only the administrator, and only at the expected generation |
| Policy.PolicyOwner.CommitFrom | lib/policy.c:71-82 | an audit failure blocks what gives authority, never what takes it away |
| PolicyOutcomes.DecisionOutcome | lib/policy.c:20-69 | a success answers with the generation its subject has afterwards, a refusal changes nothing, and no other subject ever moves |
| PolicyOutcomes.GrantOutcome | lib/policy.c:51-61 | a grant opens the next generation unless the subject is quarantined or its generations are used up |
| PolicyOutcomes.GrantRefused | lib/policy.c:46-53 | any other grant is refused, and why |
| PolicyOutcomes.ReductionOutcome | lib/policy.c:30-44 | revocation, quarantine and restoration clear the authority and move the generation on; only a restoration ends a quarantine |
| PolicyOutcomes.ReductionMalformed | lib/policy.c:31-32 | a reduction with anything in its other words is malformed |
| PolicyOutcomes.CheckOutcome | lib/policy.c:46-68 | a check changes nothing and succeeds exactly for the object, the right and the current generation |
| PolicyOutcomes.CallerOutcome | lib/policy.c:23-27 | unknown subjects and operations and the wrong caller are refused |
| PolicyOutcomes.GrantUsable | docs/PROTOCOL.md:17 | the generation a grant returns is accepted by the check of that subject |
| PolicyOutcomes.CompareOutcome | lib/admin_policy.c:3-13 | a conditional command is the plain one at the expected generation, and STALE at any other |
| PolicyOutcomes.StatusOutcome | lib/policy.c:3-13 | storage is told the client authority as it is |
| AdminReceipt.HonestReceiptValid | lib/admin_receipt.c:11-45 | every receipt the policy owner can issue for a valid command is accepted |
| AdminReceipt.ValidReceiptExplained | lib/admin_receipt.c:11-45 | every accepted receipt has a prior state and an audit outcome that produce it |
| AdminReceipt.ReceiptExact | lib/admin_receipt.c:11-45 | the checker accepts a receipt iff the command is executable and some snapshot-valid state of its subject and some audit outcome produce exactly it, saturation included |
| PolicyOutcomes.ExecutionExact | lib/admin_receipt.c:3-10 | the commands that may be executed are exactly those that some policy would carry out |
| AuditServer.Auditor.Protected | servers/audit.c:10-37 | appends whole records in order up to 64, returns the record asked for, and changes nothing otherwise |
| PolicyOutcomes.LogExact | servers/audit.c:10-37 | in every run the log is the first 64 records sent, in order |
| PolicyOutcomes.AuditAnswers | servers/audit.c:10-37 | COUNT answers how many there are, GET the record of that number, and APPEND the number given or that the log is full |
| PolicyOutcomes.AuditRefusal | servers/audit.c:23-26 | every other message is refused and changes nothing |
| PolicyServer.AuditReplay | servers/policy.c:14-52 | replaying the log from the start reproduces every recorded status, the live policy is that replay followed only by reductions, and at most 64 requests ever succeed |
| PolicyServer.LiveAuthorityRecorded | servers/policy.c:31-51 | a subject that is active in the live policy is the same, generation included, in the replay |
| PolicyServer.ReductionsOnlyReduce | lib/policy.c:30-44 | reductions never make or alter an active subject |
| PolicyServer.Server.Protected | servers/policy.c:14-52 | decide on a candidate, record, commit: the specified policy, log and reply |
| PolicyOutcomes.ServedOutcome | servers/policy.c:31-51 | with room in the log a request is decided, recorded and answered; without it the answer is AUDIT_FULL and only revocation and quarantine take effect |
| PolicyOutcomes.CheckAnswer | servers/policy.c:31-51 | in every run with room in the log, a check is answered OK exactly at the generation of the live authority |
| PolicyOutcomes.GrantHonoured | docs/PROTOCOL.md:17 | in every run the number a recorded grant is answered with is accepted by every check of that subject until it is administered again, while the log has room |
| PolicyOutcomes.OtherOutcome | servers/policy.c:14-29 | every other message leaves the site as it is; the status goes to storage alone |
| Codec.WordRoundTrip | lib/admin.c:23-32 | storing and loading a word gives it back |
| Codec.BytesRoundTrip | lib/admin.c:23-32 | loading and storing eight bytes gives them back |
| Codec.UnpackPacked | include/tcs/admin_ipc.h:19-33 | bytes survive the message registers |
| Codec.PackUnpacked | include/tcs/admin_ipc.h:19-33 | and registers survive the bytes |
| Codec.WordLittleEndian | lib/admin.c:23-28 | the lowest byte of a word comes first |
| Codec.Load64 | lib/admin.c:23-28 | the summing loop, OR-ing bytes into disjoint positions in the source, computes the little-endian number |
| Codec.Store64 | lib/admin.c:29-32 | the loop stores its eight digits and leaves the other bytes alone |
| Codec.WordsFromBytes | include/tcs/admin_ipc.h:19-26 | the packing loops compute the words of the bytes, dropping a tail shorter than a word |
| Codec.BytesFromWords | include/tcs/admin_ipc.h:27-33 | the unpacking loops compute the bytes |
| Admin.CanonicalDecodes | lib/admin.c:52-88 | reading the canonical encoding of a command gives its prefix, realm, boot and the command back |
| Admin.DecodedIsCanonical | lib/admin.c:52-88 | a message with the right prefix is the canonical encoding of what it says |
| Admin.AcceptedIsCanonical | lib/admin.c:65-88 | an admitted packet carries the canonical encoding of exactly the admitted command in this realm and boot, a signature over it that verifies, and the next sequence |
| Admin.CanonicalIsAccepted | lib/admin.c:65-88 | every valid, signed command with the next sequence is admitted as it is |
| Admin.Equal | lib/admin.c:6-11 | true iff the two prefixes agree |
| Admin.AnyNonzero | lib/admin.c:12-18 | true iff some byte is not zero |
| Admin.Encode | lib/admin.c:52-63 | writes the canonical encoding iff realm and boot are nonzero and the command is valid, and zeros otherwise |
| Admin.Administrator.Init | lib/admin.c:42-50 | initialises once, and only with nonzero key, realm and boot |
| Admin.Administrator.Admit | lib/admin.c:65-88 | refusals in the order of the source; acceptance consumes the sequence, the last one by a flag |
| Admin.Administrator.Complete | lib/admin.c:90-96 | only the pending sequence can be completed |
| AdminOutcomes.AdmissionOutcome | lib/admin.c:65-88 | the answer to every well-formed packet: busy, used up, wrong realm or boot, wrong sequence, bad signature or accepted, in this order |
| AdminOutcomes.MalformedOutcome | lib/admin.c:73-77 | and every other packet, and no other, is malformed |
| AdminOutcomes.AdmittedOutcome | lib/admin.c:83-87 | a refusal keeps the administrator and hands out no command; an admission takes the sequence, and the last one uses the administrator up |
| AdminOutcomes.CompletionOutcome | lib/admin.c:90-96 | a command is completed exactly by its own sequence |
| AdminOutcomes.PacketLayout | lib/admin.c:52-63 | the fixed layout: domain and version, realm, boot, and six words, each at its offset |
| AdminServer.ReceiptRoundTrip | include/tcs/admin_ipc.h:34-62 | encoding and decoding a receipt loses exactly the two fields every valid receipt leaves at zero |
| AdminServer.ForwardedIsExecuted | include/tcs/admin_server.h:5-24 | a forwarded command is always executed by the policy owner, and completed iff what arrives is a possible receipt for it |
| AdminServer.ExactlyOnce | include/tcs/admin_server.h:5-24 | with replies arbitrarily replaced and any audit outcomes, both sides always agree on the next sequence and exhaustion, and the executed commands are numbered 1, 2, 3, ... and each carries a signature that verifies under the key, realm and boot the administrator was opened with |
| AdminServer.AuthorityIsSigned | include/tcs/admin_server.h:5-24 | in every run an active subject was granted that very generation by an executed command with a signature that verifies under this key for this realm and boot |
| AdminServer.OrdersSubmitted | include/tcs/admin_server.h:14-24 | every executed command, encoded and followed by its signature, is a packet that was submitted |
| AdminServer.UncertainIsFinal | include/tcs/admin_server.h:15-24 | after an uncertain reply nothing is ever executed again |
| AdminServer.HonestCompletes | include/tcs/admin_server.h:5-24 | with an honest reply every admitted command completes at once with the receipt of its execution, which shows the live subject |
| AdminOutcomes.ExecutedOutcome | servers/admin_policy.c:47-56 | a command takes effect exactly at the expected generation, when the plain decision is a success and it is recorded or takes authority away; the receipt says so |
| AdminOutcomes.ExecutionRefused | servers/admin_policy.c:40-43 | a command out of sequence is STALE, an impossible one malformed, and nothing changes |
| AdminOutcomes.OrdinaryOutcome | servers/admin_policy.c:28-36 | a request of storage is decided as it is and answered when recorded |
| AdminOutcomes.SignedGrantHonoured | include/tcs/admin_server.h:5-24 | a correctly signed, recorded grant is answered with a receipt for the next generation, with which the check of that subject then succeeds |
| AdminServer.PolicyHost.RecordDecision | servers/admin_policy.c:8-17 | sends the seven fields of the decision and counts only a well-formed acknowledgement |
| AdminServer.PolicyHost.Protected | servers/admin_policy.c:20-57 | the handler consumes the sequence before deciding, asks for exactly one audit record, and gives the specified state and reply |
| AdminServer.Submission | include/tcs/admin_server.h:5-24 | admit, forward, judge and complete give the specified state of both sides and the specified reply |
| AdminAudit.ArchiveRefines | servers/admin_policy.c:8-17 | with the audit server answering, a run is an office run with those audit outcomes, so every theorem about the office applies |
| AdminAudit.AnsweredExactly | servers/audit.c:25-36 | a decision is acknowledged iff it is appended to the log, and that is iff the log has room |
| AdminAudit.LogBounds | servers/admin_policy.c:20-57 | acknowledged executions and successful checks together never exceed the log, which never exceeds 64 records |
| AdminAudit.AuthorityIsRecorded | servers/admin_policy.c:38-56 | in every run an active subject was granted that generation by a validly signed command whose grant is an acknowledged record of the log |
| Serial.QueueFaithful | lib/serial.c:3-31 | for any interleaving of arrival, overflow, loss and take, the items taken and then those held are the arrivals with some nonempty stretches each replaced by one loss mark, and every loss on the wire lies in such a stretch |
| Serial.TakenContiguous | lib/serial.c:3-31 | items taken without a mark between them arrived next to each other |
| Serial.LosslessExact | lib/serial.c:3-31 | if no loss was reported, taken and held bytes are exactly the arrivals |
| Serial.LossExactly | lib/serial.c:3-31 | a loss is ever reported exactly when the line lost a byte or one arrived with the ring full |
| Serial.KeptUp | lib/serial.c:3-31 | a terminal that keeps up with a sound line gets every byte in order |
| Serial.StreamOutcome | lib/serial.c:3-31 | after a loss as before, a byte joins what is held while there is room, the byte that overflows follows the mark of its own loss, and a take hands over the next byte |
| Serial.Ring.Loss | lib/serial.c:3-9 | drops everything older than the gap and raises the flag |
| Serial.Ring.Receive | lib/serial.c:11-17 | the circular store appends to the queue, and is a loss when full |
| Serial.Ring.Take | lib/serial.c:19-31 | hands over the flag, then the oldest byte, and clears the flag |
| LineEditor.EventExact | lib/terminal.c:11-50 | every event and every accepted text is a function of the items since the previous delimiter or Ctrl-C, with CRLF folding |
| LineEditor.GapSafe | lib/terminal.c:11-50 | for any interleaving, an accepted line is a line of the bytes as they arrived, between the same delimiters, with nothing inside it lost |
| LineEditor.EditedPlain | lib/terminal.c:18-50 | printable bytes typed without editing are the line |
| LineEditor.EchoShowsLine | lib/terminal.c:52-69 | the echo keeps the display equal to the edited line, never shows rejected input, and ends every event on a fresh line |
| InputOutcomes.EditedExactly | lib/terminal.c:35-50 | a line can be trusted exactly when each item is an erasure, or a printable byte that fits in 127 characters |
| InputOutcomes.EraseUndoes | lib/terminal.c:37-41 | erasing takes back the last byte and does nothing to an empty line, whatever follows |
| InputOutcomes.LineEventExact | lib/terminal.c:18-50 | Ctrl-C cancels, Enter accepts exactly a trusted line and rejects any other, and nothing else is an event |
| InputOutcomes.PlainLineReady | lib/terminal.c:18-50 | a printable line of at most 127 bytes is accepted as typed |
| LineEditor.Editor.Discard | lib/terminal.c:11-16 | empties and rejects the line |
| LineEditor.Editor.Feed | lib/terminal.c:18-50 | the edits of the buffer compute the step, and keep it terminated |
| LineEditor.Editor.TerminalInput | lib/terminal.c:52-69 | event and echo of one byte |
| Commands.SpellsUnique | lib/terminal.c:84-130 | the command grammar is unambiguous: every line spells exactly one command |
| Commands.ReadAccepts | lib/terminal.c:114-129 | `read` takes a digit string iff its value is in 1 .. 2^64 - 1 |
| Commands.PrintedReads | lib/terminal.c:114-129 | the generation the terminal prints is the generation `read` takes back |
| InputOutcomes.WordsSpell | lib/terminal.c:105-112 | the one-word commands as typed |
| Commands.Parse | lib/terminal.c:84-130 | the parser returns the command the line spells by the grammar |
| Commands.WordIs | lib/terminal.c:76-82 | true iff the words are equal |
| Commands.ValueOfDecimal | servers/terminal.c:28-37 | a printed number is a digit string without superfluous zeros that denotes the number |
| Commands.DecimalOfValue | tools/operator.c:195-206 | and every such digit string is the printed form of its value |
| Commands.PrintDecimal | servers/terminal.c:28-37 | the digits produced backwards and put out in reverse are the decimal form |
| Commands.Number | tools/operator.c:195-206 | accepts a string iff it is the decimal form of a 64-bit number, and returns that number |
| SignedInput.HexRoundTrip | tools/operator.c:138-143 | reading the printed hex of a packet gives the packet |
| SignedInput.TextRoundTrip | lib/signed_input.c:20-30 | and printing the packet read from 384 digits gives the digits |
| SignedInput.FrameExact | lib/signed_input.c:6-32 | a frame is accepted iff its items are exactly 384 lowercase hex digits and Enter with no loss among them |
| SignedInput.FrameArrived | lib/signed_input.c:6-32 | behind the ring those digits and the Enter arrived next to each other |
| SignedInput.OneShotExactly | include/tcs/signed_input.h:10-12 | the exact condition for one-shot completion: a completed frame yields another event without a new begin iff a loss is reported and a delimiter or Ctrl-C follows it; that event is never an acceptance |
| SignedInput.LossReopens | lib/signed_input.c:4-16 | the case that breaks it: 384 digits and Enter are accepted, a second Enter is ignored, but after a loss it is answered with a rejection |
| InputOutcomes.FrameEventExact | lib/signed_input.c:6-32 | while a frame is open Ctrl-C cancels it, Enter accepts exactly 384 hex digits and rejects anything else, and nothing else is an event |
| InputOutcomes.FrameEchoExact | lib/signed_input.c:6-32 | a frame echoes exactly the digits it takes and the end of its line |
| InputOutcomes.HexValues | tools/operator.c:138-143 | the hex digits in order of value |
| SignedInput.PipelineRecovers | lib/signed_input.c:6-39 | every valid signed command, encoded, printed in hex, typed, packed into 24 words and unpacked, is admitted as the very command |
| SignedInput.PrintHex | tools/operator.c:138-143 | the loop prints the hex digits and the terminator |
| SignedInput.SignedCommand | lib/signed_input.c:33-39 | the fields of the packet at their offsets |
| SignedInput.Reader.Begin | lib/signed_input.c:2-3 | an empty frame that remembers the carriage return |
| SignedInput.Reader.Discard | lib/signed_input.c:4-5 | an empty, rejected frame |
| SignedInput.Reader.Feed | lib/signed_input.c:6-32 | event, echo and new frame of one byte; the packet array always holds the digits so far |
| Console.ActionsWarranted | servers/terminal.c:153-203 | each input item causes at most one action; a command runs only for a trusted line, a packet is submitted only for the last 385 items being its digits and Enter, cancellations need Ctrl-C and refusals Enter, and a read-only terminal never submits |
| Console.FrameOpen | servers/terminal.c:153-203 | while packet mode lasts the frame is not completed, so the service loop never feeds a completed one |
| InputOutcomes.LineOutcome | servers/terminal.c:153-203 | outside packet mode each item causes exactly the action of its event: cancellation, refusal, the command itself, or the opening of a packet by a signed `submit` |
| InputOutcomes.FrameOutcome | servers/terminal.c:153-203 | in packet mode Ctrl-C cancels, Enter submits exactly the 384 digits typed or refuses the frame, and each ends the mode |
| InputOutcomes.TypedLine | servers/terminal.c:153-203 | a printable line typed at the start of a line, and Enter, is carried out |
| InputOutcomes.TypedFrame | servers/terminal.c:153-203 | 384 digits typed into an opened packet, and Enter, are submitted |
| Console.RunArrived | servers/terminal.c:153-203 | end to end behind the ring: a command that runs is a line of the bytes as they arrived |
| Console.SubmitArrived | servers/terminal.c:153-203 | and a submitted packet is a frame of the bytes as they arrived |
| Wire.HonestRead | servers/serial.c:75-87 | the terminal accepts every honest read reply and takes from it exactly what the ring delivered |
| Wire.HeardIsTaken | servers/serial.c:75-87 | when the driver answers each read by a take, the items the terminal reads are exactly those taken from the ring |
| InputOutcomes.RunCalls | servers/terminal.c:62-124 | a line makes exactly the call that what it spells calls for |
| InputOutcomes.TypedRead | servers/terminal.c:107-120 | `read` and a printed generation, typed, asks the client to read with that generation |
| InputOutcomes.TypedPacket | servers/terminal.c:127-151 | `submit` and the printed packet, typed, submits that packet once |
| InputOutcomes.TypedPacketSubmitted | servers/terminal.c:127-151 | from the keyboard to the administrator: when nothing is lost and the terminal has acted on all that arrived, the packet typed has been submitted exactly once |
| TerminalText.SnapshotRoundTrip | include/tcs/ipc.h:45-56 | a status sent is the status read |
| TerminalText.SnapshotReadExactly | include/tcs/ipc.h:58-73 | and nothing else reads as a status |
| TerminalText.ReadTextReads | servers/terminal.c:107-120 | the line printed for a read determines whether it was granted, and the number |
| TerminalText.ReceiptTextReads | servers/terminal.c:134-137 | the line printed for a receipt determines every number in it |
| TerminalText.SubmitOutcome | servers/terminal.c:129-147 | a possible receipt of the command prints as its outcome, a refusal with its number, and uncertainty as such |
| Wire.PacketArrived | servers/terminal.c:127-151 | then every packet submitted to the administrator is one whose 384 printed digits and Enter arrived next to each other |
| Wire.ReadArrived | servers/terminal.c:107-120 | and every generation the client is asked to read with was typed in a `read` line that arrived whole |
| Wire.AdmittedWasTyped | include/tcs/admin_server.h:5-24 | a command the administrator admits was typed in one piece as its printed canonical encoding and signature |
| Wire.AuthorityWasTyped | include/tcs/admin_server.h:5-24 | from live authority back to the keyboard: an active subject was granted that generation by a signed command whose packet arrived in one piece |
| TerminalServer.Terminal.Append | servers/terminal.c:20-26 | appends what fits; overflow is a failure |
| TerminalServer.Terminal.Decimal | servers/terminal.c:28-37 | appends the decimal form; where it does not fit, what fits of it, and fails |
| TerminalServer.Terminal.Flush | servers/terminal.c:39-60 | sends the next at most 32 bytes and counts as transmitted exactly what the driver took |
| TerminalServer.Terminal.Execute | servers/terminal.c:62-124 | the call made and the text printed for the line, with the prompt |
| TerminalServer.Terminal.FinishPacket | servers/terminal.c:127-151 | the packet submitted and the text printed for the outcome; back to a fresh line |
| TerminalServer.Terminal.Act | servers/terminal.c:159-173 | acts on the one pending event, with everything echoed so far already sent and the buffer empty |
| TerminalServer.Terminal.ReadInput | servers/terminal.c:174-199 | sends exactly one read request, takes the loss and the byte of a well-formed reply, echoes them, and fails on any other reply |
| TerminalServer.Terminal.Round | servers/terminal.c:157-200 | a round acts on the pending event before any further input is read; a round that lets the loop go on has taken input or acted |
| TerminalServer.Terminal.Service | servers/terminal.c:153-203 | keeps, under any replies: the transmitted text is what the driver accepted and a prefix of the printed text; the printed text is the banner and the story of the turns taken; items, actions and calls are those on record and in order; the terminal has stopped, for good, iff a driver reply on record is malformed, so the buffer never overflows. Returns only when output waits for the driver, input has run out, or after 32 rounds of work |
| TerminalServer.Terminal.Init | servers/terminal.c:205-213 | the banner comes first and fits |
| TerminalServer.SubmissionsArrived | servers/terminal.c:127-151 | at any time, for a driver that answers from its ring, each packet the terminal has submitted arrived as its digits and Enter without a gap |
| TerminalServer.ReadsArrived | servers/terminal.c:107-120 | and each read it has asked for was typed in a line that arrived whole |

## Left out

- LifecycleBroker.Agreement: the supervisor's replies reach the broker unchanged;
  corrupted replies are only covered by `CallGate` and `ViewSlot`, which latch
  failure on them.
- Reduction.MailboxFaithful: publish and sample are atomic steps; the C11 memory
  order behind them is not modelled.
- DeadlineRuns.HistoryRemembered: masks are sets of bit positions, so their width
  plays no part; a clock that stands still is indistinguishable from a good one.
- AdminReceipt.ReceiptExact: prior states are all snapshot-valid ones, including
  some that no run reaches, such as quarantined at generation 0.
- Null pointers: the checks for them have no counterpart, since references in the
  model are never null.
- Ed25519 and BLAKE2b: signature verification is an uninterpreted predicate over
  key, message and signature (section 5.1.7 of RFC 8032).
- Struct padding and the unused tail of C arrays beyond what the code itself
  defines.
- The boot and launch decoders (lib/boot.c, lib/launch.c): fixed-format scans of the
  same kind as the codec.
- servers/serial.c: UART registers and interrupts; only its read reply appears.
- The controllers and workers of the lifecycle and containment fixtures: scripted
  callers. Their calls are arbitrary messages here, and a worker notification has
  no effect on the modelled state.
- servers/client.c, servers/storage.c and servers/console.c: forwarding code; their
  replies are arbitrary.
- Files, permissions, key handling and the command table of tools/operator.c: POSIX
  input and output around `hex` and `number`.
- A kernel stop that fails: the kernel calls return only on success.
- Real time, scheduling and liveness: the repository makes no such claims.
