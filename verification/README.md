# Verified core of Agora

Agora lets several coding agents talk to each other. A *pump* delivers inbox messages to an agent through a *driver* and
keeps a *cursor* of what was delivered; a daemon admits waiting jobs; clients speak framed JSON over a socket; messages
are signed and encrypted over a canonical byte encoding. The older TypeScript server in `legacy/` rate-limits tools,
installs hooks into settings files, diffs configuration trees, tallies nickname votes and migrates its SQLite schema.

This project models those parts in Dafny and proves what they promise. Concurrent parts are transition systems: a
`State`, an `Event`, `Enabled` and `Apply`, and theorems about every run. Code that works in place is a class or a
method with loops, proved against the specification functions those theorems are about.

## What is proved

**Delivery.** `Inbox`, `Pump`, `PumpRuns`, `PumpLife`, `PumpDrain`, `PumpResets`, `PumpTask`, `SessionFile`: the pump
against every other writer of the cursor. A commit moves the cursor past a message only if the message was in the batch
just accepted or was refused in each of the last five offers, exactly when no unacked message lies between the cursor on
disk and the floor the evidence was gathered above. Only a cursor reset breaks that: `session_start` sets the cursor to
0 on `compact` and `clear`, and a commit that was under way writes the larger number back, and a refusal count keyed on
the last number of a batch survives the reset. `PumpResets` builds both runs from every start. `PumpLife` reads off the
events of a run where the pump is, what its cursor, inbox and pauses are, and that it stops only at a shutdown, a fourth
failed write or an unshowable batch; `PumpDrain` that every run left alone drains its inbox, in one offer per message
when the driver accepts and five when it refuses. `AcpDriver`, `AcpRuns`, `AcpSession`, `Bridge` and `BridgeRuns` carry
the result through the ACP driver to the agent's turn: an open session drops nothing, and a waiting batch is a few steps
from the agent and back.

**Admission.** `AdmissionWake`: the loop, the writer thread and the bounded event bus interleaved; while the loop sleeps
its snapshot has every announced commit, or a retry is due, and its timer is armed exactly if its last pass asked for it
or failed. `AdmissionLoop`: a job left waiting in vain is looked at again. `AdmissionPass`, `AdmissionRuns`,
`AdmissionDaemon`, `AdmissionBus`: what a pass changes, and that the loop wakes itself at most once more than it has
waiting jobs. A job that ends while it is started can also leave a kick permit, so kicks can cause as many passes again.

**Framing.** `LineReader`: for every chunking of every stream the capped reader reports its newline split. `RpcPending`,
`RpcHistory`: no request is lost or resolved twice, and what each is told is exactly what the events of the run say, the
answer that found it in the table above all. `Frames`, `SocketClient`, `SocketStream`: the client reads its socket byte
by byte, and a deadline or a dropped call can strike after any byte; a client that still takes calls is between two
frames and has read one answer per request, and a subscription loses no event. `SocketReplies`: whose answer a reply is.
Request ids stop at 2^64 - 1, so a reply is known to be the request's own if and only if no earlier request had its id;
a daemon that answers no request twice is matched right there too.

**Limits and encodings.** `RateLimit`: restarts never gain tokens, relative to a bucket that never restarted, and grants
are bounded in every interval, by a bound that is reached; with lost audit rows the bound fails. `Canonical`: injective
exactly with the NUL-free domains and 64-bit lengths the collisions show to be needed. `JsonText`, `StructuralDiff`,
`DiffPatch`, `DiffOutput`: applying a diff gives the new tree if and only if no key is mistaken for a property every
JavaScript object inherits and no overflowed number (`1e400` reads as Infinity and prints as `null`) is compared with
another value that prints alike. `HookTree`, `HookLaws`, `HookCounts`, `HookInstaller`: removing undoes installing if
and only if installing overwrote no `null`. `NicknameTally`: the tally finds the one nickname the target and somebody
else last voted for.

**Whole-run state machines.** `Migrations`, `MigrationRuns`, `MigrationHistory`: any number of migrators and writers;
the message table is what the writers' events say, whatever the migrators do. `CardLifecycle`: every run of accepted
moves. Promotion from the backlog asks for a supervisor, but a worker can block the card and unblock it into `ready`.

`Seqs`, `Numbers`, `Options` and `Bytes` hold shared definitions.

## Model

| member | source | states |
|---|---|---|
| Inbox.FreshSpec | crates/agora-bridge/src/pump.rs:378-382 | selection keeps exactly the integer-numbered messages above the cursor, ascending, equal numbers in their order |
| Inbox.FreshOfPermutation | crates/agora-bridge/src/pump.rs:378-382 | whatever order an inbox arrives in, what is offered is the ascending list of what it holds above the cursor |
| Inbox.SortSpec | crates/agora-bridge/src/pump.rs:378-382 | the sort is ascending, a permutation and stable |
| Inbox.SelectFresh | crates/agora-bridge/src/pump.rs:378-382 | retain and sort in place compute that selection |
| Pump.StepKeeps | crates/agora-bridge/src/pump.rs:158-291 | every step of the pump, the hooks, the store and the driver keeps the batch gapless above its floor and the refusal count true |
| Pump.InvAlong | crates/agora-bridge/src/pump.rs:158-291 | so it holds in every state of every run |
| PumpRuns.CursorFallsOnlyOnReset | crates/agora-bridge/src/pump.rs:437-457 | no step but a reset lowers the cursor |
| PumpRuns.CursorNeverFalls | crates/agora-client/src/session_state.rs:158-182 | between two resets the cursor never decreases, whoever writes it |
| PumpRuns.CountedIsHistory | crates/agora-bridge/src/pump.rs:407-423 | the refusals counted are the latest answers of the driver, in order |
| PumpRuns.PassedIsHandled | crates/agora-bridge/src/pump.rs:226-290 | a passed message was accepted or refused five times exactly when it lies above the floor of the evidence |
| PumpRuns.CommitPassesOnlyHandled | crates/agora-bridge/src/pump.rs:172-290 | a commit passes only handled messages if and only if no unacked message lies between cursor and floor; without a reset none does |
| PumpRuns.CommittedIsNeverOfferedAgain | crates/agora-bridge/src/pump.rs:172-290 | a message of a committed batch is not offered again before the next reset |
| PumpRuns.DeliveredIsNotOffered | crates/agora-bridge/src/pump.rs:209-226 | a message the hooks delivered before the second cursor read is not offered |
| PumpLife.StopsOnlyThen | crates/agora-bridge/src/pump.rs:158-290 | over every run the pump stops exactly at a shutdown, at the fourth failed write of one commit, or at a selection whose renderer shows nothing or more than was selected |
| PumpLife.StoppedStays | crates/agora-bridge/src/pump.rs:158-290 | and then never moves again |
| PumpLife.NextAwait | crates/agora-bridge/src/pump.rs:172-290 | where each of its events leads: after a commit, accepted or skipped, the loop is back at its top |
| PumpLife.NeverStuck | crates/agora-bridge/src/pump.rs:172-290 | every outcome is possible at every await, and a shutdown at all of them but a commit |
| PumpLife.FetchIsLowestFifty | crates/agora-bridge/src/pump.rs:186-208 | a fetch answers with the fifty lowest-numbered messages above its cursor, or all |
| PumpLife.OfferIs | crates/agora-bridge/src/pump.rs:209-240 | an offer is the shown prefix of what is fresh, with the text of all of it |
| PumpLife.CursorIsLargestWritten | crates/agora-bridge/src/pump.rs:437-457 | between resets the cursor is exactly the largest number anyone wrote, and a reset makes it 0 |
| PumpLife.InboxIsUnacked | crates/agora-bridge/src/pump.rs:186-208 | a message is fetchable exactly from its arrival until it is acked |
| PumpLife.PausesAlong | crates/agora-bridge/src/pump.rs:426-433 | the pauses double from 1 to 30 s and from 5 to 300 s with each miss in a row, and start again after a success |
| PumpDrain.AtMostFiveOffersEach | crates/agora-bridge/src/pump.rs:226-286 | left alone with any driver, at most five offers per unread message in every run |
| PumpDrain.SelectsAlong | crates/agora-bridge/src/pump.rs:209-286 | in every such run, while anything is unread every round that selects makes an offer and only an answer ends it |
| PumpDrain.EveryRunDrains | crates/agora-bridge/src/pump.rs:226-286 | in every such run, once more than five offers per unread message were made, nothing is unread |
| PumpDrain.NeverStops | crates/agora-bridge/src/pump.rs:158-290 | in every such run whose commits do not fail four times in a row, the pump goes on |
| PumpDrain.EveryAcceptingRunDrains | crates/agora-bridge/src/pump.rs:287-290 | no more batches are accepted than messages were unread; if none is refused, once more rounds than that selected, nothing is unread |
| PumpDrain.AcceptedInboxDrains | crates/agora-bridge/src/pump.rs:287-290 | from every settled start, a driver that accepts drains the inbox in at most one offer per message, and the pump is back at its top |
| PumpDrain.RefusedInboxDrains | crates/agora-bridge/src/pump.rs:407-423 | such runs exist: from every settled start one drains the inbox within the bound |
| PumpDrain.Round | crates/agora-bridge/src/pump.rs:172-286 | one round offers the shown prefix of the page and is refused |
| PumpResets.AcceptUndoesReset | crates/agora-hooks/src/session_start.rs:45-53 | from every start, a reset during an offer is undone by the accepting commit, past messages nobody handled |
| PumpResets.ResetSharesRefusals | crates/agora-bridge/src/pump.rs:413-423 | from every start where the batch keeps its last number, a reset lets four old refusals skip messages never refused |
| PumpTask.Refusals.Refuse | crates/agora-bridge/src/pump.rs:407-423 | counts refusals in a row of one batch end |
| PumpTask.Task.ReadCursor | crates/agora-bridge/src/pump.rs:172-186 | takes the step of the transition system |
| PumpTask.Task.FetchFails | crates/agora-bridge/src/pump.rs:186-208 | takes the step of the transition system |
| PumpTask.Task.FetchAnswers | crates/agora-bridge/src/pump.rs:186-208 | takes the step of the transition system |
| PumpTask.Task.Select | crates/agora-bridge/src/pump.rs:209-240 | takes the step of the transition system, with the selection computed in place |
| PumpTask.Task.Answered | crates/agora-bridge/src/pump.rs:240-286 | takes the accepting or refusing step of the transition system |
| PumpTask.Task.CommitAttempt | crates/agora-bridge/src/pump.rs:437-457 | takes the writing or failing step: back to the top after a write, stopped after the fourth failure |
| PumpTask.HookTryAdvance | crates/agora-client/src/session_state.rs:158-182 | a hook that advances the cursor is the HookAdvance step the loop sees |
| PumpTask.HookRaise | crates/agora-bridge/src/pump.rs:451-457 | a hook that delivers under the lock is the HookAdvance step |
| PumpTask.HookSessionStart | crates/agora-hooks/src/session_start.rs:45-53 | a session start is the HookReset step on compact and clear, and no step otherwise |
| SessionFile.Session.TryAdvance | crates/agora-client/src/session_state.rs:158-182 | never waits, never lowers the cursor, and says whether it moved it |
| SessionFile.Session.Raise | crates/agora-bridge/src/pump.rs:451-457 | the cursor becomes the larger of the two, or stays when the save fails |
| SessionFile.Session.SessionStart | crates/agora-hooks/src/session_start.rs:45-53 | resets the cursor on compact and clear only |
| AcpDriver.StepKeeps | crates/agora-bridge/src/acp.rs:247-351 | every step keeps one prompt in flight, batches equal to the join, sum and maximum of their deliveries, and one fate per delivery |
| AcpDriver.InvAlong | crates/agora-bridge/src/acp.rs:247-351 | so it holds in every state of every run |
| AcpDriver.MergeFaithful | crates/agora-bridge/src/acp.rs:203-246 | merging a delivery keeps the batch the ordered join, sum and maximum |
| AcpDriver.JoinedCarries | crates/agora-bridge/src/acp.rs:230-246 | every delivery's text occurs in the joined prompt |
| AcpDriver.TrueAnswerWasDelivered | crates/agora-bridge/src/acp.rs:321-351 | an answer of true comes from an ended turn that carried the text |
| AcpDriver.DriverGuarantees | crates/agora-bridge/src/acp.rs:203-351 | at most one prompt runs, a queued batch waits for a prompt, every delivery is in exactly one of four places |
| AcpDriver.AnswersAreFinal | crates/agora-bridge/src/acp.rs:321-351 | an answer never changes |
| AcpRuns.FateMoves | crates/agora-bridge/src/acp.rs:247-351 | over every run each event moves each delivery just so: a turn answers what it carried, the next prompt carries what was queued, only the end of the session loses anything |
| AcpRuns.ReceivedIsSubmitted | crates/agora-bridge/src/acp.rs:256-266 | what was received is what was submitted, in order |
| AcpRuns.PromptComesAndGoes | crates/agora-bridge/src/acp.rs:256-303 | a prompt is launched exactly by a delivery to an idle session and by the end of a prompt with a batch queued |
| AcpRuns.LostOnlyAtTheEnd | crates/agora-bridge/src/acp.rs:304-318 | a reply is dropped only after a shutdown or the agent closing |
| AcpRuns.OpenLosesNothing | crates/agora-bridge/src/acp.rs:247-351 | while the session is open nothing is dropped: every delivery is in flight, queued, or answered by a turn that carried it |
| AcpRuns.AnswerIsNear | crates/agora-bridge/src/acp.rs:288-351 | every delivery is at most three steps from the answer its turn gives |
| AcpSession.Session.Submit | crates/agora-bridge/src/acp.rs:256-266 | launches or queues as the transition system says |
| AcpSession.Session.RunPrompt | crates/agora-bridge/src/acp.rs:321-351 | answers every reply of the batch with the turn's outcome |
| AcpSession.Session.FinishPrompt | crates/agora-bridge/src/acp.rs:288-303 | sends the queued batch as the next prompt, as the transition system says |
| AcpSession.Session.Shutdown | crates/agora-bridge/src/acp.rs:304-318 | aborts the prompt and drops the replies not yet sent |
| Bridge.PumpHalfRuns | crates/agora-bridge/src/pump.rs:235-290 | the pump's half of a composed run is a run of the pump |
| Bridge.StepKeeps | crates/agora-bridge/src/acp.rs:203-351 | every step keeps the delivery in the driver equal to the pump's offer |
| Bridge.PassedHasEvidence | crates/agora-bridge/src/acp.rs:203-351 | a passed message was rendered in an ended turn, or refused five times, exactly when it lies above the floor of the evidence |
| Bridge.CursorPassesOnlyTaken | crates/agora-bridge/src/pump.rs:235-290 | pump and driver composed: every passed message has such evidence if and only if none lies at or below the floor; without a reset none does |
| BridgeRuns.DriverHalfRuns | crates/agora-bridge/src/acp.rs:203-351 | the driver's half of a composed run is a run of the driver |
| BridgeRuns.HearsTheTurn | crates/agora-bridge/src/pump.rs:240-262 | over every run an offer is accepted only after a turn that carried its text ended, and refused only if its delivery was dropped, never given, or went into a failed turn |
| BridgeRuns.HandedOverOnce | crates/agora-bridge/src/pump.rs:235-262 | an offer is handed over once and stays with the driver until it is heard |
| BridgeRuns.OfferIsHeard | crates/agora-bridge/src/pump.rs:235-262 | every offer can be heard within five steps, and as the agent's turn ends |
| BridgeRuns.BatchGetsThrough | crates/agora-bridge/src/pump.rs:172-290 | with unread messages and an open driver, nine steps put the next batch in an ended turn, the cursor past it and the pump back at its top |
| AdmissionWake.StepWarned | crates/agora-daemon/src/admission.rs:49-80 | every step of loop, writer and bus keeps: reads see what was announced, or the loop will hear of it |
| AdmissionWake.InvAlong | crates/agora-daemon/src/admission.rs:49-80 | so it holds in every state of every run |
| AdmissionWake.NoLostWakeup | crates/agora-daemon/src/admission.rs:398-423 | asleep with nothing relevant queued, all six reads of the last snapshot saw every announced commit, or a retry is due |
| AdmissionWake.RepliedIsCovered | crates/agora-daemon/src/actor.rs:58-85 | once the writer has replied, that holds of every commit with a relevant event |
| AdmissionWake.ListensUntilAwake | crates/agora-daemon/src/admission.rs:410-423 | a blocked loop with a warning, a kick or a wake-up reaches its next pass by its own steps, at most one more than it has queued events |
| AdmissionWake.MissedWakesUp | crates/agora-daemon/src/admission.rs:49-80 | so does every sleeping loop that missed an announced commit |
| AdmissionWake.PassSeesDrained | crates/agora-daemon/src/admission.rs:58-62 | draining before reading loses nothing: a pass sees every commit made before it began to drain |
| AdmissionWake.TimerIsArmed | crates/agora-daemon/src/admission.rs:62-78 | from the end of a pass until the loop leaves its wait, its timer is armed exactly if the pass asked for a wake-up or failed |
| AdmissionWake.NextPhase | crates/agora-daemon/src/admission.rs:58-80 | each event comes at its own point of the loop and takes it to the next |
| AdmissionWake.NeverStuck | crates/agora-daemon/src/admission.rs:58-80 | the loop and the writer can always go on |
| AdmissionWake.KickIsReal | crates/agora-daemon/src/admission.rs:69-72 | a kick is heard only if one was given since the last one heard |
| AdmissionWake.LagIsOverflow | crates/agora-daemon/src/admission.rs:398-423 | the receiver is marked lagged exactly from an overflow until it is told |
| AdmissionWake.LagIsReal | crates/agora-daemon/src/admission.rs:398-423 | and it is told of a lag only then |
| AdmissionWake.PublishedInOrder | crates/agora-daemon/src/actor.rs:58-85 | the receiver and the writer hold the newest published events, in the order of the commits, none twice |
| AdmissionWake.NothingVanishes | crates/agora-daemon/src/admission.rs:398-423 | an event leaves the receiver only by being taken, drained, or pushed out with a lag |
| AdmissionLoop.VainPassIsLookedAtAgain | crates/agora-daemon/src/admission.rs:49-80 | a pass that left a job waiting in vain arms the timer for at most 2000 ms, and a few of the loop's own steps lead to its next pass |
| AdmissionLoop.KickIsHeard | crates/agora-daemon/src/admission.rs:69-72 | a kick not yet heard leads a blocked loop to its next pass |
| AdmissionBus.Receiver.DrainQueued | crates/agora-daemon/src/admission.rs:398-407 | empties the receiver and says whether the bus is open |
| AdmissionBus.Receiver.RelevantEvent | crates/agora-daemon/src/admission.rs:410-423 | wakes exactly for a lag or a relevant event and takes nothing after it |
| AdmissionPass.EndSpec | crates/agora-daemon/src/admission.rs:267-300 | a second write is made exactly for a job with a card whose first write the store refused, and the job leaves the waiting set exactly when the last write said so |
| AdmissionPass.StartSpec | crates/agora-daemon/src/admission.rs:121-134 | a start is lost exactly if its launch was refused and the job waits on; a launch passes on its events and kick |
| AdmissionPass.FailAllReports | crates/agora-daemon/src/admission.rs:117-120 | the pass notes a failure exactly when some job it was to fail was not ended |
| AdmissionPass.StartAllReports | crates/agora-daemon/src/admission.rs:121-134 | the second loop notes a failure exactly when a refused start could not be ended |
| AdmissionPass.VainPassReports | crates/agora-daemon/src/admission.rs:117-134 | a job the pass tried to fail or to start in vain, and that still waits, makes it note a failure |
| AdmissionPass.PassSteps | crates/agora-daemon/src/admission.rs:83-151 | a pass queues an event exactly when it takes a job out of waiting, for any decision |
| AdmissionPass.WakeSpec | crates/agora-daemon/src/admission.rs:369-376 | the wake-up is the earliest asked for, and at most 2000 ms away after a failure or a machine gate |
| AdmissionRuns.TurnSpends | crates/agora-daemon/src/admission.rs:49-80 | each event pass and each kick pass uses up a waiting job or what caused it |
| AdmissionRuns.SelfWakesAreBounded | crates/agora-daemon/src/admission.rs:49-80 | over every run with nothing outside, event and kick passes are paid for by waiting jobs |
| AdmissionRuns.EventPassesAreBounded | crates/agora-daemon/src/admission.rs:117-150 | at most waiting + 1 event passes, and 2 waiting + 2 with kicks |
| AdmissionRuns.BoundIsReached | crates/agora-daemon/src/admission.rs:117-150 | from every start some run makes exactly waiting + 1 event passes |
| AdmissionDaemon.SinceIsLastUpdate | crates/agora-daemon/src/admission.rs:105-114 | a held-since record is what the last update for the job says, and what it was without one |
| AdmissionDaemon.Daemon.FailBeforeStart | crates/agora-daemon/src/admission.rs:267-300 | ends the job at once, or without its card sync after the store refused it with the sync |
| AdmissionDaemon.Daemon.Start | crates/agora-daemon/src/admission.rs:121-134 | starts a waiting job, or ends it when it cannot start |
| AdmissionDaemon.Daemon.NoteHeld | crates/agora-daemon/src/admission.rs:105-114 | a held-since record is what the last update says, or what it was |
| AdmissionDaemon.Daemon.Pass | crates/agora-daemon/src/admission.rs:83-151 | the whole pass: new waiting set and events, the wake-up, a wake-up within 2000 ms for a job left waiting in vain, and held records for waiting jobs only |
| LineReader.SplitExists | crates/agora-bridge/src/jsonrpc.rs:427-468 | every stream is its newline-free segments and an unterminated tail |
| LineReader.SplitUnique | crates/agora-bridge/src/jsonrpc.rs:427-468 | and in one way only |
| LineReader.ReportsAreTheSplit | crates/agora-bridge/src/jsonrpc.rs:427-468 | what is reported is one report per segment and for a non-empty tail, in order: the line, or that it is longer than the cap |
| LineReader.Position | crates/agora-bridge/src/jsonrpc.rs:440-448 | finds the first newline of a chunk, or none |
| LineReader.ReadCappedLine | crates/agora-bridge/src/jsonrpc.rs:427-468 | result and remaining bytes depend on the bytes alone, and the buffer never exceeds the cap |
| LineReader.ReadAll | crates/agora-bridge/src/jsonrpc.rs:296-317 | over any chunking, the loop reports exactly the split, then the end |
| RpcPending.StepKeeps | crates/agora-bridge/src/jsonrpc.rs:120-150 | every interleaved step keeps each request in one place |
| RpcPending.InvAlong | crates/agora-bridge/src/jsonrpc.rs:120-150 | so it holds in every state of every run |
| RpcPending.ResolvedOnce | crates/agora-bridge/src/jsonrpc.rs:120-150 | what a request finished with never changes |
| RpcPending.TableGuarantees | crates/agora-bridge/src/jsonrpc.rs:239-252 | replies come by own id, a closed connection has an empty table, no entry outlives its future, nobody waiting is lost |
| RpcPending.ReplyWasSent | crates/agora-bridge/src/jsonrpc.rs:320-342 | a request finishes with a reply only after the peer sent a response with its id and that payload |
| RpcPending.ClosedAnswersEveryone | crates/agora-bridge/src/jsonrpc.rs:239-252 | after close, sending what is in hand leaves no request waiting |
| RpcHistory.TableIs | crates/agora-bridge/src/jsonrpc.rs:120-150 | an id is in the table exactly if it was entered before the close and has been neither answered nor given up since |
| RpcHistory.IdsAre | crates/agora-bridge/src/jsonrpc.rs:126-127 | ids are given out in order from 1, and a request is at its start exactly until it is entered or cannot be written |
| RpcHistory.EndsAsTold | crates/agora-bridge/src/jsonrpc.rs:120-150 | in every interleaving a request ends as some step says and not otherwise: its own answer, Closed, TimedOut by its own timeout, not JSON, or dropped |
| RpcHistory.AnswerIsPickedUp | crates/agora-bridge/src/jsonrpc.rs:143-149 | the answer that finds a request in the table is what it picks up, whatever else arrives or closes |
| RpcHistory.TakenIsNear | crates/agora-bridge/src/jsonrpc.rs:239-252 | a waiting request that was answered or closed is at most two steps from being told so |
| RpcHistory.NeverStuck | crates/agora-bridge/src/jsonrpc.rs:120-150 | requests, answers and close can come at any time, and a request can always be given up |
| RpcPending.Shared.TakeRequestId | crates/agora-bridge/src/jsonrpc.rs:126-127 | takes a new id outside the lock |
| RpcPending.Shared.Register | crates/agora-bridge/src/jsonrpc.rs:129-136 | refused when closed, otherwise entered in the table under the lock |
| RpcPending.Shared.Dispatch | crates/agora-bridge/src/jsonrpc.rs:320-342 | an unknown id changes nothing, a known one leaves the table with its outcome |
| RpcPending.Shared.Close | crates/agora-bridge/src/jsonrpc.rs:239-252 | takes the table whole and tells everyone in it, as a sequence of the steps |
| Frames.ReadWritten | crates/agora-proto/src/frame.rs:57-73 | a written frame is read back whole unless the deadline strikes inside it |
| Frames.ReadIsWritten | crates/agora-proto/src/frame.rs:21-53 | only what was written is read: the bytes consumed are the encoding of the payload |
| Frames.RefusedBySize | crates/agora-proto/src/frame.rs:21-53 | a frame is refused exactly if its header announces more than eight megabytes |
| Frames.NoFrameRead | crates/agora-proto/src/frame.rs:21-53 | what is read where no frame is: the deadline, the end, a cut frame or one too large |
| Frames.StreamExists | crates/agora-proto/src/frame.rs:21-53 | every byte stream is a list of frames and a tail that is no frame |
| Frames.StreamUnique | crates/agora-proto/src/frame.rs:21-53 | and in one way only |
| Frames.InsideIsNoBoundary | crates/agora-proto/src/frame.rs:17-20 | a read given up inside a frame leaves the stream between no two frames |
| Frames.Stream.ReadFrame | crates/agora-proto/src/frame.rs:21-53 | reading the length, then the payload, with the end of the stream or the deadline after any byte |
| SocketClient.CleanIsAnswered | crates/agora-client/src/client.rs:111-124 | the result is Reply(x) only if the first frame with the request's id is Ok with x, and Remote(e) only if it is Err with e; exactly the frames up to it are consumed |
| SocketClient.AnsweredIsClean | crates/agora-client/src/client.rs:111-124 | and whenever such a frame ends before the deadline, what it says is the result |
| SocketClient.UncleanStops | crates/agora-client/src/client.rs:111-124 | an unanswered call returns NoAnswer exactly if the deadline struck first, ConnectionClosed if the stream ended between frames, and ReadFailed if a frame was cut, too large or unreadable |
| SocketClient.StruckConsumesBudget | crates/agora-client/src/client.rs:262-275 | a call that is struck stops at the byte where it was struck |
| SocketClient.UsableIsInStep | crates/agora-client/src/client.rs:87-110 | over every sequence of calls, deadlines and dropped calls, a client that still takes calls is between two frames and has read one answer, under its id, per request written |
| SocketClient.UsableIff | crates/agora-client/src/client.rs:87-110 | a client stays usable exactly if the request was written and its answer arrived whole in time; every call is logged under the next id |
| SocketClient.BrokenStaysPut | crates/agora-client/src/client.rs:87-110 | a client that stopped never reads another byte |
| SocketReplies.FreshIdsMatch | crates/agora-client/src/client.rs:87-124 | a reply under an id no earlier request had is the request's own, whatever else the daemon sends |
| SocketReplies.OnceEachMatches | crates/agora-client/src/client.rs:87-124 | a daemon that answers no request twice is always matched right, at the last id too |
| SocketReplies.MatchedRightIffFresh | crates/agora-client/src/client.rs:92-93 | whatever an honest daemon meant, a reply is the request's own if and only if no earlier request had its id |
| SocketReplies.RepeatedAnswerIsTaken | crates/agora-client/src/client.rs:92-93 | at the last id a repeated answer is given to the next request, whose own answer never came |
| SocketReplies.RepliesAreOwn | crates/agora-client/src/client.rs:87-124 | over every run, replies are the requests' own where the id is new or the daemon answers once |
| SocketStream.SubscribingIsAwait | crates/agora-client/src/client.rs:183-215 | subscribing reads what a call would |
| SocketStream.SubscribingLosesNoEvent | crates/agora-client/src/client.rs:162-215 | events buffered while subscribing and events still to come are all events since the request, in order |
| SocketStream.EventsAre | crates/agora-client/src/client.rs:228-246 | a stream's events are those of its readable frames in order, and it ends clean exactly if every byte belongs to one |
| SocketStream.Client.Call | crates/agora-client/src/client.rs:87-110 | takes the step of the transition system, refuses when an earlier call did not end cleanly, and returns a reply or an error only if the first frame for its id says so |
| SocketStream.Client.ReadAnswer | crates/agora-client/src/client.rs:111-124 | the read loop computes the result and the bytes consumed |
| SocketStream.Client.Subscribe | crates/agora-client/src/client.rs:162-215 | a stream is returned only if the first frame for the request is Ok with a Subscribed reply, and then holds every event since the request; any other Ok is an unexpected reply |
| SocketStream.EventStream.Take | crates/agora-client/src/client.rs:235-246 | buffered events first, then the socket's, skipping other frames |
| SocketStream.EventStream.TakeAll | crates/agora-client/src/client.rs:235-246 | taken to its end, the stream yields exactly the events since the request |
| RateLimit.IdealCoversWindow | legacy/src/rate-limit.ts:38-69 | a bucket that never restarted holds at least a full one less a token per call of the last window |
| RateLimit.StepKeeps | legacy/src/rate-limit.ts:56-81 | calls and restarts keep the bucket at or below that one |
| RateLimit.RestartsNeverGain | legacy/src/audit-log.ts:302-343 | however often the process restarts, its bucket never holds more than the never-restarted one |
| RateLimit.IntervalBound | legacy/src/rate-limit.ts:56-81 | the never-restarted bucket bounds the grants of any interval |
| RateLimit.GrantsAreBounded | legacy/src/rate-limit.ts:56-81 | across restarts, grants in any interval of T ms number at most 30 + 3T/1000 |
| RateLimit.BoundIsReached | legacy/src/rate-limit.ts:56-81 | the bound is exact: for every T some run is granted that many |
| RateLimit.DenialsAreFree | legacy/src/rate-limit.ts:68-76 | denied calls do not delay the refill |
| RateLimit.RetryAfterSuffices | legacy/src/rate-limit.ts:70-76 | a denial reports one second, and a call that waits it out is granted unless another was first |
| RateLimit.FirstCall | legacy/src/rate-limit.ts:60-68 | a process's first call is granted exactly if fewer than thirty calls are logged, and leaves 29 less those |
| RateLimit.RemainingIsExact | legacy/src/rate-limit.ts:77-80 | that many further calls are granted at the same instant, and the next is denied |
| RateLimit.LostRowsBreakTheBound | legacy/src/rate-limit.ts:38-52 | with the audit rows lost, sixty calls are granted in one millisecond |
| RateLimit.Limiter.Acquire | legacy/src/rate-limit.ts:56-81 | takes the step for its key and touches no other |
| Canonical.RoundTrip | crates/agora-crypto/src/lib.rs:44-54 | decoding an encoding gives back domain and field list |
| Canonical.DecodedEncodes | crates/agora-crypto/src/lib.rs:44-54 | only encodings decode, each to its own preimage |
| Canonical.Injective | crates/agora-crypto/src/lib.rs:44-54 | encodings are equal exactly when domain and fields are |
| Canonical.NulDomainsCollide | crates/agora-crypto/src/lib.rs:44-54 | a NUL in the domain gives one encoding two readings |
| Canonical.OversizeFieldsCollide | crates/agora-crypto/src/lib.rs:44-54 | a field of 2^64 bytes collides with empty ones |
| Canonical.Build | crates/agora-crypto/src/lib.rs:44-54 | the loop builds the encoding |
| Canonical.AadsAreDistinct | crates/agora-crypto/src/lib.rs:159-179 | additional data of the three kinds is equal exactly when kind and arguments are |
| JsonText.QuoteIsPrefixCode | legacy/src/safe-write.ts:106-107 | a quoted string ends in one place only |
| JsonText.EscReads | legacy/src/safe-write.ts:106-107 | every escape reads back as its character by section 7 of RFC 8259, and each character has the shortest form |
| JsonText.QuoteReads | legacy/src/safe-write.ts:106-107 | a quoted string reads back as itself |
| JsonText.TextsCompareValues | legacy/src/safe-write.ts:86-96 | two values print alike exactly when they are equal, key order included, once every overflowed number is read as null |
| StructuralDiff.UnionKeysSpec | legacy/src/safe-write.ts:99-103 | the keys visited are those of either side, in order, each once |
| StructuralDiff.PrototypeReads | legacy/src/safe-write.ts:107-113 | an empty object reads like the prototype it inherits from, but for `__proto__` |
| StructuralDiff.PathsDistinct | legacy/src/safe-write.ts:67-116 | no two entries have the same key path |
| StructuralDiff.EntriesAreTruthful | legacy/src/safe-write.ts:67-116 | every entry's two values are what both trees hold at its path, they differ, and its kind says how |
| DiffPatch.PatchUnder | legacy/src/safe-write.ts:103-114 | the entries below one key act on the value at that key alone |
| DiffPatch.KeyLaw | legacy/src/safe-write.ts:103-114 | a key is restored exactly when it is not mistaken for an inherited one and its values are restored |
| DiffPatch.PatchLaw | legacy/src/safe-write.ts:67-116 | applying the diff to before gives after, up to key order, if and only if no inherited name is mistaken for a key and no overflowed number is compared with a value that prints alike |
| DiffOutput.RenderInjective | legacy/src/safe-write.ts:104-106 | a rendered path names one place |
| DiffOutput.IdentifierIs | legacy/src/safe-write.ts:104-106 | a key is rendered with a dot exactly if it is made of letters, digits and underscores and starts with no digit |
| DiffOutput.LinePathsDistinct | legacy/src/safe-write.ts:67-116 | the rendered paths of one diff are pairwise distinct |
| DiffOutput.Walk | legacy/src/safe-write.ts:67-116 | the recursive walk with its accumulator returns the entries under rendered paths |
| DiffOutput.EmptyLaw | legacy/src/safe-write.ts:67-116 | the diff is empty if and only if the trees are equal up to key order, overflowed numbers read as null, and a missing `__proto__` that reads like the prototype |
| DiffOutput.EmptyMeansSame | legacy/src/safe-write.ts:67-116 | reordering keys is never reported, and on a clean pair an empty diff means equal |
| DiffOutput.ProtoGoesUnseen | legacy/src/safe-write.ts:107-113 | an added empty `__proto__` is not reported |
| DiffOutput.OverflowGoesUnseen | legacy/src/safe-write.ts:86-90 | an overflowed number is not told from null or from the other infinity |
| DiffOutput.InheritedNameIsNotRemoved | legacy/src/safe-write.ts:107-113 | removing a key named like an inherited method is reported as a change to that method, and the diff cannot restore it |
| HookTree.RemovedAfterDrop | legacy/src/installer.ts:54-70 | dropping our old hook first does not change what removal leaves |
| HookTree.RemovedAfterUpsert | legacy/src/installer.ts:72-89 | nor does adding ours, except that a null under the event is gone |
| HookTree.RemovedAfterUpserts | legacy/src/installer.ts:94-103 | and so for all six |
| HookTree.OursIsWhatWeInstall | legacy/src/installer.ts:54-70 | a hook is ours exactly if it has the kind and command of the one we install |
| HookTree.GetRemoved | legacy/src/installer.ts:106-126 | removal leaves of each event what is left of that event |
| HookLaws.UninstallRestores | legacy/src/installer.ts:44-126 | removing after installing equals removing alone if and only if installing overwrote no null |
| HookLaws.CleanIsRestored | legacy/src/installer.ts:44-126 | a file without our command and without empty lists comes back as it was |
| HookLaws.EnsureThrows | legacy/src/installer.ts:72-78 | installing fails exactly when one of the six events holds neither null nor a list |
| HookCounts.SecondInstall | legacy/src/installer.ts:44-104 | a second install changes nothing, adds none and counts none removed |
| HookCounts.InstallBalances | legacy/src/installer.ts:44-104 | the counters account for every copy of our command |
| HookCounts.RemovedHasNone | legacy/src/installer.ts:106-126 | after removal our command is nowhere |
| HookCounts.ForeignHooksStay | legacy/src/installer.ts:44-126 | foreign hooks keep contents, block and order in every event |
| HookInstaller.CleanBlocks | legacy/src/installer.ts:54-70 | filters hooks, then blocks, and counts what it took |
| HookInstaller.AddedAt | legacy/src/installer.ts:74-88 | our command goes last in the first block that fits and has hooks, or in a new last block, and is found exactly there |
| HookInstaller.Settings.DropOurs | legacy/src/installer.ts:54-70 | drops our command from blocks without a matcher and counts it |
| HookInstaller.Settings.Upsert | legacy/src/installer.ts:72-89 | adds our command to the first fitting block, says whether it was there, or throws |
| HookInstaller.Settings.EnsureHooks | legacy/src/installer.ts:44-104 | the whole install, its failure condition, and added + existed = 6 |
| HookInstaller.Settings.RemoveHooks | legacy/src/installer.ts:106-126 | the whole removal, counting every copy |
| NicknameTally.TableHoldsLastVotes | legacy/src/nickname.ts:110-123 | the table holds each voter's last vote |
| NicknameTally.Votes.CastVote | legacy/src/nickname.ts:110-123 | a vote extends the history the table stands for |
| NicknameTally.TallyVotes | legacy/src/nickname.ts:137-144 | the first loop counts each nickname and notes the target's own vote |
| NicknameTally.ActiveNickname | legacy/src/nickname.ts:128-152 | the second loop returns a qualifying nickname, or none when none qualifies |
| NicknameTally.QualifiesMeansInForce | legacy/src/nickname.ts:125-152 | whatever the order and times of the rows, qualifying means the target and another voted for it last |
| NicknameTally.AtMostOneInForce | legacy/src/migrations.ts:85-93 | at most one nickname is in force, so the tie-break never decides |
| NicknameTally.ActiveAfter | legacy/src/nickname.ts:110-152 | after any history of votes the result is N exactly when N is in force |
| Migrations.DecimalInjective | legacy/src/migrations.ts:264-267 | the text of an id determines the id |
| Migrations.RebuildIsOk | legacy/src/migrations.ts:246-267 | the rebuild keeps numbers apart and puts the counter past them |
| Migrations.RebuildKeepsLinks | legacy/src/migrations.ts:264-267 | every message survives, and replies point to the same messages as before |
| Migrations.StepKeeps | legacy/src/migrations.ts:403-455 | every statement of every migrator, and every insert, keeps schema, counter, locks and foreign keys consistent |
| Migrations.InvAlong | legacy/src/migrations.ts:403-455 | so it holds in every state of every run |
| MigrationRuns.StepsAppliedOnce | legacy/src/migrations.ts:403-455 | exactly steps 1 to user_version were applied, in order, once each |
| MigrationRuns.CounterIsAhead | legacy/src/db.ts:259-269 | after step 3 no id or number repeats and the counter is past each number, numbers taken but not yet stored included |
| MigrationRuns.LeavingIsSafe | legacy/src/migrations.ts:431-455 | foreign keys are off exactly while migrating, and a migrator that ran to its end left the newest schema |
| MigrationRuns.NothingIsLost | legacy/src/migrations.ts:403-455 | steps and messages only accumulate, whoever dies, stalls or rolls back |
| MigrationRuns.RepliesStayPut | legacy/src/migrations.ts:264-267 | over whole runs a reply answers the same message after the rebuild, and no other |
| MigrationHistory.TableIsTheLedger | legacy/src/migrations.ts:403-455 | in every interleaving the table is exactly what was there and what was written, in order, each new row under the number its writer took |
| MigrationHistory.VersionCountsCommits | legacy/src/migrations.ts:420-449 | each committed step raises the version by one, nothing else moves it, and a failed step changes nothing |
| MigrationHistory.StepsInOrder | legacy/src/migrations.ts:416-449 | inside migrate the steps are taken one at a time from the first, and exactly those up to the version read on entering are skipped |
| MigrationHistory.LeftAs | legacy/src/migrations.ts:431-455 | a migrator is out exactly as its last event took it out: complete, stalled when busy, or thrown |
| MigrationHistory.FinishesAlone | legacy/src/migrations.ts:403-455 | from every state in which nobody else holds the lock, a migrator's own steps, at most eighteen, bring the newest schema |
| MigrationHistory.WriterGetsIn | legacy/src/db.ts:259-269 | a writer with a new id gets its row in under the counter's number whenever the lock is free |
| MigrationRuns.Connection.TryStep | legacy/src/migrations.ts:420-449 | one step under the lock, with its exact success condition |
| MigrationRuns.Connection.Migrate | legacy/src/migrations.ts:403-455 | restores foreign keys, keeps the schema consistent, completes when nothing stalls or fails, and stalls or throws only when a step of its own was busy or failed |
| CardLifecycle.FinalIsLast | crates/agora-core/src/lib.rs:109-135 | Done and Cancelled end a run |
| CardLifecycle.WorkWasClaimed | crates/agora-core/src/lib.rs:109-135 | work in progress began with a claim of a ready card, with nothing between |
| CardLifecycle.DoneWasEarned | crates/agora-core/src/lib.rs:109-153 | a done card was ready, claimed, then worked on without a break, and the gate was met on the last step |
| CardLifecycle.RaisingNeverDisables | crates/agora-core/src/lib.rs:136-151 | a higher role or a gate with more met never loses a move |
| CardLifecycle.VerdictNamesTheObstacle | crates/agora-core/src/lib.rs:87-153 | each refusal is given exactly when what it asks for would change the verdict, and Illegal exactly when nothing would |
| CardLifecycle.SupervisorsCancel | crates/agora-core/src/lib.rs:109-143 | a card can be cancelled exactly if it is not final and by a supervisor or above |
| CardLifecycle.MovesByRole | crates/agora-core/src/lib.rs:109-153 | claiming, release, rework, blocking, unblocking and completion with or without review are exactly a worker's moves; a supervisor adds promotion and cancelling, an observer has none |
| CardLifecycle.WithoutSupervisor | crates/agora-core/src/lib.rs:136-143 | without a supervisor a card leaves the backlog only as blocked and is never cancelled |
| CardLifecycle.WorkersCanPromote | crates/agora-core/src/lib.rs:136-143 | blocking and unblocking promotes a card without a supervisor |
| CardLifecycle.WorkersReachAll | crates/agora-core/src/lib.rs:109-153 | workers alone can bring a card to every state but Cancelled |

## Left out

- Rendering, fetching and the job decision (`agora_hooks`, `agora_sched::quiet::decide`, `jobs::start`) are parameters; the proofs hold for all of them.
- The pump assumes messages become visible in the order of their numbers; joining a channel with older messages is outside the model.
- Heartbeats, logging, waiting out the pauses between rounds and the JSON handling of the pump and driver.
- Classifying JSON-RPC messages, building request frames, and the permission requests of the ACP driver.
- The client's handshake and daemon start; JSON decoding of a frame is a parameter.
- The note a held job gets: it publishes no event and moves no job.
- Floating-point rounding of the rate limiter: its arithmetic is exact here.
- Numbers in JSON are kept as the text they print as, so minus zero is zero; strings are sequences of Unicode scalars, so lone surrogates do not occur, and keys sort by scalar rather than by UTF-16 unit.
- A `hooks` setting that is neither null nor an object, and null elements in its lists.
- The other tables that step 3 rebuilds, and the columns of the other steps.
- Display-name resolution from nicknames.
- Processes, sockets, HTTP, file modes, cryptographic primitives, command-line handling and the store behind the daemon.
- PumpTask.Task.CommitAttempt: one attempt of the retry loop; the pause between attempts is not modelled.
- Request ids of the JSON-RPC connection are unbounded here; the source's counter is 64 bits wide.
- RpcPending.Shared.Dispatch: only responses; requests and notifications from the peer are not modelled.
