# McuBridge, modelled and proved

McuBridge joins a Linux daemon and a microcontroller over a serial line. The two ends run a
hand-written protocol: reset, a sync handshake with mutual authentication, then authenticated
traffic with nonce counters, acknowledgements, retries and duplicate suppression. Around it the
daemon keeps a store-and-forward spool for the cloud and a table of subprocesses, the firmware a
console buffer, and the host stubs a SHA-256 and two HMACs. This project models these parts and
proves what they keep over every run. `dafny verify dfyconfig.toml` checks all of it.

How it is laid out:

- `Protocol`, `Frames`, `Nonce`, `Crypto`: numbers, envelopes, the 12-byte nonce, and the
  cryptographic library as functions that everything is parametric in.
- `Mcu`, `McuFsm`: what each firmware step does, as functions on its state; every step also logs
  what an observer could see. `BridgeClass` performs the steps in place on a buffer pool.
  `McuRuns` and `McuRetry` prove what all runs keep, `McuEffects` and `McuReplies` when handlers run
  and what is written.
- `Daemon`: the handshake, the link flags and the counters, cut where the coroutines suspend, so
  that a run is any interleaving. `HandshakeManager` performs the steps on objects, whose validity is
  the invariant of all runs.
- `Link`: both ends with the channels between them. `LinkProgress` follows one delivered attempt,
  `LinkText` follows a text from send to handler, `LinkExact` says exactly when the ends synchronise and agree, `LinkTiming` what becomes of the
  timing a LINK_RESET carries, and `LinkObjects` joins the two objects.
- `Transport`: tracked sends; `FlowLock`: the lock they share. `SqliteDeque`, `CloudSpool`, `SpoolLaws`: the persistent queue, the
  service over it, and its laws. `ProcessSlots`, `Topics`, `Console`: one component each.
- `Sha256Spec` is FIPS 180-4 and RFC 2104; `Sha256Constants` derives its constants;
  `Sha256` and `Hmac` are the objects that refine it.

What is assumed of the environment appears as parameters: the cryptographic library is correct
when it round-trips (`Crypto.Correct`), handshake nonces do not repeat, one wire write is atomic,
and clocks, the network, the file system and the scheduler are arbitrary inputs.

Places where the code does less than a reader may expect, each with its exact condition:

- the daemon's receive counter is never reset, the firmware's send counter is at each sync, so the
  first frames of later sessions are dropped: `LinkExact.FirstFrameAcceptedIff` and
  `Daemon.AcceptedIffAboveFloor`;
- a daemon secret longer than 64 bytes is cut by the firmware only: `LinkExact.CanSynchroniseIff`;
- a LINK_RESET whose id is still in the firmware's history is dropped, and the daemon may then be
  synchronised with a firmware that is not: `LinkProgress.UndisturbedOutcome`;
- the protocol definition (tools/protocol/mcubridge.proto:276) says that a LINK_RESET may carry
  timing parameters; the daemon sends them as a typed message and the firmware decodes only a blob,
  so they never take effect: `LinkTiming.TimingNeverApplied`;
- an answer that arrives between two attempts of a send is lost and silences the later waits:
  `Transport.ListenedDecides`;
- a publish that succeeds after one that failed overtakes the spool: `SpoolLaws.OrderIff`;
- a spool with limit zero swallows messages: `SpoolLaws.SectionConserves`;
- a process slot leaks when a launch fails with anything but an OSError (an unbalanced quote in
  the command is enough) or meets a live masked pid: `ProcessSlots.LeakFreeIff`.

## Model

| member | source | states |
|---|---|---|
| `Link.Agreement` | mcubridge/mcubridge/services/handshake.py:165-336 | Over every run of both ends, for any two secrets, with fresh nonces and no firmware restart: while the daemon is synchronised both keys derive from the newest nonce, to which both secrets give the same tag, and no LINK_SYNC is under way; with one secret of at most 64 bytes the keys are equal. The channel to the firmware is a lossy FIFO, the other may also reorder and duplicate |
| `LinkExact.AgreementIff` | mcubridge/mcubridge/services/handshake.py:323-333 | For any two secrets, of any length: the keys are equal in every synchronised state of every run exactly if one secret is missing or no nonce is given one tag and two keys by them |
| `LinkExact.CanSynchroniseIff` | mcubridge-library-arduino/src/Bridge.cpp:450-462 | A daemon and a firmware can ever synchronise exactly if both have a secret and the daemon's and the first 64 bytes of the firmware's give some nonce the same tag; so a longer shared secret works exactly as far as its first 64 bytes authenticate like the whole |
| `LinkObjects.Connect` | mcubridge/mcubridge/services/handshake.py:165-336 | The same agreement of the two objects joined by their channels: after any legal events the daemon object whose link is synchronised holds the firmware object's key |
| `LinkObjects.SerialLink.Drive` | mcubridge/mcubridge/transport/serial.py:198-235 | A run of the joined objects is a run of the pair |
| `Link.NoFalseReject` | mcubridge-library-arduino/src/Bridge.cpp:964-1004 | In every such run, for secrets as in AgreementIff, a synchronised firmware opens the next frame the daemon encrypted to the text that was sealed, takes its counter and dispatches it |
| `Link.RunKeeps` | mcubridge-library-arduino/src/Bridge.cpp:864-901 | The inductive invariant behind both: which nonces may be in flight where, nothing encrypted behind a LINK_SYNC, counters on the wire rising and above the firmware's |
| `Link.HearKeeps` | mcubridge/mcubridge/services/handshake.py:236-336 | Whatever reply reaches the daemon, in whatever order or number, accepting it leaves both ends on the session of one nonce |
| `Link.ToMcuKeeps` | mcubridge-library-arduino/src/Bridge.cpp:964-1004 | Whatever frame reaches the firmware next, the invariant of the pair survives |
| `Daemon.SendCarries` | mcubridge/mcubridge/transport/serial.py:371-393 | What a send puts on the wire: in a session, a frame with the command, the id and the next counter that opens under the session key to exactly the text, unless the counter is used up or sealing fails; any other frame goes out as it is |
| `LinkText.DispatchesWhatWasSent` | mcubridge-library-arduino/src/Bridge.cpp:964-1004 | Over every legal run, what a synchronised firmware dispatches for the next encrypted frame is the text of the very send event that took that counter, with its command and id |
| `LinkText.EveryFrameTraced` | mcubridge/mcubridge/transport/serial.py:371-393 | Every encrypted frame still on its way stems from a send event of the run and opens, under the firmware's present key, to that event's text |
| `LinkProgress.UndisturbedOutcome` | mcubridge/mcubridge/services/handshake.py:165-234 | The exact outcome of an attempt whose frames are all delivered, from every pair at rest: the daemon ends synchronised exactly if the LINK_SYNC's id is outside the firmware's history and both secrets give the nonce one tag; the firmware is then synchronised too exactly if the LINK_RESET's id was fresh or it was not in Startup or Fault |
| `LinkProgress.UndisturbedSucceeds` | mcubridge/mcubridge/services/handshake.py:165-234 | With one secret and two different ids that are not in the firmware's history, such an attempt ends with both ends synchronised on the key of its nonce, from any state, a Fault included |
| `LinkProgress.ResetTaken` | mcubridge-library-arduino/src/Bridge.cpp:903-922 | A LINK_RESET brings the firmware to Unsynchronized from any state exactly if its id is fresh, and is acknowledged in any case |
| `LinkProgress.SyncTaken` | mcubridge-library-arduino/src/Bridge.cpp:864-901 | A LINK_SYNC is answered exactly if its id is fresh and its tag is the one the firmware's secret gives; a fresh one with another tag brings the firmware to Startup from any state but Fault |
| `LinkProgress.SyncWithoutSecret` | mcubridge-library-arduino/src/Bridge.cpp:864-901 | Without a secret any LINK_SYNC is accepted and answered with an empty tag, and no key is taken |
| `LinkTiming.ResetSetsLimitIff` | mcubridge-library-arduino/src/Bridge.cpp:903-912 | A received LINK_RESET sets the retry limit, to the configured value cut to eight bits, exactly if its id is fresh and its body is a decodable blob |
| `LinkTiming.TypedConfigIgnored` | mcubridge-library-arduino/src/Bridge.cpp:1015-1029 | A LINK_RESET whose body is a typed configuration leaves the retry limit as it was |
| `LinkTiming.TimingNeverApplied` | mcubridge/mcubridge/services/handshake.py:178-181 | Over every run whose LINK_RESETs carry no blob, as the daemon's do, the firmware keeps its default retry limit: the daemon's timing never takes effect |
| `LinkTiming.StepLimit` | mcubridge-library-arduino/src/Bridge.cpp:958-962 | No input but a LINK_RESET with a decodable blob changes the retry limit |
| `Daemon.EveryRun` | mcubridge/mcubridge/services/handshake.py:120-336 | For all interleavings of attempts, responses, failures, disconnects and timeouts: a synchronised link implies a synchronised handshake, successes plus a pending nonce never exceed attempts, and both counter logs rise strictly across all sessions |
| `Daemon.OnlyMatchingResponseSynchronises` | mcubridge/mcubridge/services/handshake.py:287-336 | The state is entered exactly by a response with the pending nonce and the right tag, which derives that nonce's key, clears the expectation and counts one success |
| `Daemon.RejectionsDo` | mcubridge/mcubridge/services/handshake.py:236-321 | What a response that does not match comes to: ignored for another nonce, otherwise Fault; the nonce stays expected only if it was throttled, and a wrong tag is fatal at once |
| `Daemon.EndingsDo` | mcubridge/mcubridge/services/handshake.py:157-163 | Giving up leaves Fault with the link down; losing the port takes link and expectation, not the key |
| `Daemon.ConfirmationFallbackUnreachable` | mcubridge/mcubridge/services/handshake.py:230-234 | The transition after a confirmed wait never fires: the state is already there |
| `Daemon.NoSecretNoSync` | mcubridge/mcubridge/services/handshake.py:538-541 | Without a secret no run ever synchronises |
| `Daemon.AcceptedIffAboveFloor` | mcubridge/mcubridge/transport/serial.py:221-229 | A frame is accepted exactly if it authenticates and exceeds every counter accepted since start-up; a refused frame changes nothing |
| `Daemon.OutsideSessionAccepted` | mcubridge/mcubridge/transport/serial.py:221-229 | Outside a session, and for system frames at any time, every frame goes on unexamined |
| `LinkExact.FirstFrameAcceptedIff` | mcubridge-library-arduino/src/Bridge.cpp:886-887 | On the pair, from any rest: after a delivered attempt the first frame the firmware seals carries counter 1 and authenticates at the daemon, and is accepted exactly if the daemon has accepted no frame in any earlier session; otherwise it is dropped and changes nothing |
| `Daemon.FloorNeverDrops` | mcubridge/mcubridge/transport/serial.py:225-229 | No run lowers the receive counter |
| `HandshakeManager.RuntimeState.MarkTransportConnected` | mcubridge/mcubridge/state/context.py:211-214 | The link becomes connected, nothing else changes |
| `HandshakeManager.RuntimeState.MarkTransportDisconnected` | mcubridge/mcubridge/state/context.py:216-221 | The link becomes disconnected and the sync event is cleared |
| `HandshakeManager.RuntimeState.MarkSynchronized` | mcubridge/mcubridge/state/context.py:223-228 | The link becomes synchronised and the sync event is set |
| `HandshakeManager.SerialHandshakeManager.SetFsmState` | mcubridge/mcubridge/services/handshake.py:120-132 | The link flag never outlives the state it stands for: if it implied the synchronised state before, it does after; entering that state raises flag and event |
| `HandshakeManager.SerialHandshakeManager.StartAttempt` | mcubridge/mcubridge/services/handshake.py:149-177 | Keeps the handshake invariant; the link is down, exactly the new nonce is expected and successes are below attempts |
| `HandshakeManager.SerialHandshakeManager.AfterReset` | mcubridge/mcubridge/services/handshake.py:178-190 | Keeps the invariant; a reset that could not be sent ends the attempt in Fault with nothing expected, one that was sent leaves the expectation |
| `HandshakeManager.SerialHandshakeManager.AfterSync` | mcubridge/mcubridge/services/handshake.py:199-214 | Keeps the invariant; the attempt waits exactly if the frame was sent and no response failed it meanwhile, and a response that already succeeded is not undone |
| `HandshakeManager.SerialHandshakeManager.AfterConfirmation` | mcubridge/mcubridge/services/handshake.py:214-234 | Keeps the invariant; reports success exactly if the link stood when the wait ended, and then it stands; otherwise the nonce is no longer expected unless the attempt had already failed |
| `HandshakeManager.SerialHandshakeManager.HandleLinkSyncResp` | mcubridge/mcubridge/services/handshake.py:236-336 | Keeps the invariant; takes the session of the pending nonce exactly if the response matches it, and otherwise changes nothing before its first suspension |
| `HandshakeManager.SerialHandshakeManager.HandleHandshakeFailure` | mcubridge/mcubridge/services/handshake.py:406-431 | Keeps the invariant from any state: Fault, link down, streak one longer, and fatal exactly if the reason is or the streak reaches the threshold |
| `HandshakeManager.SerialHandshakeManager.HandleHandshakeSuccess` | mcubridge/mcubridge/services/handshake.py:504-513 | Ends the streak and, for a response not yet counted, keeps the invariant that successes never exceed attempts |
| `HandshakeManager.SerialHandshakeManager.SendRaw` | mcubridge/mcubridge/transport/serial.py:355-404 | Keeps the invariant; at most one frame is written, and in a session a frame that is no system frame carries the next counter, above all sealed before |
| `HandshakeManager.SerialHandshakeManager.ProcessPacket` | mcubridge/mcubridge/transport/serial.py:198-229 | Keeps the invariant; a refused frame changes nothing, and in a session an accepted one is authentic and above every counter accepted so far |
| `HandshakeManager.SerialHandshakeManager.Drive` | mcubridge/mcubridge/services/handshake.py:134-336 | A run of the object is a run of the step model, for every sequence of events, with the invariant kept |
| `HandshakeManager.StartUp` | mcubridge/mcubridge/services/handshake.py:134-336 | From start-up, over every interleaving, the object's link flag implies the synchronised state with a key, both counter logs rise, and successes stay within attempts |
| `Nonce.GenerateExtract` | mcubridge/mcubridge/security/security.py:44-69 | What the daemon packs either end extracts, exactly below the overflow limit, and both validators accept it exactly above their last counter |
| `Nonce.FirmwareExtract` | mcubridge-library-arduino/src/security/security.cpp:73-113 | What the firmware packs the daemon extracts, for every 64-bit counter |
| `Nonce.ValidatorsAgree` | mcubridge-library-arduino/src/security/security.cpp:140-152 | The firmware's validator and the daemon's are the same predicate on twelve-byte nonces |
| `Nonce.ZeroNonceRefused` | mcubridge-library-arduino/src/security/security.cpp:140-152 | The all-zero nonce of an unencrypted frame is always refused |
| `McuRuns.Reachable` | mcubridge-library-arduino/src/Bridge.cpp:371-434 | In every reachable state the fields are what the history of the run says, the queue is within capacity, and awaiting an acknowledgement means a front frame of the last command with retries left |
| `McuRuns.HandlersNeedSync` | mcubridge-library-arduino/src/Bridge.cpp:964-1010 | With a secret, a non-system handler runs only for a frame authenticated right before, and only if a LINK_SYNC was accepted with no reset, failure or timeout since |
| `McuRuns.NoSyncWithoutReset` | mcubridge-library-arduino/src/fsm/bridge_fsm.h:40-175 | From Startup or Fault the machine is not synchronised again without a reset in between |
| `McuRuns.SealedIncrease` | mcubridge-library-arduino/src/security/security.cpp:73-113 | Counters the firmware seals with in one session rise strictly, retransmissions included, until the 64-bit counter wraps |
| `McuRuns.OpenedIncrease` | mcubridge-library-arduino/src/Bridge.cpp:964-1004 | Whatever arrives, the counters accepted in one session rise strictly, so none is accepted twice |
| `McuRuns.HistoryIsRecent` | mcubridge-library-arduino/src/Bridge.cpp:371-388 | The receive history is the last RX_HISTORY_SIZE fresh ids since it was cleared, without repeats |
| `McuRuns.RoutedIdsAreFresh` | mcubridge-library-arduino/src/Bridge.h:349-380 | A handler behind the common dispatcher runs only for an id outside the history on arrival |
| `McuRetry.RetryBound` | mcubridge-library-arduino/src/Bridge.cpp:611-644 | With no acknowledgement, reset or handshake failure, whatever else happens, the firmware waits with its 8-bit count equal to the timeouts until number max(1, limit), which ends in Fault with the queue empty and sending disabled |
| `McuRetry.CounterMovesIff` | mcubridge-library-arduino/src/Bridge.cpp:964-1004 | A frame moves the receive counter exactly if it authenticates and is newer; any other leaves the session alone |
| `McuRetry.StepSettles` | mcubridge-library-arduino/src/Bridge.cpp:652-658 | No step but an acknowledgement, a reset or a handshake failure ends a wait or changes its front frame and retry count |
| `McuEffects.HandlerRunsIff` | mcubridge-library-arduino/src/Bridge.h:349-380 | For every received frame: its handler runs, once, exactly if the frame passes security, is permitted, is fresh or of a command without duplicate check, and decodes; otherwise none runs |
| `McuEffects.HandlerSends` | mcubridge-library-arduino/src/Bridge.h:349-380 | A service, query or read whose handler runs is acknowledged where it should be, and then all the handler's sends follow in order, each refused, queued at the end or written |
| `McuEffects.SendDoes` | mcubridge-library-arduino/src/Bridge.h:101-153 | One send: refused without a trace, queued at the end with the front of the queue sent if nothing is awaited, or written at once so that it opens to the text |
| `McuEffects.StepGrows` | mcubridge-library-arduino/src/Bridge.cpp:371-434 | No step takes a frame off the wire, and only a received frame runs a handler |
| `McuReplies.TimeoutResends` | mcubridge-library-arduino/src/Bridge.cpp:624-644 | While retries are left, a timeout writes exactly the front frame again, plainly or sealed with the next counter so that it opens to its payload |
| `McuReplies.EveryTimeoutResends` | mcubridge-library-arduino/src/Bridge.cpp:624-644 | Over every run within the retry bound, whatever other traffic, each timeout has written the awaited frame once more |
| `McuReplies.OnlyTimeouts` | mcubridge-library-arduino/src/Bridge.cpp:624-644 | Left alone, the firmware writes the awaited frame once per timeout and nothing else |
| `McuReplies.QueuedIsWritten` | mcubridge-library-arduino/src/Bridge.cpp:611-644 | A frame queued on an idle link has been written once more than there were timeouts |
| `McuReplies.AlwaysAcknowledged` | mcubridge-library-arduino/src/Bridge.cpp:31-43 | A permitted listed command is acknowledged first wherever it should be, fresh or not, readable or not |
| `McuReplies.DuplicateRepeats` | mcubridge-library-arduino/src/Bridge.cpp:31-43 | A duplicate query or read repeats the frame at the front of the queue; any other duplicate is acknowledged and nothing more |
| `McuReplies.AckEndsWaitIff` | mcubridge-library-arduino/src/Bridge.cpp:652-658 | A fresh acknowledgement ends the wait, emptying the queue, exactly if it names the awaited command |
| `McuReplies.RefusalsAnswered` | mcubridge-library-arduino/src/Bridge.cpp:964-1004 | A frame that does not parse, authenticate or come newer, or is not permitted, is answered with one status frame and changes nothing else but, for the last, the history |
| `McuReplies.UndecodableAnswered` | mcubridge-library-arduino/src/Bridge.h:355-376 | A payload that does not decode is answered as malformed and its handler does not run |
| `McuReplies.StatusesDo` | mcubridge-library-arduino/src/Bridge.cpp:390-400 | An OK status is acknowledged; a malformed status sends the firmware to its safe state |
| `McuReplies.UnknownCommand` | mcubridge-library-arduino/src/Bridge.cpp:429-433 | A command that is not listed goes to the sketch's handler, whose sends follow, or is answered with an error |
| `McuReplies.TimersDo` | mcubridge-library-arduino/src/Bridge.cpp:670-679 | The deduplication timer makes every id fresh; the watchdog faults a link that is not synchronised and leaves a synchronised one alone |
| `McuReplies.RestartsDo` | mcubridge-library-arduino/src/Bridge.cpp:450-475 | The safe state forces pins, drops the queue and stops sending; a restart takes at most 64 bytes of the new secret and sends again |
| `McuReplies.FlowControl` | mcubridge-library-arduino/src/Bridge.cpp:931-936 | A fresh XOFF stops sending and a fresh XON resumes it, in any state |
| `BridgeClass.PoolAccounting` | mcubridge-library-arduino/src/Bridge.h:101-123 | Free buffers plus queued frames make the capacity, so allocation succeeds exactly when the queue is not full |
| `BridgeClass.StoreAppends` | mcubridge-library-arduino/src/Bridge.h:101-123 | Filling a free buffer and queueing it keeps the queued buffers distinct and exactly the allocated ones, and every other queued payload intact |
| `BridgeClass.FindHandler` | mcubridge-library-arduino/src/Bridge.cpp:404-433 | Binary search over a sorted table returns what a linear scan returns, and terminates |
| `BridgeClass.TableSorted` | mcubridge-library-arduino/src/Bridge.cpp:320-367 | The dispatch table is strictly ascending |
| `BridgeClass.BridgeClass.constructor` | mcubridge-library-arduino/src/Bridge.cpp:450-475 | A constructed and begun object has a full pool and the booted state |
| `BridgeClass.BridgeClass.ClearPendingTxQueue` | mcubridge-library-arduino/src/Bridge.cpp:660-668 | The queue is emptied and every buffer is free again |
| `BridgeClass.BridgeClass.EnterSafeState` | mcubridge-library-arduino/src/Bridge.cpp:540-551 | Performs the safe-state step on the pooled queue |
| `BridgeClass.BridgeClass.Transmit` | mcubridge-library-arduino/src/Bridge.cpp:567-609 | Performs one transmission; the counter advances whether or not sealing succeeds |
| `BridgeClass.BridgeClass.FlushPendingTxQueue` | mcubridge-library-arduino/src/Bridge.cpp:611-622 | Performs the sending of the front frame |
| `BridgeClass.BridgeClass.RetransmitLastFrame` | mcubridge-library-arduino/src/Bridge.cpp:624-632 | Performs the repetition of the front frame from its pool buffer, which RetransmitRepeats shows on the wire |
| `McuReplies.RetransmitRepeats` | mcubridge-library-arduino/src/Bridge.cpp:624-632 | A retransmission writes the front frame of the queue, if there is one, and moves only the send counter |
| `BridgeClass.BridgeClass.FillBuffer` | mcubridge-library-arduino/src/Bridge.h:110-120 | Takes a buffer, fills it, and appends exactly that frame to the queue |
| `BridgeClass.BridgeClass.SendFrame` | mcubridge-library-arduino/src/Bridge.h:101-123 | Performs sendFrame, refusals included |
| `BridgeClass.BridgeClass.SendMessage` | mcubridge-library-arduino/src/Bridge.h:142-153 | Performs send, encrypted or plain |
| `BridgeClass.BridgeClass.OnAckTimeout` | mcubridge-library-arduino/src/Bridge.cpp:634-644 | Performs an acknowledgement timeout; entering Fault frees every buffer |
| `BridgeClass.BridgeClass.HandleAck` | mcubridge-library-arduino/src/Bridge.cpp:652-658 | Performs an acknowledgement: the whole queue is dropped |
| `BridgeClass.BridgeClass.OnHandshakeTimeout` | mcubridge-library-arduino/src/Bridge.cpp:675-679 | Performs the handshake watchdog |
| `BridgeClass.BridgeClass.HandleLinkSync` | mcubridge-library-arduino/src/Bridge.cpp:864-901 | Performs LINK_SYNC: accepted, refused, or without a secret |
| `BridgeClass.BridgeClass.HandleLinkReset` | mcubridge-library-arduino/src/Bridge.cpp:903-922 | Performs LINK_RESET, an 8-bit retry limit included |
| `BridgeClass.BridgeClass.DispatchCmd` | mcubridge-library-arduino/src/Bridge.cpp:31-43 | Performs acknowledgement, duplicate handling and the handler |
| `BridgeClass.BridgeClass.DispatchCommand` | mcubridge-library-arduino/src/Bridge.cpp:371-434 | Performs dispatch: history, security check, lookup |
| `BridgeClass.BridgeClass.HandleReceivedFrame` | mcubridge-library-arduino/src/Bridge.cpp:964-1004 | Performs reception: parse, authenticate, replay check, dispatch |
| `BridgeClass.BridgeClass.Drive` | mcubridge-library-arduino/src/Bridge.cpp:501-531 | A run of the object is a run of the step model, for every sequence of inputs; it stays in a reachable state and free plus queued buffers stay the capacity |
| `BridgeClass.PowerUp` | mcubridge-library-arduino/src/Bridge.cpp:450-498 | The same from power-up, for every secret, self-test outcome and sequence of inputs |
| `Transport.ListenedDecides` | mcubridge/mcubridge/transport/serial.py:326-343 | The exact outcome of every send: that of the first decisive frame it listens to, where an attempt does not wait once a decisive frame fell between attempts, the attempt after such a failure is the last, and an attempt that is not written ends the send |
| `Transport.ReturnsIff` | mcubridge/mcubridge/transport/serial.py:256-289 | A send returns a payload exactly if a frame it listens to grants the command with it, before any that grants or refuses it: with a response expected, that response; without one, an ACK that names the command or nothing, or OK |
| `Transport.FailureEnds` | mcubridge/mcubridge/transport/serial.py:338-343 | A failure status heard first ends the send with False after exactly that attempt's frame |
| `Transport.SilenceExhausts` | mcubridge/mcubridge/transport/serial.py:316-351 | With nothing decisive at all, every attempt is made, one frame each |
| `Transport.TrackedIff` | mcubridge/mcubridge/transport/serial.py:306-310 | Exactly the listed commands are tracked |
| `Transport.FirstDecisiveFrame` | mcubridge/mcubridge/transport/serial.py:326-343 | Without a decisive frame between attempts, a send has the outcome of the first decisive frame of all that arrives while its attempts run |
| `Transport.FirstDecisiveIff` | mcubridge/mcubridge/transport/serial.py:326-343 | With a first such gap, it has that outcome exactly if the frame comes before the gap or while the next frame is written, or what is still heard settles the send alike |
| `Transport.FailureGapIff` | mcubridge/mcubridge/transport/serial.py:338-343 | After a failure in the first gap the send misses exactly a success that would have come first afterwards |
| `Transport.SuccessNeedsAnswer` | mcubridge/mcubridge/transport/serial.py:239-289 | A result other than False means a matching frame, with nothing decisive before it, arrived during the returning attempt; with a response expected it is that response, never an ACK or OK alone |
| `Transport.AttemptsMeaning` | mcubridge/mcubridge/transport/serial.py:316-351 | A send is the outcome of its first conclusive attempt and writes at most as many frames as attempts |
| `Transport.SuccessGapSilencesWaiting` | mcubridge/mcubridge/transport/serial.py:326-343 | After a success in the first gap and no later failure gap, only frames that arrive while a frame is being written still count |
| `FlowLock.PendingMeansLocked` | mcubridge/mcubridge/transport/serial.py:299-353 | For every interleaving of any number of tracked sends, untracked sends, resets and cancellations, step by step: one task at most is inside the lock, a command is current exactly from its sender's assignment to its finally clause, all inside the lock, and reset() never finds one to fail |
| `FlowLock.FrameReachesHolder` | mcubridge/mcubridge/transport/serial.py:239-252 | An arriving frame is heard by the sender inside the lock and nobody else, and a reset changes no sender's state |
| `FlowLock.FrameIsHeard` | mcubridge/mcubridge/transport/serial.py:239-252 | And it is heard: a sender that runs inside the lock has every frame that arrives |
| `FlowLock.ExitFrees` | mcubridge/mcubridge/transport/serial.py:344-353 | However a sender leaves, its finally clause and the end of the lock free both for the next |
| `Transport.PendingCommand.MarkSuccess` | mcubridge/mcubridge/protocol/structures.py:348-352 | Resolves the command with its payload |
| `Transport.PendingCommand.MarkFailure` | mcubridge/mcubridge/protocol/structures.py:354-359 | Resolves the command, keeping an earlier status when none is given |
| `Transport.SerialTransport.CorrelateFrame` | mcubridge/mcubridge/transport/serial.py:239-289 | An unresolved command succeeds on a frame that grants it, with its payload, fails on a failure status, and otherwise stays unresolved; a resolved one ignores the frame |
| `Transport.SerialTransport.Listen` | mcubridge/mcubridge/transport/serial.py:239-289 | A run of frames has the effect of its first decisive one |
| `Transport.SerialTransport.SendAttempt` | mcubridge/mcubridge/transport/serial.py:326-343 | One attempt, with what its predecessors left in the command |
| `Transport.SerialTransport.Send` | mcubridge/mcubridge/transport/serial.py:299-353 | Returns and writes what the attempts amount to, and leaves nothing pending |
| `SqliteDeque.SqliteDeque.constructor` | mcubridge/mcubridge/state/storage.py:24-47 | The cached length equals the row count unless a storage error hid stored rows |
| `SqliteDeque.SqliteDeque.Append` | mcubridge/mcubridge/state/storage.py:95-107 | With at most one storage error: the newest maxlen of the old rows, or of none after a fault, and the item; length cached exactly |
| `SqliteDeque.SqliteDeque.PopLeft` | mcubridge/mcubridge/state/storage.py:109-120 | The oldest row, or the empty error; a fault empties the queue first |
| `SqliteDeque.SqliteDeque.Peek` | mcubridge/mcubridge/state/storage.py:125-133 | The oldest row without removing it; a fault empties the queue first |
| `SqliteDeque.SqliteDeque.TryAppend` | mcubridge/mcubridge/state/storage.py:73-107 | One pass of the append transaction: complete, or the committed rows untouched |
| `SqliteDeque.KeepsNewest` | mcubridge/mcubridge/state/storage.py:52-136 | Through any operations and faults the queue is a suffix of everything stored and pushed, within maxlen |
| `SqliteDeque.PushesKeepNewest` | mcubridge/mcubridge/state/storage.py:95-107 | Without faults and removals it is exactly the newest maxlen |
| `SqliteDeque.PopsFromFront` | mcubridge/mcubridge/state/storage.py:109-120 | First in, first out: n pops leave what was behind the first n |
| `SpoolLaws.Conservation` | mcubridge/mcubridge/services/runtime.py:223-382 | Over every run with a positive limit or no spool: what was there and what was admitted is delivered, spooled, counted as dropped for one of three reasons, or still waiting |
| `SpoolLaws.SectionConserves` | mcubridge/mcubridge/services/runtime.py:242-249 | A critical section accounts for its message exactly if it is not swallowed by a spool of limit zero |
| `SpoolLaws.ZeroLimitLoses` | mcubridge/mcubridge/services/runtime.py:161-163 | With limit zero a failed publish loses the message and nothing counts it |
| `SpoolLaws.StoreBounded` | mcubridge/mcubridge/services/runtime.py:268-305 | After a spool step the spool is within a positive limit and ends with the new message |
| `SpoolLaws.StoreExact` | mcubridge/mcubridge/services/runtime.py:268-305 | With a positive limit, storing keeps exactly the newest entries that fit and counts exactly the others; a message that cannot be encoded only makes room |
| `SpoolLaws.SectionOutcome` | mcubridge/mcubridge/services/runtime.py:242-249 | A section's message is delivered exactly if its publish succeeds, otherwise stored if it can be and counted as dropped if not |
| `SpoolLaws.FlushExact` | mcubridge/mcubridge/services/runtime.py:307-367 | A flush delivers one readable entry per successful publish and stops exactly when the spool is empty or a publish has failed, that message still at the head |
| `SpoolLaws.DropsNeedFullSpool` | mcubridge/mcubridge/services/runtime.py:273-284 | Over every run, nothing is dropped for the limit unless a section found the spool full |
| `SpoolLaws.OrderIff` | mcubridge/mcubridge/services/runtime.py:241-249 | Over every run with new messages: delivered followed by spooled is at every point an order-preserving subsequence of the order the sections ran, exactly if no section publishes its own message past readable spooled ones |
| `SpoolLaws.SectionOrderIff` | mcubridge/mcubridge/services/runtime.py:241-249 | The same for one section: order is kept exactly if its own publish does not succeed while readable messages are still spooled |
| `SpoolLaws.OrderKept` | mcubridge/mcubridge/services/runtime.py:241-249 | Runs in which no section does that keep the order, for every pattern of outages and any messages |
| `SpoolLaws.OutagesKeepOrder` | mcubridge/mcubridge/services/runtime.py:241-249 | In particular when a section's publishes all fail after one has failed, and all fail if the cloud stream was missing when its flush began |
| `SpoolLaws.Overtakes` | mcubridge/mcubridge/services/runtime.py:241-249 | A concrete outage pattern in which a message overtakes the spool |
| `SpoolLaws.FlushKeepsLine` | mcubridge/mcubridge/services/runtime.py:307-382 | A flush moves messages from the head of the spool to the end of what is delivered and changes nothing else |
| `CloudSpool.CloudSpool.FlushLocked` | mcubridge/mcubridge/services/runtime.py:307-367 | The flush loop does what the recursive definition says, and ends with the spool's length |
| `CloudSpool.CloudSpool.SpoolLocked` | mcubridge/mcubridge/services/runtime.py:268-305 | With a positive limit the spool is left with the newest entries that fit, the new one last, and the drop counter grows by exactly the excess |
| `CloudSpool.CloudSpool.EnqueueLocked` | mcubridge/mcubridge/services/runtime.py:242-249 | Flush, publish, spool or drop, in that order |
| `ProcessSlots.SlotLaw` | mcubridge/mcubridge/services/runtime.py:1152-1236 | For every interleaving: free slots, table entries, launches in progress and leaked slots make the maximum; each launch is in one place and releases at most once |
| `ProcessSlots.LeakFreeIff` | mcubridge/mcubridge/services/runtime.py:1152-1174 | The law holds without leaks exactly if no launch failed with anything but an OSError and no masked pid hit a live key |
| `ProcessSlots.EventsDo` | mcubridge/mcubridge/services/runtime.py:1152-1191 | Each event's effect: a launch takes a free slot, a process enters under its masked pid, an OSError gives the slot back, an ended entry is removed and its slot released for that launch |
| `ProcessSlots.AllSlotsReturn` | mcubridge/mcubridge/services/runtime.py:1176-1191 | Once every live entry has ended, only launches in progress and leaks keep slots |
| `ProcessSlots.ProcessTable.Acquire` | mcubridge/mcubridge/services/runtime.py:1155-1155 | Takes a free slot for a launch |
| `ProcessSlots.ProcessTable.FinishLaunch` | mcubridge/mcubridge/services/runtime.py:1156-1174 | Enters the process under its masked pid, or gives the slot back on an OSError |
| `ProcessSlots.ProcessTable.PopAndRelease` | mcubridge/mcubridge/services/runtime.py:732-742 | Removes an entry and releases its slot only if it was still there |
| `ProcessSlots.ProcessTable.Poll` | mcubridge/mcubridge/services/runtime.py:1193-1227 | Retires the entry exactly when the process has ended and its pipes are drained |
| `HmacPair.HashChunks` | tools/arduino_stub/include/SHA256.h:30-85 | Every split of a message into update calls yields the truncated FIPS 180-4 hash of the whole |
| `HmacPair.BothHmacs` | tools/arduino_stub/include/HMAC.h:16-68 | Both implementations equal section 2 of RFC 2104, and each other, for every key, chunking and output length |
| `HmacPair.SingleHmac` | tools/arduino_stub/include/SHA256.h:87-120 | The HMAC inside the hash object equals RFC 2104 |
| `HmacPair.Hmac.Reset` | tools/arduino_stub/include/HMAC.h:16-44 | The two hashes have absorbed the inner and the outer pad of the key block, for every key length |
| `HmacPair.Hmac.Update` | tools/arduino_stub/include/HMAC.h:46-51 | The inner hash absorbs the data |
| `HmacPair.Hmac.Finalize` | tools/arduino_stub/include/HMAC.h:53-68 | The truncated RFC 2104 code of everything fed in |
| `Sha256.Sha256.Reset` | tools/arduino_stub/include/SHA256.h:17-28 | The object stands for the empty message |
| `Sha256.Sha256.Update` | tools/arduino_stub/include/SHA256.h:30-49 | The object stands for the old message and the data |
| `Sha256.Sha256.Finalize` | tools/arduino_stub/include/SHA256.h:51-85 | The truncated hash of the padded message, one or two padding blocks |
| `Sha256.Sha256.Transform` | tools/arduino_stub/include/SHA256.h:135-202 | The in-place schedule and 64 rounds equal the compression function of section 6.2.2 |
| `Sha256Constants.RoundConstants` | tools/arduino_stub/include/SHA256.h:136-152 | Each round constant is the first 32 bits of the fraction of its prime's cube root |
| `Sha256Constants.InitialValue` | tools/arduino_stub/include/SHA256.h:17-28 | Each word of the initial value is the first 32 bits of the fraction of its prime's square root |
| `Sha256Constants.ArePrimes` | tools/arduino_stub/include/SHA256.h:136-152 | The numbers behind them are primes in ascending order |
| `Sha256.Sha256.RunRounds` | tools/arduino_stub/include/SHA256.h:167-192 | The shifting of eight working variables equals 64 applications of the round function |
| `Sha256.Sha256.Extend` | tools/arduino_stub/include/SHA256.h:161-165 | The in-place schedule equals the specified one |
| `Sha256.Sha256.ResetHmac` | tools/arduino_stub/include/SHA256.h:87-107 | The object stands for the inner pad of the key block |
| `Sha256.Sha256.FinalizeHmac` | tools/arduino_stub/include/SHA256.h:109-120 | The truncated RFC 2104 code |
| `Topics.RoundTrip` | mcubridge/mcubridge/protocol/topics.py:18-22 | For every non-empty prefix, known topic and segments, parsing the printed name gives the topic and the non-empty pieces of the segments |
| `Topics.ParsesIff` | mcubridge/mcubridge/protocol/topics.py:49-75 | Exactly the names that spell prefix, known topic and rest are parsed to that route |
| `Topics.FixedPoint` | mcubridge/mcubridge/protocol/topics.py:49-75 | Rebuilding a parsed route and parsing again changes only the raw text |
| `Topics.FixedPointOwnPrefix` | mcubridge/mcubridge/protocol/topics.py:43-75 | With the route's own prefix this holds exactly if the prefix has a character other than a slash |
| `Topics.PrintedPieces` | mcubridge/mcubridge/protocol/topics.py:18-22 | A printed name spells the pieces of prefix, topic and segments in order |
| `Topics.PrintedName` | mcubridge/mcubridge/protocol/topics.py:18-22 | A printed name is the slash-join of its parts stripped of slashes, the empty ones left out, and neither starts nor ends with a slash |
| `Topics.NormalIff` | mcubridge/mcubridge/protocol/topics.py:18-22 | It is the slash-join of its pieces exactly if no part has two slashes in a row inside |
| `Console.ConservesIff` | mcubridge-library-arduino/src/services/Console.cpp:22-57 | Bytes sent followed by bytes buffered equal the accepted bytes in every run exactly if the buffer fits the message field |
| `Console.RunConserves` | mcubridge-library-arduino/src/services/Console.cpp:22-57 | No pattern of send failures loses, repeats or reorders an accepted byte |
| `Console.ProcessDoes` | mcubridge-library-arduino/src/services/Console.cpp:22-32 | A successful send hands over what the field carries and empties the buffer; a failed one keeps everything |
| `Console.LargerBufferLoses` | mcubridge-library-arduino/src/services/Console.cpp:22-32 | A buffer larger than the field loses bytes in one message |
| `Console.ConsoleClass.WriteByte` | mcubridge-library-arduino/src/services/Console.cpp:34-41 | Accepts the byte or reports zero |
| `Console.ConsoleClass.WriteBytes` | mcubridge-library-arduino/src/services/Console.cpp:43-57 | Returns the length of the prefix it accepted, through up to two sends |
| `Console.ConsoleClass.ProcessTx` | mcubridge-library-arduino/src/services/Console.cpp:22-32 | Sends and clears, or keeps everything when the send fails |
| `Console.ConsoleClass.Push` | mcubridge-library-arduino/src/services/Console.cpp:15-20 | Appends the prefix that fits |
| `Console.ConsoleClass.Read` | mcubridge-library-arduino/src/services/Console.cpp:61-66 | The oldest byte, or -1 |

## Left out

- HKDF, HMAC inside the handshake, ChaCha20-Poly1305, CRC32, COBS/R and protobuf: library code; used through functions with round-trip assumptions.
- Agreement after a firmware restart, or with a repeated random nonce: the stale reply of a repeated nonce could then be accepted.
- LinkExact.FirstFrameAcceptedIff: stands, with Daemon.AcceptedIffAboveFloor, in place of "no false reject" from firmware to daemon, which does not hold across sessions.
- McuRuns.SealedIncrease: up to the wrap of the 64-bit counter, which the firmware does not guard.
- Link.NoFalseReject: for two different secrets it assumes that no nonce is given one tag and two keys, which the key derivation does not promise for arbitrary functions; with one secret of at most 64 bytes it is a fact.
- SqliteDeque.SqliteDeque.Append: a second storage error in one operation, a failed file removal and the in-memory path; the operation then raises or the length goes stale.
- SpoolLaws.Conservation: storage errors during a spool step and the cancellation of a task that waits for the lock; neither is counted by the service.
- Transport.SerialTransport.Send: an exception out of the low-level write (the nonce counter's overflow) leaves the send by its cleanup path, and task cancellation likewise.
- ProcessSlots.SlotLaw: speaks of table entries; a monitor that outlives its entry may retire a newer process under the same masked pid, and the law still holds.
- Delivery of frames queued behind an acknowledged one, and end-to-end exactly-once execution: the firmware drops the whole queue, and each daemon retry takes a new sequence id.
- Overlapping calls of synchronize(): the daemon makes one at a time.
- Handler bodies of the firmware's services: only their sends, their decoding outcome and their acknowledgement style matter to the link.
- Reads of a payload union through another member's fields in the firmware: a frame is taken as the variant it carries.
- An unreliable encrypted send of more than 64 bytes: payloads are cut to the field size in the model, as the reliable path does.
- Timer periods, back-off, jitter, rate limits and metrics: only which timer fires, and whether a response was throttled.
- Baud-rate negotiation, serial port opening, gRPC and IPC plumbing, configuration and code generators: device and network plumbing with easy or no invariants.
- Pins, SPI, watchdog and bootloader: only the forcing of safe pins is recorded.
