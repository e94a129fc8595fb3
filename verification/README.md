# Akraz: verified model

Akraz shares one keyboard and mouse between machines. While control is local, a pointer movement
across a bound screen edge asks a peer to take over; while control is remote, captured input is
forwarded to the peer as numbered frames and injected there. The property everything serves is that
no key or button stays pressed on a machine whose user can no longer release it.

The project models, in Dafny, the parts of Akraz on which that property and its supporting protocols
rest, and proves them for all inputs and all runs.

| files | what they model |
|---|---|
| `CoreState`, `RuntimeInput`, `CoreRuns`, `CoreLog` | the control state machine: its transition function, the class that keeps the fields of the source and refines it, theorems over whole runs, and the same machine as a function of its log |
| `Geometry`, `Router` | edge-crossing geometry in saturating 32-bit arithmetic, and the routing of captured input |
| `Decimal`, `WireCommands`, `Frames` | the payloads of commands, key and button names, and the frames |
| `PeerReceiver`, `ReceiverGuarantees`, `PeerSender`, `ManagedSession` | the peer session: executor loop with its release guard, shared sequence counter, dispatch of actions |
| `EndToEnd`, `Delivery` | the whole pipeline from captured input to the remote platform: what never stays pressed, and what is delivered |
| `Utf8`, `Capabilities`, `Transcript`, `Handshake` | the signed transcript and the authenticated prelude |
| `Text`, `Discovery`, `DiscoveryRoundTrip`, `DiscoveryErrors` | DNS-SD TXT records (section 6 of RFC 6763) |
| `IdentityStore`, `PairingCode`, `Pairing`, `PairedSession` | the trust store, the verification code, the pairing flow, and the sessions of paired devices |
| `Backoff`, `Latency` | reconnect backoff and latency summaries |
| `Layout`, `LayoutPreview` | the layout check and the crossing preview of the user interface |
| `Wrappers`, `Ints` | optional values, results and machine integers |

Objects whose methods change their fields are classes, loops are loops, and each such method is proved
against a function of the old state; the theorems are about those functions. A platform that may fail
is a history of calls with an arbitrary oracle saying which of them succeed; a channel may drop,
repeat, reorder and tear frames; the heartbeat thread and the dispatchers appear as an arbitrary
interleaving of uses of the lock they share. Every lemma switches automatic induction off, so that each
proof by induction shows its own recursive call.

What the proofs brought out:

- A recovery batch starts with the release of local inputs, and the dispatcher in front of the
  transport returns at the first failure (`crates/akraz-daemon/src/lib.rs:250-276`). If that local
  release fails while the peer holds a key, the release and the stop meant for the peer are never
  sent, and since the state machine is already back in Local mode a repeated recovery does not send
  them either. `Delivery.LostReleaseLeavesAKeyDown` is such a run. As long as each batch is applied and
  dispatched without another thread in between, `EndToEnd.StepIsSafeExactly` shows that, apart from a
  failed release on the peer's own platform, this is the only way in which a step can break the
  property.
- The capture worker applies input under the state lock and dispatches the actions after giving it up
  (`crates/akraz-daemon/src/lib.rs:3115-3130`, `crates/akraz-daemon/src/lib.rs:3581-3591`). A recovery
  and a new session that come in between let a late press go down in the new session under local
  control, where no recovery releases it, although nothing has failed (`Delivery.LatePressStaysDown`).
  Without the new session a late batch does no harm (`Delivery.LateBatchesNeedANewSession`).
- A write that fails at its newline is reported as failed although its frame may still be executed
  (`crates/akraz-daemon/src/lib.rs:1863-1876`, `PeerSender.FailedWriteMayBeExecuted`).
- The receiver contributes nothing of its own to the signed transcript, so a recorded prelude opens a
  session again (`Handshake.RecordedPreludeOpensAgain`).
- A rectangle of positive size whose origin is the largest 32-bit integer makes the clamp range of
  `crates/akraz-core/src/lib.rs:258-273` inverted, which would panic; no crossing ever reaches it,
  because such a rectangle contains no point.
- A left or top edge that lies at the least 32-bit integer cannot be crossed, since the tracked pointer
  saturates there (`Router.StepOutCrossesExactly`).

`dafny verify dfyconfig.toml` checks the project.

## Model

| member | source | states |
|---|---|---|
| `EndToEnd.NothingStaysPressedFromTheStart` | crates/akraz-core/src/lib.rs:526-803 | Main theorem, from a fresh machine with any layout: over every run of runtime events, drains of captured input, desktop inspections, heartbeats, attaches, detaches and read failures, with any write, local release and peer platform call failing, after every prefix either the latest release on the peer's own platform has failed, or in Remote mode the peer holds only what is held locally and in every other mode nothing, if and only if no step loses a release. A step loses one when the local release of a recovery fails while the peer holds something it can release: an event and an inspection are judged by the state before them, a drain by the state in which its panic chord finds the two machines |
| `EndToEnd.NothingStaysPressed` | crates/akraz-daemon/src/lib.rs:281-337 | The same equivalence from any good world |
| `EndToEnd.StepIsSafeExactly` | crates/akraz-daemon/src/lib.rs:245-276 | One step from a good world keeps the claim if and only if it does not lose a release, which is a condition on the state before the event, the inspection, or the panic chord of the drain |
| `EndToEnd.BatchIsSafeExactly` | crates/akraz-daemon/src/lib.rs:3115-3130 | The same for the batch of an event, of a drain of captured input, or of a desktop inspection, from dispatching to the state of the peer |
| `EndToEnd.LosesReleaseAtAStop` | crates/akraz-daemon/src/lib.rs:250-276 | The condition on the state before the step is met exactly when dispatching the batch stops at a failed local release and leaves the peer holding something it could release |
| `EndToEnd.DrainStopsExactly` | crates/akraz-daemon/src/lib.rs:3563-3579 | A drain of captured input stops at a failed local release exactly if one of its inputs is the panic chord, everything the inputs before it caused is dispatched, and the release of local inputs that follows fails |
| `EndToEnd.EventStopsExactly` | crates/akraz-daemon/src/lib.rs:250-276 | The batch of an event or an inspection stops exactly if it is a recovery and its local release fails |
| `EndToEnd.OnlyTheChordReleasesLocally` | crates/akraz-core/src/lib.rs:552-566 | Of all captured inputs only the panic chord releases local inputs, and always as its first action |
| `EndToEnd.LosingIsRisking` | crates/akraz-daemon/src/lib.rs:245-276 | What the daemon can see of it: a release is lost only if control was remote and a local release in the batch failed, and for a single event only if some key or button was pressed |
| `EndToEnd.RunsWithoutRiskAreSafe` | crates/akraz-daemon/src/lib.rs:245-276 | A run whose local releases succeed whenever control is remote and something is pressed loses no release and keeps the claim |
| `EndToEnd.FailedReleaseReachesNobody` | crates/akraz-daemon/src/lib.rs:250-276 | For every recovery event, the panic chord and a changed desktop, in every mode: local inputs are released first, and when that fails nothing of the batch reaches the peer |
| `EndToEnd.LocalRecoveryDoesNotReachThePeer` | crates/akraz-core/src/lib.rs:692-713 | A recovery in Local mode releases local inputs only; nothing is sent |
| `EndToEnd.DispatchingABatch` | crates/akraz-daemon/src/lib.rs:325-337 | The part of a batch before a failed local release leaves the peer holding what that part says, unless the session died or a release of the peer failed |
| `EndToEnd.DispatchingACommand` | crates/akraz-daemon/src/lib.rs:1199-1227 | One dispatched command has its effect on the peer whatever becomes of the write and of the platform call; a stop or a failed dispatch ends the session |
| `EndToEnd.StepMaintains` | crates/akraz-core/src/lib.rs:526-766 | What the actions of one event do to the peer fits the mode the event leads to |
| `EndToEnd.DrainMaintains` | crates/akraz-daemon/src/lib.rs:3563-3579 | The same for the concatenated actions of a whole drain of captured input |
| `EndToEnd.DrainsAreRuns` | crates/akraz-daemon/src/lib.rs:3563-3579 | A drain of captured input is a run of the machine with one event for each input: it has the state and the actions of that run |
| `EndToEnd.RoutedByMode` | crates/akraz-daemon/src/lib.rs:3593-3617 | In that run an input is a local pointer movement exactly if it is a movement and control is local at that point; in every other mode every input is plain input |
| `Delivery.FaultlessRunsFromTheStart` | crates/akraz-daemon/src/lib.rs:281-337 | Over every run without failures and with sequence numbers left, the peer holds exactly what the actions say: the fold of the inputs forwarded to the attached session since the last release |
| `Delivery.FaultlessRunsDeliverExactly` | crates/akraz-daemon/src/lib.rs:281-337 | The same from any world that agrees with the fold, which stays in step with it |
| `Delivery.PressReachesThePeer` | crates/akraz-core/src/lib.rs:552-566 | In Remote mode every input that is not the panic chord, once its frame is written, is injected at the peer, and both ends stay in step |
| `Delivery.DeliveringACommand` | crates/akraz-daemon/src/lib.rs:700-716 | A written command whose platform call succeeds makes exactly that call and keeps both ends in step |
| `Delivery.BatchAgrees` | crates/akraz-daemon/src/lib.rs:325-337 | A batch without failures changes the peer as the fold over its actions says, a refused start and a stop included |
| `Delivery.LateBatchIsSafeExactly` | crates/akraz-daemon/src/lib.rs:3115-3130 | When other threads act between applying captured input and dispatching its actions, and nothing fails, the claim holds after the late dispatch exactly if what the batch adds to the fold fits the mode control has by then |
| `Delivery.LateBatchesMayRelease` | crates/akraz-daemon/src/lib.rs:3115-3130 | Under any failures, a late batch without presses keeps the claim outside Remote mode |
| `Delivery.LateBatchesNeedANewSession` | crates/akraz-daemon/src/lib.rs:3115-3130 | Under any failures, once a batch with a stop got past its local releases, any late batch whatever leaves a good world unless a session is attached first |
| `Delivery.LatePressStaysDown` | crates/akraz-daemon/src/lib.rs:3581-3591 | With a new session attached in between it fails although nothing else does: from every faultless world in Remote mode, a press applied before a recovery and dispatched after the next attach is held by the new session under local control, and a second recovery does not release it |
| `Delivery.LostReleaseLeavesAKeyDown` | crates/akraz-daemon/src/lib.rs:250-276 | The condition of the main theorem is needed: a concrete run in which the local release of a recovery fails, after which the machine is fresh and local, the key is still down at the peer, and a second recovery in which nothing fails does not release it |
| `RuntimeInput.RuntimeInputState.constructor` | crates/akraz-core/src/lib.rs:479-484 | A new machine is valid and abstractly Fresh |
| `RuntimeInput.RuntimeInputState.ApplyEvent` | crates/akraz-core/src/lib.rs:526-550 | Every event keeps the invariant (ids present exactly in the modes they belong to, modifier flags equal to membership in the pressed keys) and has the state and response of one abstract step |
| `RuntimeInput.RuntimeInputState.ApplyInput` | crates/akraz-core/src/lib.rs:552-566 | Input is recorded, completes the panic chord, or is forwarded exactly in Remote mode |
| `RuntimeInput.RuntimeInputState.ApplyLocalPointerMove` | crates/akraz-core/src/lib.rs:579-598 | A pointer move is refused outside Local mode, remembered without a crossing, and starts a session with one |
| `RuntimeInput.RuntimeInputState.RequestRemoteEntry` | crates/akraz-core/src/lib.rs:600-618 | Entry is accepted in Local mode only and sets the pending peer |
| `RuntimeInput.RuntimeInputState.RequestRemoteEntryFromCrossing` | crates/akraz-core/src/lib.rs:620-640 | Entry through a crossing keeps the crossing and moves the pointer to the exit |
| `RuntimeInput.RuntimeInputState.ConfirmRemoteEntry` | crates/akraz-core/src/lib.rs:642-665 | Confirmation moves the pending peer to active; the missing-pending branch is unreachable |
| `RuntimeInput.RuntimeInputState.RequestRemoteLeave` | crates/akraz-core/src/lib.rs:667-690 | Leaving releases remote inputs if there is anything to release and always stops the session by its id |
| `RuntimeInput.RuntimeInputState.HandlePanicHotkey` | crates/akraz-core/src/lib.rs:692-713 | Recovery clears everything, releases local inputs, and also remote ones unless the mode was Local or Suspended |
| `RuntimeInput.RuntimeInputState.HandleRecoveryInterrupt` | crates/akraz-core/src/lib.rs:715-721 | The recovery interrupts behave as the panic hotkey |
| `RuntimeInput.RuntimeInputState.ConfirmLocalControl` | crates/akraz-core/src/lib.rs:723-734 | Accepted in LeavingRemote only, and then control is local |
| `RuntimeInput.RuntimeInputState.HandleTransportLost` | crates/akraz-core/src/lib.rs:736-753 | A lost transport suspends and releases remote inputs if a session or a press existed |
| `RuntimeInput.RuntimeInputState.CompleteRecovery` | crates/akraz-core/src/lib.rs:755-766 | Accepted in Suspended only, and then control is local |
| `RuntimeInput.RuntimeInputState.RecordInput` | crates/akraz-core/src/lib.rs:768-792 | Presses and releases update the sets and the mirrored flags together |
| `RuntimeInput.RuntimeInputState.ClearInput` | crates/akraz-core/src/lib.rs:794-798 | No key, button or modifier stays set |
| `RuntimeInput.UpdateKeyMirrors` | crates/akraz-core/src/lib.rs:128-142 | Updating the flags mirrors inserting or removing the key |
| `RuntimeInput.ReplayRuntimeEvents` | crates/akraz-core/src/lib.rs:813-824 | A replay returns the actions and the state of the abstract run, or the first error |
| `CoreLog.TheLogDecides` | crates/akraz-core/src/lib.rs:526-803 | After every run, whether the next event is accepted, the error if it is not, and the exact actions if it is are determined by the log alone: by the latest entry that handed over control, the latest start and confirmation, and the presses that nothing has undone since |
| `CoreLog.TheStateIsInTheLog` | crates/akraz-core/src/lib.rs:526-803 | After every run the mode, the pending or active peer, the session, the remembered pointer and every held key and button are what the log says |
| `CoreRuns.RejectionChangesNothing` | crates/akraz-core/src/lib.rs:526-766 | An event is rejected exactly when its mode guard fails, the error names the mode, and the state is unchanged |
| `CoreRuns.ReplayIsARun` | crates/akraz-core/src/lib.rs:813-824 | A replay succeeds exactly when no event of the run is rejected, with the same state and actions |
| `CoreRuns.ForwardsExactlyTheRemoteInputs` | crates/akraz-core/src/lib.rs:552-577 | Over every run the forwarded inputs are exactly the non-panic inputs received in Remote mode, in order |
| `CoreRuns.RunIsWatched` | crates/akraz-core/src/lib.rs:552-753 | The log of every run is well bracketed: an automaton over starts, forwards, releases and stops never gets stuck and agrees with the mode |
| `CoreRuns.ForwardingIsInsideASession` | crates/akraz-core/src/lib.rs:552-640 | Every forwarded input has a session start before it with no end of session in between |
| `CoreRuns.ForwardingIsReleased` | crates/akraz-core/src/lib.rs:667-753 | Once Remote mode is left, every forwarded input is followed by a release of remote inputs before any new start |
| `CoreRuns.SessionsDoNotOverlap` | crates/akraz-core/src/lib.rs:600-753 | Between two session starts lies a stop or a lost transport |
| `CoreRuns.SessionsAreConserved` | crates/akraz-core/src/lib.rs:642-753 | Conservation: each confirmation of a session id is matched by exactly one stop with that id, one lost transport, or a session still live |
| `CoreRuns.PointerIsIrrelevant` | crates/akraz-core/src/lib.rs:579-598 | The remembered pointer never influences an action, an error or the rest of the state |
| `CoreRuns.RecoveryIsAFreshStart` | crates/akraz-core/src/lib.rs:692-721 | After any run, each recovery event and the chord of either Control, either Alt and Backspace leads to a machine that no continuation can tell from a fresh one |
| `CoreRuns.ReturningIsAFreshStart` | crates/akraz-core/src/lib.rs:723-766 | After any run, leaving a session and confirming local control, and losing the transport and completing the recovery, are accepted and lead to a machine that no continuation can tell from a fresh one |
| `Geometry.CrossedEdge` | crates/akraz-core/src/lib.rs:351-384 | The edge chosen is crossed, has the largest saturated overshoot, ties going Left, Right, Top, Bottom; none is chosen exactly when none is crossed |
| `Geometry.SelectCrossedEdge` | crates/akraz-core/src/lib.rs:386-400 | The running choice is replaced only by a strictly larger overshoot |
| `Geometry.WinnerIsSelected` | crates/akraz-core/src/lib.rs:351-384 | At most one edge wins |
| `Geometry.LeavingSelectsAnEdge` | crates/akraz-core/src/lib.rs:326-384 | For all i32 inputs, a movement from inside to outside selects an edge |
| `Geometry.FirstBindingIsFirst` | crates/akraz-core/src/lib.rs:308-312 | The lookup returns the first binding of an edge, and none exactly when there is none |
| `Geometry.CrossingIsReportedExactly` | crates/akraz-core/src/lib.rs:326-349 | A crossing is reported exactly for a movement out whose winning edge is bound; its offset is the coordinate of the desktop closest to the point reached |
| `Geometry.LeavesOnTheFartherSide` | crates/akraz-core/src/lib.rs:326-384 | The selected edge is the one on whose side the movement ends farther outside, measured as the distance to the desktop capped to i32; an equally far corner counts as left or right |
| `Geometry.ClampRangeInvertedExactlyAtTheLimit` | crates/akraz-core/src/lib.rs:245-273 | A rectangle of positive size has an inverted clamp range exactly when its origin is at the i32 maximum, and then it contains no point; the clamp functions require the ordered range and every call meets it |
| `Router.CapturedInputIsAlwaysAccepted` | crates/akraz-daemon/src/lib.rs:3593-3617 | Routed captured input never causes a transition error |
| `Router.CapturedInputRouter.constructor` | crates/akraz-daemon/src/lib.rs:2539-2547 | The router starts with its layout and pointer |
| `Router.CapturedInputRouter.ApplyRoutedCaptureEvent` | crates/akraz-daemon/src/lib.rs:3593-3617 | Pointer deltas move the tracked pointer and are offered to the crossing test under local control; everything else is plain input. The next three rows say where the pointer goes |
| `Router.PointerFollowsTheMovements` | crates/akraz-daemon/src/lib.rs:3598-3616 | Over every drain under local control each coordinate of the tracked pointer walks along the captured deltas, after each to the closest i32, and the machine remembers the point reached last |
| `Router.WalkIsTheSum` | crates/akraz-daemon/src/lib.rs:3603-3606 | Where no partial sum leaves the range of an i32, the walk ends at the start plus the sum of the deltas |
| `Router.StepOutCrossesExactly` | crates/akraz-daemon/src/lib.rs:3598-3616 | For each of the four edges and all deltas: a captured movement straight out through the edge starts the session of its first binding, with that edge, the point reached and the offset along the edge, exactly if the edge is bound and does not lie at the least i32 |
| `Router.CapturedInputRouter.DrainReadyCaptureEvents` | crates/akraz-daemon/src/lib.rs:3563-3579 | A drain takes at most the given number of events off the queue and has the state and actions of routing them in turn |
| `Router.BatchingIsIrrelevant` | crates/akraz-daemon/src/lib.rs:2769-2784 | Two ways of cutting one captured stream into batches give the same state and the same actions |
| `Router.CapturedInputRouter.InspectDesktop` | crates/akraz-daemon/src/lib.rs:3465-3480 | An inspection that finds other bounds recovers local control; after a successful dispatch the router takes over the new bounds and pointer, otherwise it keeps its own |
| `Router.FailedInspectionsAreRepeated` | crates/akraz-daemon/src/lib.rs:3465-3480 | An inspection that finds another desktop recovers; it takes over bounds and pointer exactly if that was dispatched, and otherwise the next inspection that finds the same desktop recovers again; the bindings stay |
| `Router.NoSecondCrossingBeforeReentry` | crates/akraz-daemon/src/lib.rs:3465-3480 | Between two sessions started by the pointer, either a captured movement under local control brings the tracked pointer back inside the bounds, or an inspection replaces bounds and pointer by those of a changed desktop |
| `Router.LayoutChangeAllowsASecondCrossing` | crates/akraz-daemon/src/lib.rs:3465-3480 | The second alternative is needed: a run in which the desktop grows between two crossings and the pointer never moves back |
| `WireCommands.CommandRoundTrip` | crates/akraz-daemon/src/lib.rs:2264-2311 | Decoding the payload of any command, all u16 key and button codes included, gives the command back |
| `WireCommands.KeyNameRoundTrip` | crates/akraz-daemon/src/lib.rs:2449-2475 | Parsing the name of any key gives the key back |
| `WireCommands.ButtonNameRoundTrip` | crates/akraz-daemon/src/lib.rs:2477-2497 | Parsing the name of any button gives the button back |
| `WireCommands.AcceptedKeyNames` | crates/akraz-daemon/src/lib.rs:2463-2511 | Exactly which strings denote a key (for a numbered key: the prefix, an optional plus sign, leading zeros, the number), and printing an accepted name is stable |
| `WireCommands.AcceptedButtonNames` | crates/akraz-daemon/src/lib.rs:2488-2511 | The same for buttons |
| `WireCommands.AcceptedEdgeAndStateNames` | crates/akraz-daemon/src/lib.rs:2420-2447 | Edges and press states are accepted under their one name only |
| `WireCommands.NameErrorsAreTrue` | crates/akraz-daemon/src/lib.rs:2463-2511 | A name is refused whole; one that starts like a numbered key or button is refused with what follows as no number |
| `WireCommands.PayloadsDecodeExactly` | crates/akraz-daemon/src/lib.rs:2286-2430 | A payload decodes exactly if every name in it is accepted; otherwise the first that is not is reported |
| `Decimal.ParsesExactlyTheSpellings` | crates/akraz-daemon/src/lib.rs:2499-2511 | The number parser accepts exactly the decimal spellings of the numbers that fit 16 bits |
| `Decimal.ParseInvertsPrint` | crates/akraz-daemon/src/lib.rs:2449-2511 | Parsing a printed u16 gives it back |
| `PeerSender.SessionStream.constructor` | crates/akraz-daemon/src/lib.rs:625-631 | Numbering starts at 0 |
| `PeerSender.SessionStream.NextSequence` | crates/akraz-daemon/src/lib.rs:632-638 | Each number is handed out once and in order; the last u64 never is |
| `PeerSender.SessionStream.WriteFrame` | crates/akraz-daemon/src/lib.rs:1863-1876 | A write leaves on the wire a whole line, nothing, a torn line, or the whole frame without its newline; only the first is a success |
| `PeerSender.SessionStream.WriteCommandFrame` | crates/akraz-daemon/src/lib.rs:1878-1885 | A command uses up a number even if its write fails |
| `PeerSender.SessionStream.WriteHeartbeatFrame` | crates/akraz-daemon/src/lib.rs:1887-1893 | A heartbeat uses up a number from the same counter |
| `PeerSender.WireFramesAreNumberedSteps` | crates/akraz-daemon/src/lib.rs:632-639 | A frame on the wire carries the number of the lock use that wrote it, and is a whole line exactly if that write succeeded |
| `PeerSender.StreamsCarry` | crates/akraz-daemon/src/lib.rs:2098-2117 | What is read line by line from an ordered stream that ends is an instance of the channel of the next row; a last line without newline is read as a frame |
| `PeerSender.ExecutedCommandsAreAPrefix` | crates/akraz-daemon/src/lib.rs:618-677 | For every interleaving of heartbeats and dispatchers and every channel that drops, repeats, reorders or tears frames, the receiver executes exactly the commands of the first k lock uses: its platform calls are theirs in order, and a session that ends at the next item adds its failed call, if it made one, and a release exactly if these commands owe one; all k writes succeeded, except that the last may have failed at its newline with the stream ending there: a number lost to a failed write blocks everything after it |
| `PeerSender.FailedWriteMayBeExecuted` | crates/akraz-daemon/src/lib.rs:1863-1876 | The exception occurs: a command whose newline could not be written is executed when the stream then ends |
| `PeerSender.StreamsReadExactly` | crates/akraz-daemon/src/lib.rs:1863-1876 | A stream is read as one item for each line with a newline and one for an unended line at its end; a line that is garbled or glued to an unended one before it is a failed read |
| `PeerSender.WhatAWriteLeaves` | crates/akraz-daemon/src/lib.rs:1863-1876 | What each outcome of a write leaves for the reader, at the end of the stream and before the line of another frame |
| `PeerSender.FaithfulSessionsExecuteEverything` | crates/akraz-daemon/src/lib.rs:1805-1828 | With no failure, up to 2^64 - 1 frames are all executed: both ends agree on the last usable number |
| `PeerReceiver.SessionSequence.AcceptNumber` | crates/akraz-daemon/src/lib.rs:1810-1828 | Only the expected number is accepted; the maximum is matched but cannot be counted past |
| `PeerReceiver.ExecuteCommand` | crates/akraz-daemon/src/lib.rs:1831-1861 | A command makes its platform call, if any, and reports its outcome or the failure |
| `PeerReceiver.ReleaseInputsAfterError` | crates/akraz-daemon/src/lib.rs:1785-1803 | On the error path a release is attempted exactly when one is owed |
| `PeerReceiver.ExecuteFramesUntilClosed` | crates/akraz-daemon/src/lib.rs:1641-1767 | The executor loop makes the platform calls and returns the result that the stream semantics prescribes, for every stream and every pattern of platform failures |
| `ReceiverGuarantees.EveryExitReleases` | crates/akraz-daemon/src/lib.rs:1641-1803 | However the loop ends, whatever the platform held before, a release was attempted after the last successful injection; if the result is Ok it succeeded, and nothing is held if nothing was held at the start |
| `ReceiverGuarantees.ReceivingIsGuarded` | crates/akraz-daemon/src/lib.rs:1769-1783 | While running, a lowered guard means every injection was released; once ended, the release has been attempted |
| `ReceiverGuarantees.HoldingIsGuarded` | crates/akraz-daemon/src/lib.rs:1769-1783 | A receiver with its guard down holds nothing; an ended one holds nothing unless the release it owed failed |
| `ReceiverGuarantees.ReceiveIsAccounted` | crates/akraz-daemon/src/lib.rs:1785-1803 | Unless the latest release failed, a receiver with its guard down and one that has ended hold nothing; every item of the stream keeps this |
| `ReceiverGuarantees.ExecutesAnInOrderPrefix` | crates/akraz-daemon/src/lib.rs:1641-1767 | The receiver executes the commands of some gap-free prefix of its stream, in order, and makes their platform calls. It is still running exactly after the whole stream; otherwise it ended at the next item, with the error that item gives, after its failed call if the platform failed, and after a release exactly if the executed commands owe one |
| `ReceiverGuarantees.ServesExactly` | crates/akraz-daemon/src/lib.rs:1641-1767 | A whole session on every stream and under any failures: exactly which platform calls are made and what the result is. With an Ok result it lists the commands of the stream in order, and one more release exactly if one was owed |
| `ReceiverGuarantees.GuardIsOwed` | crates/akraz-daemon/src/lib.rs:1769-1783 | The guard is up exactly if some executed start or forward has no executed release after it |
| `ReceiverGuarantees.HeldExactly` | crates/akraz-daemon/src/lib.rs:1831-1861 | A key or button is held exactly if a press of it was injected successfully and no later successful call let it go |
| `ReceiverGuarantees.InOrderSessionsEndWell` | crates/akraz-daemon/src/lib.rs:1805-1828 | On a platform that never fails, the sessions that stay up are exactly those numbered without a gap |
| `ReceiverGuarantees.HeartbeatsCarryNoMeaning` | crates/akraz-daemon/src/lib.rs:1641-1767 | Erasing heartbeats and renumbering the commands changes neither platform calls nor outcomes |
| `Handshake.ExecutePairedSession` | crates/akraz-daemon/src/lib.rs:1576-1639 | No platform call before a compatible Hello with a nonce from a trusted device, that device's proof and a SessionReady with base 0; after them the session is executed; anything else fails at its first fault and leaves the platform alone. The next two rows say whose frames these are |
| `Handshake.OpenedByTrustedDevicesExactly` | crates/akraz-daemon/src/lib.rs:1598-1639 | A stream opens a session if and only if it starts with the three frames that a trusted device makes for this receiver, signed with the key stored for that device; the minor version, the requested id, the session id and the announced capabilities are free |
| `Handshake.AcceptedProofIsTheDevicesOwn` | crates/akraz-protocol/src/lib.rs:323-360 | The accepted proof is exactly the one the trusted device makes: under its own id and role, over bytes that decode to both ids, its nonce and capabilities, the version and capabilities of the listener, and zeros for the other nonce and the channel binding |
| `Handshake.InitiatorStartsExactly` | crates/akraz-daemon/src/lib.rs:482-551 | An initiator starts exactly if the stored peer is the requested one and both ids can be signed; it announces the capabilities both sides have |
| `Handshake.HonestProofAcceptedExactly` | crates/akraz-daemon/src/lib.rs:482-551 | An honest, trusted initiator is accepted exactly when the peer id and the capabilities it has stored are the receiver's own |
| `PairedSession.PairingStoresThePeer` | crates/akraz-daemon/src/lib.rs:908-1001 | Starting and accepting a pairing with the document of another genuine device makes the store load that device, its key and the reduced capabilities of its document |
| `PairedSession.PairedDevicesOpenSessionsExactly` | crates/akraz-daemon/src/lib.rs:482-551 | Two genuine devices with different ids that paired with each other's documents: the first builds its prelude exactly when both ids fit their length field, and the second then accepts it exactly when the capabilities in its own document reduce to those of a peer session |
| `Handshake.ProofBindsTheSession` | crates/akraz-protocol/src/lib.rs:301-360 | One signature opens sessions of one device, nonce, capability set and receiver only |
| `Handshake.RecordedPreludeOpensAgain` | crates/akraz-daemon/src/lib.rs:114-132 | The receiver adds no nonce of its own: a prelude that opened a session opens one again, whatever follows it |
| `Transcript.ByteBuffer.WriteCanonical` | crates/akraz-protocol/src/lib.rs:233-248 | Encoding fails exactly when a device id exceeds 65535 bytes, the local one reported first, and otherwise appends the canonical bytes |
| `Transcript.ByteBuffer.WriteLenPrefixedStr` | crates/akraz-protocol/src/lib.rs:465-483 | A field is refused exactly above the limit, and then nothing is appended |
| `Transcript.ByteBuffer.WriteTail` | crates/akraz-protocol/src/lib.rs:240-247 | The fixed-size fields are appended in order |
| `Transcript.LengthIsTheCapacityHint` | crates/akraz-protocol/src/lib.rs:250-265 | The capacity hint is the exact length |
| `Transcript.DecodeOfCanonical` | crates/akraz-protocol/src/lib.rs:226-248 | A decoder recovers every field of the transcript and leaves the rest of the bytes untouched |
| `Transcript.CanonicalIsPrefixFree` | crates/akraz-protocol/src/lib.rs:226-248 | No encoding is a prefix of another; in particular the encoding is injective |
| `Transcript.SignedBytesAreLabelled` | crates/akraz-protocol/src/lib.rs:226-248 | The signed bytes start with the version, the length of the label and the label |
| `Utf8.DecodeOfEncode` | crates/akraz-protocol/src/lib.rs:465-483 | Device ids are recovered from their UTF-8 bytes |
| `Capabilities.WithSetsOneFlag` | crates/akraz-protocol/src/lib.rs:95-165 | Setting a flag sets that one and keeps the others |
| `Capabilities.FlagsDetermineKnownSets` | crates/akraz-protocol/src/lib.rs:95-165 | A set of known flags is determined by its members |
| `Capabilities.WireBitsKeepKnownFlags` | crates/akraz-protocol/src/lib.rs:120-122 | Dropping unknown wire bits keeps every known flag |
| `Capabilities.SharedFlagsAreCommon` | crates/akraz-protocol/src/lib.rs:135-137 | The shared flags are those that both sides have |
| `ManagedSession.ManagedPeerSession.constructor` | crates/akraz-daemon/src/lib.rs:801-804 | No session is attached at first |
| `ManagedSession.ManagedPeerSession.Attach` | crates/akraz-daemon/src/lib.rs:1027-1040 | A session is attached only if none is; numbering restarts at 0 |
| `ManagedSession.ManagedPeerSession.Disconnect` | crates/akraz-daemon/src/lib.rs:1101-1111 | The attached session, if any, is closed |
| `ManagedSession.ManagedPeerSession.DispatchTransportCommand` | crates/akraz-daemon/src/lib.rs:1199-1227 | Without a session a command succeeds silently; a start for another peer is refused; a refusal, a failed write and a stop detach the session |
| `ManagedSession.ManagedPeerSession.SendHeartbeat` | crates/akraz-daemon/src/lib.rs:1887-1893 | A heartbeat moves the counter and the wire only; a failed one does not detach the session |
| `ManagedSession.ManagedPeerSession.DispatchCoreAction` | crates/akraz-daemon/src/lib.rs:250-300 | Local releases go to the platform, remote actions become commands, the rest is dropped |
| `ManagedSession.ManagedPeerSession.DispatchCoreActions` | crates/akraz-daemon/src/lib.rs:245-337 | A batch stops at its first failure |
| `ManagedSession.ActionsArriveUnchanged` | crates/akraz-daemon/src/lib.rs:280-300 | Every action that concerns the peer survives being turned into a command, a payload, a command again and an outcome, with its peer, crossing, input or session; exactly the idle notice and the local release stay at home |
| `ManagedSession.StaysAttachedExactly` | crates/akraz-daemon/src/lib.rs:1199-1227 | Over every sequence of commands and heartbeats the session stays attached exactly until a command is refused, stops it, fails to be written or finds the numbers used up; every use takes one number |
| `ManagedSession.SessionsAreStreams` | crates/akraz-daemon/src/lib.rs:618-677 | What the peer reads over a whole managed session, however it ends, is the stream of the numbered lines of its uses |
| `Discovery.BuildDiscoveryTxtRecord` | crates/akraz-discovery/src/lib.rs:504-527 | Entries in the advertised order, optional ones only when present |
| `Discovery.BuiltInOrder` | crates/akraz-discovery/src/lib.rs:504-527 | The entries of a record, spelled out: v, device_id, caps and build, then display_name, identity_public_key and fingerprint as far as given |
| `Discovery.CapabilityNames` | crates/akraz-discovery/src/lib.rs:851-867 | The names of the set flags in the fixed order |
| `Discovery.CollectTxtFields` | crates/akraz-discovery/src/lib.rs:699-732 | The loop collects the map of the recursive specification or its first error |
| `Discovery.ParseCapabilityList` | crates/akraz-discovery/src/lib.rs:818-849 | The loop accumulates the flags of the specification or its first error; the empty-list error is unreachable |
| `Discovery.ParseDiscoveryTxtRecord` | crates/akraz-discovery/src/lib.rs:462-501 | Parsing returns the record or the first error of collecting and reading the fields |
| `Discovery.CapabilitiesRoundTrip` | crates/akraz-discovery/src/lib.rs:818-867 | The advertised list of a non-empty set of known capabilities parses to that set |
| `DiscoveryErrors.CapabilityListsExactly` | crates/akraz-discovery/src/lib.rs:818-849 | A list is accepted exactly if every trimmed piece is one of the five names, and then it is the set of the capabilities named; otherwise the first bad piece is reported |
| `DiscoveryErrors.ParsesExactly` | crates/akraz-discovery/src/lib.rs:462-501 | Fields are accepted exactly if the required ones are present and each is well formed, and each ends up trimmed in its place |
| `DiscoveryErrors.RefusalsAreTrue` | crates/akraz-discovery/src/lib.rs:462-502 | Every error names something that is wrong with the entries: the missing or repeated key, the entry without separator or key, the bad version, token, name or capability |
| `DiscoveryErrors.FirstFaultyFieldIsReported` | crates/akraz-discovery/src/lib.rs:462-502 | The error of the first field with a fault, in the order in which they are read, is the one reported |
| `DiscoveryErrors.FirstFaultyEntryIsReported` | crates/akraz-discovery/src/lib.rs:699-732 | The error of the first entry that is malformed or repeats a key is reported, whatever follows it |
| `Discovery.AddedCapabilitiesAreKnown` | crates/akraz-discovery/src/lib.rs:818-849 | A parsed list is a non-empty set of known flags |
| `DiscoveryRoundTrip.AdvertisedRecordsParseExactly` | crates/akraz-discovery/src/lib.rs:462-527 | Parsing what was built gives the record back if and only if the record is normalized |
| `DiscoveryRoundTrip.ParsedRecordsAreNormalized` | crates/akraz-discovery/src/lib.rs:462-502 | Every parsed record is normalized |
| `DiscoveryRoundTrip.ParsedRecordsAreStable` | crates/akraz-discovery/src/lib.rs:462-527 | Building and parsing again whatever was parsed returns it |
| `DiscoveryRoundTrip.RoundTripInAnyOrderAndCase` | crates/akraz-discovery/src/lib.rs:699-732 | A normalized record is recovered from its entries in any order and with keys in any letter case |
| `DiscoveryRoundTrip.OrderAndCaseAreIrrelevant` | crates/akraz-discovery/src/lib.rs:699-732 | Whatever parses still parses to the same record when its entries are permuted and its keys written in another letter case |
| `DiscoveryRoundTrip.CollectsExactly` | crates/akraz-discovery/src/lib.rs:699-732 | Collecting succeeds exactly when every entry is well formed and no key repeats |
| `DiscoveryRoundTrip.CollectAnyOrder` | crates/akraz-discovery/src/lib.rs:699-732 | Permuted entry lists collect into the same map |
| `DiscoveryRoundTrip.NormalizeTokenExactly` | crates/akraz-discovery/src/lib.rs:797-816 | Tokens are non-empty strings without white space or control characters, and are left unchanged |
| `DiscoveryRoundTrip.NormalizeDisplayNameExactly` | crates/akraz-discovery/src/lib.rs:782-795 | Display names are trimmed strings without control characters, and are left unchanged |
| `IdentityStore.FileIdentityStore.constructor` | crates/akraz-identity/src/lib.rs:286-289 | The file is missing at first |
| `IdentityStore.FileIdentityStore.LoadOrCreate` | crates/akraz-identity/src/lib.rs:296-308 | An existing identity is kept, a missing one is created without trusted peers |
| `IdentityStore.FileIdentityStore.SaveTrustedPeer` | crates/akraz-identity/src/lib.rs:311-326 | Saving is an update of the map from ids to entries; a missing file is an error |
| `IdentityStore.FileIdentityStore.ListTrustedPeers` | crates/akraz-identity/src/lib.rs:329-339 | Every entry in order, or the first error |
| `IdentityStore.FileIdentityStore.LoadTrustedPeer` | crates/akraz-identity/src/lib.rs:342-357 | Loading is a map lookup followed by the entry checks |
| `IdentityStore.FileIdentityStore.RemoveTrustedPeer` | crates/akraz-identity/src/lib.rs:360-373 | Removing deletes the id from the map, or fails and changes nothing |
| `IdentityStore.SavingUpdatesTheMap` | crates/akraz-identity/src/lib.rs:311-326 | Saving keeps ids unique, leaves every other entry in its place and grows the list only for a new id |
| `IdentityStore.RemovingDeletesFromTheMap` | crates/akraz-identity/src/lib.rs:360-373 | Removing fails exactly for an unknown id, and otherwise deletes the id from the map exactly when the list held it once |
| `IdentityStore.ListsEveryEntryInOrder` | crates/akraz-identity/src/lib.rs:329-339 | Listing succeeds exactly when every entry loads |
| `IdentityStore.Position` | crates/akraz-identity/src/lib.rs:360-371 | The first entry with the id, and none exactly when there is none |
| `IdentityStore.OwnDocumentReadsBackExactly` | crates/akraz-identity/src/lib.rs:501-572 | The document a device exports reads back as that device exactly when its id, key and fingerprint are genuine |
| `IdentityStore.DocumentIdentitiesSurviveStorage` | crates/akraz-identity/src/lib.rs:964-1010 | An identity read from a document survives being stored and loaded |
| `IdentityStore.NormalizedNamesAreStable` | crates/akraz-identity/src/lib.rs:1013-1020 | Normalizing a display name twice changes nothing and never yields an empty name |
| `IdentityStore.NormalizedNamesExactly` | crates/akraz-identity/src/lib.rs:1013-1020 | A name loses the white space around it and nothing else; one that is nothing else becomes the default |
| `IdentityStore.AcceptedDocumentsExactly` | crates/akraz-identity/src/lib.rs:537-572 | A document is accepted exactly if it describes a genuine device, and then as that device |
| `IdentityStore.DocumentErrorsAreTrue` | crates/akraz-identity/src/lib.rs:537-572 | Every refusal of a document names something that is wrong with it, and nothing that is checked before it is wrong |
| `IdentityStore.EntriesLoadExactly` | crates/akraz-identity/src/lib.rs:974-1010 | An entry loads exactly if its key decodes to a valid key with the stored fingerprint, as the peer with that key; an error names what is wrong |
| `PairingCode.PairingVerificationCode` | crates/akraz-identity/src/lib.rs:48-87 | The hasher is fed the label and the length-prefixed components of both parties, the smaller key first. The next three rows say what the code means |
| `PairingCode.CodeSpellsTheDigest` | crates/akraz-identity/src/lib.rs:76-86 | A code is six digits that spell the reduced digest of the message of exactly its two parties |
| `PairingCode.AlwaysAgreeExactly` | crates/akraz-identity/src/lib.rs:48-86 | Two codes agree under every digest function exactly when they stand for the same ordered pair of id, key and fingerprint |
| `PairingCode.SubstitutionIsNoticedExactly` | crates/akraz-identity/src/lib.rs:48-86 | Two devices with different ids and keys that each were told something about the other compute codes that agree under every digest exactly when both were told the truth |
| `PairingCode.Hasher.UpdateComponent` | crates/akraz-identity/src/lib.rs:89-93 | A component is its length as a big-endian u32, saturated, and its bytes |
| `PairingCode.MessageBindsBothParties` | crates/akraz-identity/src/lib.rs:48-93 | Two hashed messages are equal exactly when they stand for the same ordered pair of id, key and fingerprint |
| `PairingCode.MessageIsSymmetricExactly` | crates/akraz-identity/src/lib.rs:48-73 | Both devices hash the same message exactly when their keys differ or they are one party |
| `PairingCode.MessagesAreLabelled` | crates/akraz-identity/src/lib.rs:48-73 | Every hashed message starts with the domain label |
| `PairingCode.LexLeIsATotalOrder` | crates/akraz-identity/src/lib.rs:53-55 | The key order is total and antisymmetric |
| `PairingCode.CodesAreSixDigits` | crates/akraz-identity/src/lib.rs:82-86 | A code has exactly six digits and spells the reduced digest |
| `Pairing.PairingManager.constructor` | crates/akraz-daemon/src/lib.rs:799-820 | No pairing is pending at first |
| `Pairing.PairingManager.StartPairing` | crates/akraz-daemon/src/lib.rs:908-957 | Start files a valid foreign document under its trimmed id with the code of the two devices, replacing an earlier start, or returns the first error in the order of the source; the identity file is created if missing |
| `Pairing.PairingManager.AcceptPairing` | crates/akraz-daemon/src/lib.rs:960-1000 | Accept checks id, code format, pending pairing and code in that order, then saves the peer and drops the pending pairing; a failure changes nothing |
| `Pairing.PairingManager.RejectPairing` | crates/akraz-daemon/src/lib.rs:1003-1024 | Reject drops the pending pairing of the trimmed id or fails, and leaves the store alone |
| `Pairing.PairingManager.RemovePendingPairingIfCodeMatches` | crates/akraz-daemon/src/lib.rs:1142-1159 | The pending pairing is removed exactly when the code is the one on file |
| `Pairing.RunsFollowTheRequests` | crates/akraz-daemon/src/lib.rs:908-1024 | Over every run both tables are determined, id by id, by the requests alone: the open pairing of an id is its latest start that was neither rejected nor confirmed, and its trust entry the latest confirmation not removed since |
| `Pairing.TrustNeedsTheMatchingCode` | crates/akraz-daemon/src/lib.rs:960-1001 | Every trust entry a run adds or changes comes from a start of exactly that peer and a later accept with the matching code, six digits that spell the reduced digest for these two parties, with no other start and no rejection of its id in between; it is never the local device |
| `Pairing.LocalDeviceIsNeverTrusted` | crates/akraz-daemon/src/lib.rs:933-937 | No run makes the local device a trusted peer |
| `Pairing.StartThenAcceptTrustsThePeer` | crates/akraz-daemon/src/lib.rs:908-1001 | Feeding the id and code of a start back to accept always succeeds: the peer is trusted, loads back as the identity of the document, and is no longer pending |
| `Pairing.CodesPassTheFormatCheck` | crates/akraz-daemon/src/lib.rs:97-106 | A code made by a start passes the format check of accept unchanged |
| `Pairing.AcceptActsExactlyOnAMatch` | crates/akraz-daemon/src/lib.rs:960-1000 | Accept succeeds exactly when the trimmed code is the one on file for the trimmed id, and changes nothing otherwise |
| `Pairing.StartActsExactlyOnAPeer` | crates/akraz-daemon/src/lib.rs:908-957 | Start files exactly the peer of a valid foreign document; the identity file is created exactly if the document is not blank |
| `Pairing.FailedRequestsChangeNothing` | crates/akraz-daemon/src/lib.rs:908-1024 | A failed request trusts nobody and leaves the pending pairings as they were |
| `Pairing.RefusalsAreTrue` | crates/akraz-daemon/src/lib.rs:908-1024 | Every refusal of a start, an accept or a rejection names what is wrong with the request |
| `Pairing.BothDevicesShowTheSameCode` | crates/akraz-identity/src/lib.rs:48-86 | Two genuine devices pairing from each other's documents show the same code when their keys differ, and then only do they hash the same message and agree under every digest |
| `Backoff.ReconnectBackoff.constructor` | crates/akraz-daemon/src/lib.rs:725-733 | No failure and no deadline at first |
| `Backoff.ReconnectBackoff.RetryAfter` | crates/akraz-daemon/src/lib.rs:737-741 | A connect is refused exactly while now precedes the deadline, with the exact time left |
| `Backoff.ReconnectBackoff.DelayForFailure` | crates/akraz-daemon/src/lib.rs:755-769 | The doubling loop with its overflow checks computes the capped power of two |
| `Backoff.ReconnectBackoff.RecordFailure` | crates/akraz-daemon/src/lib.rs:743-748 | The count saturates, the deadline is now plus the delay, or now if the clock cannot count that far |
| `Backoff.ReconnectBackoff.Reset` | crates/akraz-daemon/src/lib.rs:750-753 | A reset forgets failures and deadline |
| `Backoff.DelayIsACappedPower` | crates/akraz-daemon/src/lib.rs:755-769 | The delay after n failures is min(max, initial * 2^(n-1)) and is monotone in n |
| `Backoff.CountsFailuresSinceSuccess` | crates/akraz-daemon/src/lib.rs:736-770 | Over every run the count is the saturated number of failures since the last success, and the deadline is that of the last failure |
| `Latency.BuildHistogram` | crates/akraz-ipc/src/lib.rs:1650-1669 | No samples give no summary; otherwise the count, the average and both percentiles of the sorted samples, each capped at the u64 maximum |
| `Latency.WrappingSum` | crates/akraz-ipc/src/lib.rs:1660-1661 | The running sum is the sum modulo 2^128 |
| `Latency.PercentileIsNearestRank` | crates/akraz-ipc/src/lib.rs:1671-1675 | The percentile is a sample; at least p% of the samples are at or below it and fewer than p% strictly below |
| `Latency.SummaryExactly` | crates/akraz-ipc/src/lib.rs:1650-1669 | The summary holds the number of samples, their mean rounded half up exactly when nothing wraps, and the nearest ranks of 95 and 99 percent of the samples as taken, each capped at the u64 maximum |
| `Latency.PercentilesAreOrdered` | crates/akraz-ipc/src/lib.rs:1671-1675 | A larger percentage never gives a smaller percentile |
| `Latency.SummaryPercentilesAreOrdered` | crates/akraz-ipc/src/lib.rs:1650-1669 | p95 <= p99 in every summary |
| `Latency.OrderIsIrrelevant` | crates/akraz-ipc/src/lib.rs:1650-1669 | Permuted samples have the same summary |
| `Latency.AverageIsTheRoundedMeanExactly` | crates/akraz-ipc/src/lib.rs:1660-1664 | The average is the mean rounded half up exactly when the 128-bit sum and its rounding term do not wrap, and then lies between the smallest and the largest sample |
| `Latency.SortSorts` | crates/akraz-ipc/src/lib.rs:1658-1659 | The sorted list is an ordered permutation of the samples |
| `Layout.AnalyzeLayoutMismatch` | apps/akraz/src/lib/layout/layoutMismatch.ts:93-145 | The report has the status, the issues in order and the counts that the following rows characterise |
| `Layout.AnalyzeBindings` | apps/akraz/src/lib/layout/layoutMismatch.ts:103-126 | The loop over the bindings collects their issues in the order first met and counts the valid ones |
| `Layout.HasMixedDpi` | apps/akraz/src/lib/layout/layoutMismatch.ts:72-91 | Mixed exactly when two monitors report different positive rounded scale factors |
| `Layout.ScaleIsTheNearestInteger` | apps/akraz/src/lib/layout/layoutMismatch.ts:72-91 | The scale factor of a monitor is the nearest positive integer, and there is none for anything else |
| `Layout.BlockingIssueIsTheFirstProblem` | apps/akraz/src/lib/layout/layoutMismatch.ts:147-151 | The issue that blocks the start is the first problem of the first problematic binding; the topology never blocks it |
| `Layout.IssuesExactly` | apps/akraz/src/lib/layout/layoutMismatch.ts:93-145 | Each of the seven issues is reported once, and exactly if it is there; the issue of the topology comes last |
| `Layout.CountsExactly` | apps/akraz/src/lib/layout/layoutMismatch.ts:93-145 | The valid bindings are those with a trusted peer on an edge that no earlier binding uses; the desktop is usable exactly if its bounds are finite and contain a point |
| `Layout.UnblockedLayoutsExactly` | apps/akraz/src/lib/layout/layoutMismatch.ts:93-151 | Nothing blocks the start exactly when all edges are distinct and every binding names a trusted peer, and exactly when every binding was counted valid |
| `Layout.UnblockedBindingsAreFound` | crates/akraz-core/src/lib.rs:308-312 | An unblocked layout has at most four bindings, and the core finds each by its edge |
| `Layout.StatusExactly` | apps/akraz/src/lib/layout/layoutMismatch.ts:169-179 | Ready exactly for a non-empty unblocked layout on a usable, uniformly scaled desktop; limited exactly when only the desktop is unknown or of mixed scale; needs action otherwise |
| `LayoutPreview.MidpointIsTheMiddle` | apps/akraz/src/lib/layout/crossingTest.ts:17-23 | The rounded and clamped midpoint of an integer range is its upper middle and lies in the range |
| `LayoutPreview.PreviewAgreesWithTheCore` | apps/akraz/src/lib/layout/crossingTest.ts:25-77 | For every integer bounds whose edges fit i32 with one unit to spare, the preview is the crossing the core detects for a one-step move through the middle of the edge |
| `LayoutPreview.UnblockedLayoutsCrossAsPreviewed` | apps/akraz/src/lib/layout/crossingTest.ts:25-77 | In a layout the check does not block, every binding is previewed as the core will cross it |

## Left out

- TCP and Unix sockets, Windows pipes, threads and clocks: they appear as frame sequences, interleavings of lock uses and integer time.
- JSON, base64 and base32: payloads and documents are records; a library value stands for the document parser and the base64 codec, and where a round trip needs it, that decoding undoes encoding for the key at hand is a hypothesis.
- Ed25519 and BLAKE3: a signature names its key and its bytes; fingerprint, key validity and the leading digest bits are uninterpreted functions.
- File permissions, symbolic links, I/O errors and corrupt local identities of the identity file: the file is a field that is missing or holds a decoded record.
- A pairing manager without an identity store: it refuses start and accept, and is not modelled.
- The trust command of the command-line tool, which stores a document without a code; its forget command is the Forget request of `Pairing`.
- The reconnect failure that a failed dispatch records: `ManagedSession` detaches the session, and `Backoff` models the counter separately.
- Concurrent pairing requests: requests are handled one after another.
- Bounded serving variants, the one-shot command listener and the identity-probe branch of the listener: they share the executor loop that is modelled.
- The texts of errors: each is a constructor of an error type, with the values that the text carries where they matter.
- Detaching a session while another thread still uses a clone of it: commands are dispatched one at a time in `ManagedSession` and `EndToEnd`. The claims of `PeerSender` and `ReceiverGuarantees` hold under all interleavings and streams.
- The mDNS runtime, service registration, peer filtering and candidate lists.
- JSON-RPC dispatch, status and diagnostics builders, log buffers, watchdog timers and command-line parsing: wide, flat case analysis.
- User interface state, Tauri clients and issue texts. Screen coordinates of the user interface are real numbers; the rounding of binary floating point beyond 2^53 is not modelled.
- Who issues RemoteEntryConfirmed and TransportLost: the daemon itself contains no code that does; the theorems let both happen at any time.
- Layouts whose coordinates are not integers: the preview is defined for them, but agreement with the core is stated for integer bounds only.
- EndToEnd.NothingStaysPressedFromTheStart: starts after the authenticated prelude, and says nothing about what the peer holds while the latest release on the peer's own platform has failed.
- Everything readable on the wire is taken to have been executed: `EndToEnd` has no frames in flight, apart from a line without its newline.
- EndToEnd.StepIsSafeExactly: takes the transition of a batch and its dispatch as one step, although the capture worker gives up the state lock in between. `Delivery` states what one late batch does at the time it is dispatched; runs of many steps with batches pending are not modelled.
- A failed dispatch ends the capture worker of the daemon; the runs of `EndToEnd` may continue with captured input after it, which covers more than the daemon does.
- Latency.BuildHistogram: the library sort is replaced by an insertion sort function, of which only order and permutation matter; sums wrap modulo 2^128 as in a release build, where a debug build would panic. Sample counts are taken to be so small that the rank computation does not overflow.
- Handshake.HonestProofAcceptedExactly: assumes that the receiver already trusts the initiator's id and key.
- PairingCode.MessageBindsBothParties: stated for components of at most 2^32 - 1 bytes, above which the length prefix saturates; that equal codes mean equal messages is not claimed, since a code is a digest reduced to six digits.
- IdentityStore.RemovingDeletesFromTheMap: lists with repeated ids, which only an edited file can contain, are covered by the exact condition.
