// What reaches the peer when nothing fails: the other half of the end-to-end claim.
module Delivery {
  import opened Wrappers
  import opened Ints
  import opened Geometry
  import opened CoreState
  import opened Router
  import opened WireCommands
  import opened Frames
  import opened PeerReceiver
  import opened ReceiverGuarantees
  import opened PeerSender
  import opened ManagedSession
  import opened EndToEnd

  // ---- One input -------------------------------------------------------------------------------

  // Both ends are alive and in step, with nothing half written between them.
  predicate InStep(link: Option<Link>, remote: Remote) {
    && link.Some? && link.value.tail.None?
    && remote.Serving? && remote.progress.Running?
    && remote.progress.receiver.expected == link.value.next
  }

  // A command that is written, and whose platform call succeeds, keeps both ends in step and has its
  // effect.
  lemma {:induction false} DeliveringACommand(link: Option<Link>, remote: Remote, command: Command, oracle: Oracle)
    requires InStep(link, remote) && link.value.next < U64_MAX
    requires !command.StopSession? && (command.StartSession? ==> command.peer == link.value.peer)
    requires Perform(Ops(remote), command, oracle).1
    ensures var (link', events, ok) := DispatchCommand(link, command, Delivered);
      var remote' := NoticeAll(remote, events, oracle);
      && ok && link' == Some(link.value.(next := link.value.next + 1)) && InStep(link', remote')
      && Ops(remote') == Perform(Ops(remote), command, oracle).0
      && remote'.progress.receiver.guard == GuardAfter(remote.progress.receiver.guard, command)
  {
    var l, r := link.value, remote.progress.receiver;
    var read := [Received(CommandFrame(l.next, ToPayload(command)))];
    assert DispatchCommand(link, command, Delivered) == (Some(l.(next := l.next + 1)), Sent(read), true);
    assert Sent(read) == [LinkSent(read[0])];
    NoticeOne(remote, LinkSent(read[0]), oracle);
    CommandRoundTrip(command);
  }

  // In Remote mode every input that is not the panic chord and whose frame is written is injected at
  // the peer, whatever either side holds.
  lemma {:induction false} PressReachesThePeer(w: World, input: InputEvent, around: Surroundings, oracle: Oracle)
    requires w.Core().control.Remote? && !w.Core().Record(input).PanicChord(input)
    requires InStep(w.link, w.remote) && w.link.value.next < U64_MAX
    requires around.write(0).Delivered? && oracle.injectOk(|Ops(w.remote)|)
    ensures var w' := Next(w, Happens(Input(input), around), oracle);
      && w'.Core() == w.Core().Record(input) && InStep(w'.link, w'.remote)
      && Ops(w'.remote) == Ops(w.remote) + [Inject(input, true)]
      && RemoteHolds(w'.remote) == HeldAfter(RemoteHolds(w.remote), Inject(input, true))
  {
    var actions := [ForwardInput(input)];
    assert Transition(w.routing, Happens(Input(input), around)).1 == actions;
    DeliveringACommand(w.link, w.remote, Forward(input), oracle);
    var (link, events, _) := DispatchCommand(w.link, Forward(input), Delivered);
    assert DispatchActions(link, actions, 1, around) == (link, [], true);
    assert events + [] == events;
    assert DispatchActions(w.link, actions, 0, around) == (link, events, true);
    HeldOneMore(Ops(w.remote), Inject(input, true));
  }

  // ---- Whole runs ------------------------------------------------------------------------------

  // What the peer should hold, told from the actions alone: the peer of the attached session, and
  // the inputs forwarded to it since the last release.
  datatype Tally = Tally(attached: Option<string>, holding: Holding)

  const UNATTACHED := Tally(None, NOTHING)

  function Count(t: Tally, action: CoreAction): Tally {
    if t.attached.None? then t
    else
      match action
      case StartRemoteSession(peer, _) => if t.attached == Some(peer) then t else UNATTACHED
      case ForwardInput(event) => t.(holding := HeldAfter(t.holding, Inject(event, true)))
      case ReleaseAllInputs => t.(holding := NOTHING)
      case StopRemoteSession(_) => UNATTACHED
      case _ => t
  }

  function CountAll(t: Tally, actions: seq<CoreAction>): Tally
    decreases |actions|
  {
    if actions == [] then t else CountAll(Count(t, actions[0]), actions[1..])
  }

  function CountStep(t: Tally, r: Routing, step: WorldStep): Tally {
    match step
    case Attach(peer) => if t.attached.Some? then t else Tally(Some(peer), NOTHING)
    case Detach => UNATTACHED
    case Heartbeat(_) => t
    case Interrupted => t
    case _ => CountAll(t, Transition(r, step).1)
  }

  // The routing state after a step whose dispatch succeeds.
  function RoutingAfter(r: Routing, step: WorldStep): Routing {
    match step
    case Inspects(bounds, pointer, _) => Inspect(r, bounds, pointer, true).0
    case Happens(_, _) => Transition(r, step).0
    case Captures(_, _) => Transition(r, step).0
    case _ => r
  }

  function CountRun(t: Tally, r: Routing, steps: seq<WorldStep>): Tally
    decreases |steps|
  {
    if steps == [] then t else CountRun(CountStep(t, r, steps[0]), RoutingAfter(r, steps[0]), steps[1..])
  }

  // Nothing fails in the step, and the counter has room for its frames.
  ghost predicate Faultless(w: World, step: WorldStep) {
    && !step.Interrupted?
    && (step.Heartbeat? ==> step.write.Delivered? && (w.link.Some? ==> w.link.value.next < U64_MAX))
    && (step.IsBatch() ==>
          && (forall k :: step.around.localOk(k))
          && (forall k :: step.around.write(k).Delivered?)
          && (w.link.Some? ==> w.link.value.next + |Transition(w.routing, step).1| <= U64_MAX))
  }

  ghost predicate NeverFails(oracle: Oracle) {
    (forall n :: oracle.injectOk(n)) && (forall n :: oracle.releaseOk(n))
  }

  // The peer holds what the tally says.
  predicate Agrees(link: Option<Link>, remote: Remote, t: Tally) {
    && RemoteHolds(remote) == t.holding
    && match link
       case None => t == UNATTACHED && remote.Idle?
       case Some(l) =>
         t.attached == Some(l.peer) && InStep(link, remote) && HoldsOnlyUnderGuard(remote.progress)
  }

  lemma {:induction false} ClosingAgrees(link: Option<Link>, remote: Remote, t: Tally, oracle: Oracle)
    requires Agrees(link, remote, t) && link.Some? && NeverFails(oracle)
    ensures Agrees(None, NoticeAll(remote, Closing(None), oracle), UNATTACHED)
  {
    assert Sent(AtEnd(None)) + [LinkClosed] == [LinkClosed];
    NoticeOne(remote, LinkClosed, oracle);
    HeldOneMore(Ops(remote), Release(true));
  }

  lemma {:induction false} CommandAgrees(
    link: Option<Link>, remote: Remote, t: Tally, action: CoreAction, oracle: Oracle)
    requires Agrees(link, remote, t) && NeverFails(oracle) && ToCommand(action).Some?
    requires link.Some? ==> link.value.next < U64_MAX
    ensures var (link', events, ok) := DispatchCommand(link, ToCommand(action).value, Delivered);
      var remote' := NoticeAll(remote, events, oracle);
      && Agrees(link', remote', Count(t, action))
      && (link'.Some? ==> link.Some? && link'.value.next == link.value.next + 1)
      && (ok || link'.None?)
  {
    if link.Some? {
      var l, command := link.value, ToCommand(action).value;
      if command.StartSession? && command.peer != l.peer {
        ClosingAgrees(link, remote, t, oracle);
      } else if command.StopSession? {
        StoppingAgrees(link, remote, t, command, oracle);
      } else {
        DeliveringACommand(link, remote, command, oracle);
        var event := if action.ForwardInput? then Inject(action.event, true) else Release(true);
        HeldOneMore(Ops(remote), event);
      }
    }
  }

  lemma {:induction false} StoppingAgrees(
    link: Option<Link>, remote: Remote, t: Tally, command: Command, oracle: Oracle)
    requires Agrees(link, remote, t) && NeverFails(oracle) && command.StopSession?
    requires link.Some? && link.value.next < U64_MAX
    ensures Agrees(None, NoticeAll(remote, DispatchCommand(link, command, Delivered).1, oracle), UNATTACHED)
  {
    var l := link.value;
    var read := [Received(CommandFrame(l.next, ToPayload(command)))];
    assert DispatchCommand(link, command, Delivered).1 == Sent(read) + Closing(None);
    assert Sent(read) == [LinkSent(read[0])];
    NoticeConcat(remote, Sent(read), Closing(None), oracle);
    NoticeOne(remote, LinkSent(read[0]), oracle);
    CommandRoundTrip(command);
    var remote1 := Notice(remote, LinkSent(read[0]), oracle);
    assert Agrees(Some(l.(next := l.next + 1)), remote1, t);
    ClosingAgrees(Some(l.(next := l.next + 1)), remote1, t, oracle);
  }

  lemma {:induction false} UnattachedCountsNothing(actions: seq<CoreAction>)
    ensures CountAll(UNATTACHED, actions) == UNATTACHED
    decreases |actions|
  {
    if actions == [] {
    } else {
      UnattachedCountsNothing(actions[1..]);
    }
  }

  lemma {:induction false} BatchAgrees(
    link: Option<Link>, remote: Remote, t: Tally, actions: seq<CoreAction>, i: nat, around: Surroundings,
    oracle: Oracle)
    requires Agrees(link, remote, t) && NeverFails(oracle) && i <= |actions|
    requires forall k :: around.localOk(k)
    requires forall k :: around.write(k).Delivered?
    requires link.Some? ==> link.value.next + |actions| - i <= U64_MAX
    ensures var (link', events, ok) := DispatchActions(link, actions, i, around);
      Agrees(link', NoticeAll(remote, events, oracle), CountAll(t, actions[i..]))
    decreases |actions| - i
  {
    if i == |actions| {
      assert actions[i..] == [];
    } else {
      assert actions[i..][0] == actions[i] && actions[i..][1..] == actions[i + 1..];
      var (link1, events1, ok1) := DispatchAction(link, actions[i], i, around);
      var remote1 := NoticeAll(remote, events1, oracle);
      if ToCommand(actions[i]).Some? {
        assert around.write(i) == Delivered;
        CommandAgrees(link, remote, t, actions[i], oracle);
      }
      if ok1 {
        NoticeConcat(remote, events1, DispatchActions(link1, actions, i + 1, around).1, oracle);
        BatchAgrees(link1, remote1, Count(t, actions[i]), actions, i + 1, around, oracle);
      } else {
        UnattachedCountsNothing(actions[i + 1..]);
      }
    }
  }

  lemma {:induction false} StepAgrees(w: World, t: Tally, step: WorldStep, oracle: Oracle)
    requires Agrees(w.link, w.remote, t) && Faultless(w, step) && NeverFails(oracle)
    ensures var w' := Next(w, step, oracle);
      && Agrees(w'.link, w'.remote, CountStep(t, w.routing, step))
      && w'.routing == RoutingAfter(w.routing, step)
  {
    if step.IsBatch() {
      var actions := Transition(w.routing, step).1;
      BatchAgrees(w.link, w.remote, t, actions, 0, step.around, oracle);
      assert actions[0..] == actions;
      if step.Inspects? {
        InspectionsAreDispatched(w, step);
      }
    } else if step.Heartbeat? && w.link.Some? {
      BeatAgrees(w, t, oracle);
    } else if step.Detach? && w.link.Some? {
      ClosingAgrees(w.link, w.remote, t, oracle);
    }
  }

  lemma {:induction false} BeatAgrees(w: World, t: Tally, oracle: Oracle)
    requires Agrees(w.link, w.remote, t) && w.link.Some? && w.link.value.next < U64_MAX
    ensures var w' := Next(w, Heartbeat(Delivered), oracle); Agrees(w'.link, w'.remote, t)
  {
    var l := w.link.value;
    var read := [Received(HeartbeatFrame(l.next))];
    assert DispatchHeartbeat(w.link, Delivered) == (Some(l.(next := l.next + 1)), Sent(read));
    assert Sent(read) == [LinkSent(read[0])];
    NoticeOne(w.remote, LinkSent(read[0]), oracle);
  }

  // The batch of an inspection starts no session, so without failures it is dispatched to its end.
  lemma {:induction false} InspectionsAreDispatched(w: World, step: WorldStep)
    requires step.Inspects? && Faultless(w, step)
    ensures DispatchActions(w.link, Transition(w.routing, step).1, 0, step.around).2
  {
    var actions := Transition(w.routing, step).1;
    assert forall k :: 0 <= k < |actions| ==> !actions[k].StartRemoteSession?;
    WrittenBatchesSucceed(w.link, actions, 0, step.around);
  }

  lemma {:induction false} WrittenBatchesSucceed(
    link: Option<Link>, actions: seq<CoreAction>, i: nat, around: Surroundings)
    requires i <= |actions| && forall k :: 0 <= k < |actions| ==> !actions[k].StartRemoteSession?
    requires forall k :: around.localOk(k)
    requires forall k :: around.write(k).Delivered?
    requires link.Some? ==> link.value.next + |actions| - i <= U64_MAX
    ensures DispatchActions(link, actions, i, around).2
    decreases |actions| - i
  {
    if i == |actions| {
    } else {
      var (link1, _, ok1) := DispatchAction(link, actions[i], i, around);
      assert around.write(i) == Delivered;
      assert ok1 && (link1.Some? ==> link.Some? && link1.value.next <= link.value.next + 1);
      WrittenBatchesSucceed(link1, actions, i + 1, around);
    }
  }

  ghost predicate FaultlessRun(w: World, steps: seq<WorldStep>, oracle: Oracle)
    decreases |steps|
  {
    steps == [] || (Faultless(w, steps[0]) && FaultlessRun(Next(w, steps[0], oracle), steps[1..], oracle))
  }

  // Over every run without failures the peer holds exactly the inputs forwarded to it since the last
  // release, nothing more and nothing less.
  lemma {:induction false} FaultlessRunsDeliverExactly(w: World, t: Tally, steps: seq<WorldStep>, oracle: Oracle)
    requires Agrees(w.link, w.remote, t) && NeverFails(oracle) && FaultlessRun(w, steps, oracle)
    ensures var w' := RunWorld(w, steps, oracle);
      var t' := CountRun(t, w.routing, steps);
      && Agrees(w'.link, w'.remote, t') && RemoteHolds(w'.remote) == t'.holding
    decreases |steps|
  {
    if steps == [] {
    } else {
      StepAgrees(w, t, steps[0], oracle);
      FaultlessRunsDeliverExactly(Next(w, steps[0], oracle), CountStep(t, w.routing, steps[0]), steps[1..], oracle);
    }
  }

  lemma {:induction false} FaultlessRunsFromTheStart(
    layout: ScreenLayout, pointer: Point, steps: seq<WorldStep>, oracle: Oracle)
    requires NeverFails(oracle) && FaultlessRun(Start(layout, pointer), steps, oracle)
    ensures RemoteHolds(RunWorld(Start(layout, pointer), steps, oracle).remote)
         == CountRun(UNATTACHED, Start(layout, pointer).routing, steps).holding
  {
    FaultlessRunsDeliverExactly(Start(layout, pointer), UNATTACHED, steps, oracle);
  }

  // ---- Late batches ----------------------------------------------------------------------------

  // The capture worker applies input and dispatches the actions later; other threads may act in
  // between. A batch that was applied earlier is dispatched now.
  function DispatchLate(w: World, actions: seq<CoreAction>, around: Surroundings, oracle: Oracle): World {
    var (link, events, _) := DispatchActions(w.link, actions, 0, around);
    World(w.routing, link, NoticeAll(w.remote, events, oracle))
  }

  // Without failures, a late batch leaves the claim intact exactly when what it adds to the tally
  // fits the mode that control has by then.
  lemma {:induction false} LateBatchIsSafeExactly(
    w: World, t: Tally, actions: seq<CoreAction>, around: Surroundings, oracle: Oracle)
    requires Agrees(w.link, w.remote, t) && NeverFails(oracle)
    requires forall k :: around.localOk(k)
    requires forall k :: around.write(k).Delivered?
    requires w.link.Some? ==> w.link.value.next + |actions| <= U64_MAX
    ensures Safe(DispatchLate(w, actions, around, oracle)) <==> Fits(CountAll(t, actions).holding, w.Core())
  {
    BatchAgrees(w.link, w.remote, t, actions, 0, around, oracle);
    assert actions[0..] == actions;
  }

  // Under any failures, a late batch that presses nothing does no harm outside Remote mode.
  lemma {:induction false} LateBatchesMayRelease(
    w: World, actions: seq<CoreAction>, around: Surroundings, oracle: Oracle)
    requires Good(w) && !w.Core().control.Remote?
    requires forall k :: 0 <= k < |actions| ==> !Presses(actions[k])
    ensures Good(DispatchLate(w, actions, around, oracle))
  {
    DispatchingABatch(w.link, w.remote, actions, 0, around, oracle);
    var sent := actions[0..Reached(w.link, actions, 0, around)];
    assert forall k :: 0 <= k < |sent| ==> sent[k] == actions[k];
    NothingPressedNothingHeld(Known(w.remote), sent);
  }

  // A batch with a stop in it that gets past its local releases ends the session, whatever else fails.
  lemma {:induction false} StoppingBatchesEndTheSession(
    link: Option<Link>, remote: Remote, actions: seq<CoreAction>, i: nat, around: Surroundings, oracle: Oracle)
    requires Linked(link, remote) && i <= |actions| && LocalStop(link, actions, i, around).None?
    requires exists k :: i <= k < |actions| && actions[k].StopRemoteSession?
    ensures var (link', events, _) := DispatchActions(link, actions, i, around);
      Linked(link', NoticeAll(remote, events, oracle)) && Dead(NoticeAll(remote, events, oracle))
    decreases |actions| - i
  {
    DispatchingABatch(link, remote, actions, i, around, oracle);
    DispatchingAnAction(link, remote, actions[i], i, around, oracle);
    BatchUnfolds(link, actions, i, around);
    var (link1, events1, ok1) := DispatchAction(link, actions[i], i, around);
    if ok1 {
      var remote1 := NoticeAll(remote, events1, oracle);
      NoticeConcat(remote, events1, DispatchActions(link1, actions, i + 1, around).1, oracle);
      if actions[i].StopRemoteSession? {
        DispatchingACommand(link, remote, ToCommand(actions[i]).value, around.write(i), oracle);
        DeadStaysDead(link1, remote1, actions, i + 1, around, oracle);
      } else {
        StoppingBatchesEndTheSession(link1, remote1, actions, i + 1, around, oracle);
      }
    }
  }

  // Under any failures, whatever is late does no harm once a session was stopped, as a recovery or a
  // leave out of a session does, until the next one is attached.
  lemma {:induction false} LateBatchesNeedANewSession(
    w: World, step: WorldStep, late: seq<CoreAction>, around: Surroundings, oracle: Oracle)
    requires Linked(w.link, w.remote) && step.IsBatch()
    requires LocalStop(w.link, Transition(w.routing, step).1, 0, step.around).None?
    requires exists k :: 0 <= k < |Transition(w.routing, step).1| && Transition(w.routing, step).1[k].StopRemoteSession?
    ensures Good(DispatchLate(Next(w, step, oracle), late, around, oracle))
  {
    StoppingBatchesEndTheSession(w.link, w.remote, Transition(w.routing, step).1, 0, step.around, oracle);
    var stopped := Next(w, step, oracle);
    DispatchingABatch(stopped.link, stopped.remote, late, 0, around, oracle);
    DeadStaysDead(stopped.link, stopped.remote, late, 0, around, oracle);
  }

  // A late press does harm, although nothing fails: a press is applied in Remote mode, a recovery
  // stops the session and a new one is attached before the press is dispatched. The new session holds
  // the key while control is local, and a second recovery does not release it.
  lemma {:induction false} LatePressStaysDown(
    w: World, t: Tally, input: InputEvent, peer: string, around: Surroundings, oracle: Oracle)
    requires Agrees(w.link, w.remote, t) && NeverFails(oracle)
    requires w.Core().control.Remote? && !w.Core().Record(input).PanicChord(input) && Presses(ForwardInput(input))
    requires w.link.Some? && w.link.value.next + 3 <= U64_MAX
    requires forall k :: around.localOk(k)
    requires forall k :: around.write(k).Delivered?
    ensures var (applied, late) := Transition(w.routing, Captures([input], around));
      var recovery := Happens(EmergencyRecoveryRequested, around);
      var recovered := Next(w.(routing := applied), recovery, oracle);
      var attached := Next(recovered, Attach(peer), oracle);
      var pressed := DispatchLate(attached, late, around, oracle);
      && Safe(recovered) && Safe(attached)
      && pressed.Core().control.Local? && RemoteHolds(pressed.remote) == HeldAfter(NOTHING, Inject(input, true))
      && !Safe(pressed) && Next(pressed, recovery, oracle).remote == pressed.remote
  {
    var (applied, late) := Transition(w.routing, Captures([input], around));
    CapturingInRemoteMode(w.routing, input);
    var recovery := Happens(EmergencyRecoveryRequested, around);
    var w1 := w.(routing := applied);
    assert Transition(applied, recovery).1
        == [ReleaseLocalInputs, ReleaseAllInputs, StopRemoteSession(applied.core.control.Session())];
    StepAgrees(w1, t, recovery, oracle);
    RecoveringUnattaches(t, applied.core.control.Session());
    var recovered := Next(w1, recovery, oracle);
    StepAgrees(recovered, UNATTACHED, Attach(peer), oracle);
    var attached := Next(recovered, Attach(peer), oracle);
    assert CountAll(Tally(Some(peer), NOTHING), late) == Tally(Some(peer), HeldAfter(NOTHING, Inject(input, true)));
    BatchAgrees(attached.link, attached.remote, Tally(Some(peer), NOTHING), late, 0, around, oracle);
    assert late[0..] == late;
    LocalRecoveryDoesNotReachThePeer(DispatchLate(attached, late, around, oracle), recovery, oracle);
  }

  lemma {:induction false} CapturingInRemoteMode(r: Routing, input: InputEvent)
    requires r.core.control.Remote? && !r.core.Record(input).PanicChord(input)
    ensures Drain(r, [input]) == (r.(core := r.core.Record(input)), [ForwardInput(input)])
  {
    assert Route(r, input) == (r.(core := r.core.Record(input)), Ok([ForwardInput(input)]));
    var none: seq<CoreAction> := [];
    assert [input][1..] == [];
    assert Drain(r.(core := r.core.Record(input)), [input][1..]) == (r.(core := r.core.Record(input)), none);
    assert [ForwardInput(input)] + none == [ForwardInput(input)];
  }

  lemma {:induction false} RecoveringUnattaches(t: Tally, session: Option<string>)
    requires t.attached.Some?
    ensures CountAll(t, [ReleaseLocalInputs, ReleaseAllInputs, StopRemoteSession(session)]) == UNATTACHED
  {
    var all := [ReleaseLocalInputs, ReleaseAllInputs, StopRemoteSession(session)];
    var from2, from3 := [ReleaseAllInputs, StopRemoteSession(session)], [StopRemoteSession(session)];
    assert all[1..] == from2 && from2[1..] == from3;
    assert CountAll(t.(holding := NOTHING), from3) == UNATTACHED;
  }

  // ---- The condition of the safety claim is needed ---------------------------------------------

  function AllFine(): Surroundings { Surroundings(_ => true, _ => Delivered) }

  // A session in which a key was pressed in Remote mode.
  lemma {:induction false} HoldingAKey(layout: ScreenLayout, pointer: Point, oracle: Oracle)
    returns (steps: seq<WorldStep>)
    requires oracle.injectOk(0)
    ensures var w := RunWorld(Start(layout, pointer), steps, oracle);
      && w.Core() == CoreState(Remote("peer", "session"), None, {Code(30)}, {})
      && RemoteHolds(w.remote) == Holding({Code(30)}, {}) && Ops(w.remote) == [Inject(Key(Code(30), Pressed), true)]
  {
    var w0, press := Start(layout, pointer), Key(Code(30), Pressed);
    var s1, s2 := Attach("peer"), Happens(RemoteEntryRequested("peer"), AllFine());
    var s3, s4 := Happens(RemoteEntryConfirmed("session"), AllFine()), Happens(Input(press), AllFine());
    steps := [s1, s2, s3, s4];
    var w1 := Next(w0, s1, oracle);
    var w2 := Next(w1, s2, oracle);
    EnteringReachesThePeer(w1, "peer", oracle);
    var w3 := Next(w2, s3, oracle);
    assert Transition(w2.routing, s3).1 == [];
    assert w3.link == w2.link && w3.remote == w2.remote && w3.Core().control == Remote("peer", "session");
    PressReachesThePeer(w3, press, AllFine(), oracle);
    RunFour(w0, s1, s2, s3, s4, oracle);
  }

  lemma {:induction false} EnteringReachesThePeer(w: World, peer: string, oracle: Oracle)
    requires w.Core().control.Local? && InStep(w.link, w.remote)
    requires w.link.value.next < U64_MAX && w.link.value.peer == peer
    ensures var w' := Next(w, Happens(RemoteEntryRequested(peer), AllFine()), oracle);
      && w'.Core() == w.Core().(control := EnteringRemote(peer)) && InStep(w'.link, w'.remote)
      && w'.link == Some(w.link.value.(next := w.link.value.next + 1)) && Ops(w'.remote) == Ops(w.remote)
  {
    var actions := [StartRemoteSession(peer, None)];
    assert Transition(w.routing, Happens(RemoteEntryRequested(peer), AllFine())).1 == actions;
    DeliveringACommand(w.link, w.remote, StartSession(peer, None), oracle);
    var (link, events, _) := DispatchCommand(w.link, StartSession(peer, None), Delivered);
    assert DispatchActions(link, actions, 1, AllFine()) == (link, [], true);
    assert events + [] == events;
    assert DispatchActions(w.link, actions, 0, AllFine()) == (link, events, true);
  }

  lemma {:induction false} RunOneMore(w: World, steps: seq<WorldStep>, oracle: Oracle)
    requires steps != []
    ensures RunWorld(w, steps, oracle) == RunWorld(Next(w, steps[0], oracle), steps[1..], oracle)
  {
  }

  lemma {:induction false} RunFour(
    w: World, s1: WorldStep, s2: WorldStep, s3: WorldStep, s4: WorldStep, oracle: Oracle)
    ensures RunWorld(w, [s1, s2, s3, s4], oracle) ==
      Next(Next(Next(Next(w, s1, oracle), s2, oracle), s3, oracle), s4, oracle)
  {
    var all, from2, from3, from4 := [s1, s2, s3, s4], [s2, s3, s4], [s3, s4], [s4];
    assert all[1..] == from2 && from2[1..] == from3 && from3[1..] == from4 && from4[1..] == [];
    var w1 := Next(w, s1, oracle);
    var w2 := Next(w1, s2, oracle);
    var w3 := Next(w2, s3, oracle);
    RunOneMore(w, all, oracle);
    RunOneMore(w1, from2, oracle);
    RunOneMore(w2, from3, oracle);
    RunOneMore(w3, from4, oracle);
    assert RunWorld(Next(w3, s4, oracle), [], oracle) == Next(w3, s4, oracle);
  }

  // With a key held remotely, a recovery whose local release fails leaves the machine in Local mode
  // with the key still down at the peer, and a second recovery in which nothing fails leaves it there.
  lemma {:induction false} LostReleaseLeavesAKeyDown(layout: ScreenLayout, pointer: Point, oracle: Oracle)
    returns (before: seq<WorldStep>, lost: WorldStep, again: WorldStep)
    requires oracle.injectOk(0)
    ensures lost.Happens? && !lost.around.localOk(0) && again == Happens(EmergencyRecoveryRequested, AllFine())
    ensures var w := RunWorld(Start(layout, pointer), before, oracle);
      var w1 := Next(w, lost, oracle);
      var w2 := Next(w1, again, oracle);
      && Safe(w) && LosesRelease(w, lost, oracle) && !LosesRelease(w1, again, oracle)
      && w1.Core() == Fresh && RemoteHolds(w1.remote) == Holding({Code(30)}, {}) && !Covered(w1)
      && w2.Core() == Fresh && w2.link == w1.link && w2.remote == w1.remote
  {
    before := HoldingAKey(layout, pointer, oracle);
    lost := Happens(EmergencyRecoveryRequested, Surroundings(_ => false, _ => Delivered));
    again := Happens(EmergencyRecoveryRequested, AllFine());
    var w := RunWorld(Start(layout, pointer), before, oracle);
    var w1 := Next(w, lost, oracle);
    OwedOneMore([], Inject(Key(Code(30), Pressed), true));
    assert [] + [Inject(Key(Code(30), Pressed), true)] == Ops(w.remote);
    FailedReleaseReachesNobody(w, lost, oracle);
    LocalRecoveryDoesNotReachThePeer(w1, again, oracle);
  }
}
