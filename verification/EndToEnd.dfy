// The whole pipeline: captured input, routing, control state machine, action dispatch, numbered
// frames with heartbeats in between, remote execution. The claim is about what stays pressed on the
// remote machine.
module EndToEnd {
  import opened Wrappers
  import opened Ints
  import opened Geometry
  import opened CoreState
  import opened CoreRuns
  import opened Router
  import opened WireCommands
  import opened Frames
  import opened PeerReceiver
  import opened ReceiverGuarantees
  import opened PeerSender
  import opened ManagedSession

  // ---- The remote machine ----------------------------------------------------------------------

  // The remote machine between sessions, or serving one; its platform keeps its call history.
  datatype Remote = Idle(ops: seq<PlatformOp>) | Serving(progress: Progress)

  function Ops(remote: Remote): seq<PlatformOp> {
    match remote case Idle(ops) => ops case Serving(p) => Recorded(p).ops
  }

  function RemoteHolds(remote: Remote): Holding { Held(Ops(remote)) }

  function Notice(remote: Remote, event: LinkEvent, oracle: Oracle): Remote {
    match event
    case LinkOpened => Serving(Opened(Ops(remote)))
    case LinkSent(incoming) =>
      if remote.Serving? && remote.progress.Running? then Serving(Receive(remote.progress.receiver, incoming, oracle))
      else remote
    case LinkClosed => if remote.Serving? then Idle(Close(remote.progress, oracle).0) else remote
  }

  function NoticeAll(remote: Remote, events: seq<LinkEvent>, oracle: Oracle): Remote
    decreases |events|
  {
    if events == [] then remote else NoticeAll(Notice(remote, events[0], oracle), events[1..], oracle)
  }

  // ---- The world -------------------------------------------------------------------------------

  // Everything that can be read from the wire has been executed.
  datatype World = World(routing: Routing, link: Option<Link>, remote: Remote) {
    function Core(): CoreState { routing.core }
  }

  // A runtime event, a drain of captured input and an inspection of the desktop each dispatch the
  // actions they cause as one batch. A read can fail at the peer at any time.
  datatype WorldStep =
    | Happens(event: RuntimeEvent, around: Surroundings)
    | Captures(inputs: seq<InputEvent>, around: Surroundings)
    | Inspects(bounds: Rect, pointer: Point, around: Surroundings)
    | Heartbeat(write: Write)
    | Interrupted
    | Attach(peer: string)
    | Detach
  {
    predicate IsBatch() { Happens? || Captures? || Inspects? }
  }

  // The routing state and the actions of a batch, before it is dispatched.
  function Transition(r: Routing, step: WorldStep): (Routing, seq<CoreAction>)
    requires step.IsBatch()
  {
    match step
    case Happens(event, _) =>
      (match Step(r.core, event).1
       case Err(_) => (r, [])
       case Ok(actions) => (r.(core := Step(r.core, event).0), actions))
    case Captures(inputs, _) => Drain(r, inputs)
    case Inspects(bounds, pointer, _) =>
      var (r', response) := Inspect(r, bounds, pointer, false);
      (r', match response case Ok(actions) => actions case Err(_) => [])
  }

  function Next(w: World, step: WorldStep, oracle: Oracle): World {
    if step.IsBatch() then
      var (r, actions) := Transition(w.routing, step);
      var (link, events, ok) := DispatchActions(w.link, actions, 0, step.around);
      World(
        if step.Inspects? then Inspect(w.routing, step.bounds, step.pointer, ok).0 else r,
        link, NoticeAll(w.remote, events, oracle))
    else
      match step
      case Heartbeat(write) =>
        var (link, events) := DispatchHeartbeat(w.link, write);
        w.(link := link, remote := NoticeAll(w.remote, events, oracle))
      case Interrupted =>
        if w.link.None? then w else w.(remote := Notice(w.remote, LinkSent(Broken), oracle))
      case Attach(peer) =>
        if w.link.Some? then w
        else w.(link := Some(Link(peer, 0, None)), remote := Notice(w.remote, LinkOpened, oracle))
      case Detach =>
        if w.link.None? then w
        else w.(link := None, remote := NoticeAll(w.remote, Closing(w.link.value.tail), oracle))
  }

  function Start(layout: ScreenLayout, pointer: Point): World { World(Routing(Fresh, pointer, layout), None, Idle([])) }

  function RunWorld(w: World, steps: seq<WorldStep>, oracle: Oracle): World
    decreases |steps|
  {
    if steps == [] then w else RunWorld(Next(w, steps[0], oracle), steps[1..], oracle)
  }

  // ---- The claim -------------------------------------------------------------------------------

  // In Remote mode the peer holds nothing that is not held locally; in every other mode nothing.
  predicate Fits(h: Holding, s: CoreState) {
    if s.control.Remote? then h.keys <= s.keys && h.buttons <= s.buttons else h == NOTHING
  }

  predicate Safe(w: World) { Fits(RemoteHolds(w.remote), w.Core()) }

  // Safe, or the latest release that the peer itself attempted has failed.
  predicate Covered(w: World) { Owed(Ops(w.remote)) || Safe(w) }

  // A recovery event, the panic chord, or a changed desktop.
  predicate Recovers(r: Routing, step: WorldStep) {
    || (step.Happens? && IsRecovery(step.event))
    || (step.Happens? && step.event.Input? && r.core.Record(step.event.input).PanicChord(step.event.input))
    || (step.Inspects? && step.bounds != r.layout.bounds)
  }

  // The peer holds something, and its latest release has not failed.
  predicate HoldsReleasably(remote: Remote) { RemoteHolds(remote) != NOTHING && !Owed(Ops(remote)) }

  // The world after the first k inputs of a drain have been applied and their actions dispatched.
  function Midway(w: World, inputs: seq<InputEvent>, k: nat, around: Surroundings, oracle: Oracle): World
    requires k <= |inputs|
  {
    Next(w, Captures(inputs[..k], around), oracle)
  }

  // Input k of a drain is the panic chord, everything before it is dispatched, and the release of
  // local inputs that comes next fails.
  predicate StopsAt(w: World, inputs: seq<InputEvent>, k: nat, around: Surroundings)
    requires k < |inputs|
  {
    var (r, sent) := Drain(w.routing, inputs[..k]);
    && DispatchActions(w.link, sent, 0, around).2
    && r.core.Record(inputs[k]).PanicChord(inputs[k])
    && !around.localOk(|sent|)
  }

  // The local release of a recovery fails while the peer holds something that it could release: what
  // is left of the batch, with the peer's release in it, will not be dispatched. An event and an
  // inspection are judged by the state before them, a drain by the state before its panic chord.
  predicate LosesRelease(w: World, step: WorldStep, oracle: Oracle) {
    match step
    case Captures(inputs, around) =>
      exists k :: 0 <= k < |inputs| && StopsAt(w, inputs, k, around)
               && HoldsReleasably(Midway(w, inputs, k, around, oracle).remote)
    case Happens(_, around) => Recovers(w.routing, step) && !around.localOk(0) && HoldsReleasably(w.remote)
    case Inspects(_, _, around) => Recovers(w.routing, step) && !around.localOk(0) && HoldsReleasably(w.remote)
    case _ => false
  }

  // ---- One link event at a time ----------------------------------------------------------------

  // The receiver serves exactly while a session is attached, and unless its latest release failed it
  // will release whatever it holds.
  predicate Linked(link: Option<Link>, remote: Remote) {
    match remote
    case Idle(ops) => link.None? && (Owed(ops) || Held(ops) == NOTHING)
    case Serving(p) => link.Some? && Accounted(p)
  }

  // No longer able to press anything.
  predicate Dead(remote: Remote) { remote.Idle? || remote.progress.Ended? }

  // What the peer is known to hold: nothing is known while a failed release is outstanding.
  function Known(remote: Remote): Option<Holding> {
    if Owed(Ops(remote)) then None else Some(RemoteHolds(remote))
  }

  // The effect of a command on what the peer is known to hold.
  function Effect(h: Option<Holding>, command: Command): Option<Holding> {
    match command
    case Forward(event) => (match h case None => None case Some(x) => Some(HeldAfter(x, Inject(event, true))))
    case ReleaseAll => Some(NOTHING)
    case _ => h
  }

  // Linked, and a peer that can still press something holds what is expected.
  predicate Settled(link: Option<Link>, remote: Remote, expected: Option<Holding>) {
    && Linked(link, remote)
    && (Dead(remote) || Owed(Ops(remote)) || expected == Some(RemoteHolds(remote)))
  }

  lemma {:induction false} NoticingOne(link: Option<Link>, remote: Remote, incoming: Incoming, oracle: Oracle)
    requires link.Some? && Linked(link, remote)
    ensures Linked(link, Notice(remote, LinkSent(incoming), oracle))
    ensures incoming.Broken? ==> Dead(Notice(remote, LinkSent(incoming), oracle))
    ensures Dead(remote) ==> Notice(remote, LinkSent(incoming), oracle) == remote
  {
    if !Dead(remote) {
      ReceiveIsAccounted(remote.progress.receiver, incoming, oracle);
    }
  }

  lemma {:induction false} NoticingMany(link: Option<Link>, remote: Remote, read: seq<Incoming>, oracle: Oracle)
    requires link.Some? && Linked(link, remote)
    ensures Linked(link, NoticeAll(remote, Sent(read), oracle))
    decreases |read|
  {
    if read == [] {
    } else {
      NoticingOne(link, remote, read[0], oracle);
      assert Sent(read)[0] == LinkSent(read[0]) && Sent(read)[1..] == Sent(read[1..]);
      NoticingMany(link, Notice(remote, LinkSent(read[0]), oracle), read[1..], oracle);
    }
  }

  // A delivered command has its effect, or the receiver has ended the session.
  lemma {:induction false} NoticingACommand(
    link: Option<Link>, remote: Remote, number: u64, command: Command, oracle: Oracle)
    requires link.Some? && Linked(link, remote)
    ensures Settled(
      link, Notice(remote, LinkSent(Received(CommandFrame(number, ToPayload(command)))), oracle),
      Effect(Known(remote), command))
  {
    NoticingOne(link, remote, Received(CommandFrame(number, ToPayload(command))), oracle);
    if !Dead(remote) {
      var r := remote.progress.receiver;
      CommandRoundTrip(command);
      var (ops, ok) := Perform(r.ops, command, oracle);
      match command {
        case Forward(event) =>
          HeldOneMore(r.ops, Inject(event, ok));
          OwedOneMore(r.ops, Inject(event, ok));
        case ReleaseAll =>
          HeldOneMore(r.ops, Release(ok));
          OwedOneMore(r.ops, Release(ok));
        case _ =>
      }
    }
  }

  lemma {:induction false} NoticingTheEnd(link: Option<Link>, remote: Remote, oracle: Oracle)
    requires Linked(link, remote)
    ensures Linked(None, Notice(remote, LinkClosed, oracle)) && Notice(remote, LinkClosed, oracle).Idle?
  {
    if remote.Serving? && remote.progress.Running? {
      var r := remote.progress.receiver;
      HeldOneMore(r.ops, Release(oracle.releaseOk(|r.ops|)));
      OwedOneMore(r.ops, Release(oracle.releaseOk(|r.ops|)));
    }
  }

  lemma {:induction false} NoticeConcat(remote: Remote, a: seq<LinkEvent>, b: seq<LinkEvent>, oracle: Oracle)
    ensures NoticeAll(remote, a + b, oracle) == NoticeAll(NoticeAll(remote, a, oracle), b, oracle)
    decreases |a|
  {
    if a == [] {
      assert a + b == b;
    } else {
      assert (a + b)[1..] == a[1..] + b;
      NoticeConcat(Notice(remote, a[0], oracle), a[1..], b, oracle);
    }
  }

  lemma {:induction false} NoticeOne(remote: Remote, event: LinkEvent, oracle: Oracle)
    ensures NoticeAll(remote, [event], oracle) == Notice(remote, event, oracle)
  {
  }

  lemma {:induction false} NoticingClosing(
    link: Option<Link>, remote: Remote, read: seq<Incoming>, tail: Option<Incoming>, oracle: Oracle)
    requires link.Some? && Linked(link, remote)
    ensures var remote' := NoticeAll(remote, Sent(read) + Closing(tail), oracle);
      remote'.Idle? && Linked(None, remote')
  {
    var remote1 := NoticeAll(remote, Sent(read), oracle);
    var remote2 := NoticeAll(remote1, Sent(AtEnd(tail)), oracle);
    NoticeConcat(remote, Sent(read), Closing(tail), oracle);
    NoticeConcat(remote1, Sent(AtEnd(tail)), [LinkClosed], oracle);
    NoticingMany(link, remote, read, oracle);
    NoticingMany(link, remote1, AtEnd(tail), oracle);
    NoticingTheEnd(link, remote2, oracle);
    NoticeOne(remote2, LinkClosed, oracle);
  }

  // ---- Dispatching -----------------------------------------------------------------------------

  // Dispatching one command keeps both ends in step, whatever becomes of the write and of the peer's
  // platform calls; after a stop and after a failure the peer is no longer served.
  lemma {:induction false} DispatchingACommand(
    link: Option<Link>, remote: Remote, command: Command, write: Write, oracle: Oracle)
    requires Linked(link, remote)
    ensures var (link', events, ok) := DispatchCommand(link, command, write);
      var remote' := NoticeAll(remote, events, oracle);
      && Settled(link', remote', Effect(Known(remote), command))
      && (command.StopSession? || !ok ==> Dead(remote'))
  {
    if link.Some? {
      var l := link.value;
      if command.StartSession? && command.peer != l.peer {
        assert Sent([]) + Closing(l.tail) == Closing(l.tail);
        NoticingClosing(link, remote, [], l.tail, oracle);
      } else {
        var (next, lines, ok) := SendOne(l.next, Send(command, write));
        var (tail, read) := Written(l.tail, lines);
        if command.StopSession? || !ok {
          NoticingClosing(link, remote, read, tail, oracle);
        } else {
          assert Sent(read) == [LinkSent(read[0])];
          NoticeOne(remote, LinkSent(read[0]), oracle);
          NoticingOne(link, remote, read[0], oracle);
          NoticingACommand(link, remote, l.next, command, oracle);
        }
      }
    }
  }

  function ActionEffect(h: Option<Holding>, action: CoreAction): Option<Holding> {
    if ToCommand(action).Some? then Effect(h, ToCommand(action).value) else h
  }

  function BatchEffect(h: Option<Holding>, actions: seq<CoreAction>): Option<Holding>
    decreases |actions|
  {
    if actions == [] then h else BatchEffect(ActionEffect(h, actions[0]), actions[1..])
  }

  lemma {:induction false} BatchEffectConcat(h: Option<Holding>, a: seq<CoreAction>, b: seq<CoreAction>)
    ensures BatchEffect(h, a + b) == BatchEffect(BatchEffect(h, a), b)
    decreases |a|
  {
    if a == [] {
      assert a + b == b;
    } else {
      assert (a + b)[0] == a[0] && (a + b)[1..] == a[1..] + b;
      BatchEffectConcat(ActionEffect(h, a[0]), a[1..], b);
    }
  }

  // Starting from an unknown holding, the effect is unknown or the same from every holding.
  lemma {:induction false} EffectFromUnknown(h: Option<Holding>, actions: seq<CoreAction>)
    ensures BatchEffect(None, actions) == None || BatchEffect(None, actions) == BatchEffect(h, actions)
    decreases |actions|
  {
    if actions == [] {
    } else if ActionEffect(None, actions[0]) == None {
      EffectFromUnknown(ActionEffect(h, actions[0]), actions[1..]);
    } else {
      assert ActionEffect(None, actions[0]) == ActionEffect(h, actions[0]);
    }
  }

  // The position at which a batch stops because a release of local inputs fails there. A batch that
  // stops earlier, because a command could not be sent, never reaches it.
  function LocalStop(link: Option<Link>, actions: seq<CoreAction>, i: nat, around: Surroundings): (stop: Option<nat>)
    requires i <= |actions|
    ensures stop.Some? ==>
      i <= stop.value < |actions| && actions[stop.value].ReleaseLocalInputs? && !around.localOk(stop.value)
    decreases |actions| - i
  {
    if i == |actions| then None
    else if actions[i].ReleaseLocalInputs? && !around.localOk(i) then Some(i)
    else
      var (link', _, ok) := DispatchAction(link, actions[i], i, around);
      if ok then LocalStop(link', actions, i + 1, around) else None
  }

  // How far a batch is dispatched as far as local releases are concerned.
  function Reached(link: Option<Link>, actions: seq<CoreAction>, i: nat, around: Surroundings): (end: nat)
    requires i <= |actions|
    ensures i <= end <= |actions|
  {
    match LocalStop(link, actions, i, around) case None => |actions| case Some(stop) => stop
  }

  // The part of a batch before a failed local release has its effect on the peer.
  lemma {:induction false} DispatchingABatch(
    link: Option<Link>, remote: Remote, actions: seq<CoreAction>, i: nat, around: Surroundings, oracle: Oracle)
    requires Linked(link, remote) && i <= |actions|
    ensures var (link', events, ok) := DispatchActions(link, actions, i, around);
      Settled(
        link', NoticeAll(remote, events, oracle),
        BatchEffect(Known(remote), actions[i..Reached(link, actions, i, around)]))
    decreases |actions| - i
  {
    if i == |actions| || (actions[i].ReleaseLocalInputs? && !around.localOk(i)) {
      assert actions[i..i] == [];
    } else {
      DispatchingAnAction(link, remote, actions[i], i, around, oracle);
      BatchUnfolds(link, actions, i, around);
      var (link1, events1, ok1) := DispatchAction(link, actions[i], i, around);
      var remote1 := NoticeAll(remote, events1, oracle);
      if ok1 {
        DispatchingABatch(link1, remote1, actions, i + 1, around, oracle);
        DeadStaysDead(link1, remote1, actions, i + 1, around, oracle);
        var (link', events, ok) := DispatchActions(link1, actions, i + 1, around);
        NoticeConcat(remote, events1, events, oracle);
        var end := Reached(link1, actions, i + 1, around);
        SettledInTurn(
          link1, remote1, ActionEffect(Known(remote), actions[i]),
          link', NoticeAll(remote1, events, oracle), actions[i + 1..end]);
        assert actions[i..end][0] == actions[i] && actions[i..end][1..] == actions[i + 1..end];
      }
    }
  }

  lemma {:induction false} BatchUnfolds(
    link: Option<Link>, actions: seq<CoreAction>, i: nat, around: Surroundings)
    requires i < |actions| && !(actions[i].ReleaseLocalInputs? && !around.localOk(i))
    ensures var (link1, events1, ok1) := DispatchAction(link, actions[i], i, around);
      var (link', events, ok) := DispatchActions(link1, actions, i + 1, around);
      && DispatchActions(link, actions, i, around) ==
           (if ok1 then (link', events1 + events, ok) else (link1, events1, false))
      && Reached(link, actions, i, around) == (if ok1 then Reached(link1, actions, i + 1, around) else |actions|)
  {
  }

  lemma {:induction false} SettledInTurn(
    link: Option<Link>, remote: Remote, expected: Option<Holding>,
    link': Option<Link>, remote': Remote, actions: seq<CoreAction>)
    requires Settled(link, remote, expected) && Settled(link', remote', BatchEffect(Known(remote), actions))
    requires Dead(remote) ==> Dead(remote')
    ensures Settled(link', remote', BatchEffect(expected, actions))
  {
    EffectFromUnknown(expected, actions);
  }

  lemma {:induction false} DispatchingAnAction(
    link: Option<Link>, remote: Remote, action: CoreAction, i: nat, around: Surroundings, oracle: Oracle)
    requires Linked(link, remote)
    ensures var (link', events, ok) := DispatchAction(link, action, i, around);
      var remote' := NoticeAll(remote, events, oracle);
      && Settled(link', remote', ActionEffect(Known(remote), action))
      && (!ok && !action.ReleaseLocalInputs? ==> Dead(remote'))
  {
    if ToCommand(action).Some? {
      DispatchingACommand(link, remote, ToCommand(action).value, around.write(i), oracle);
    }
  }

  lemma {:induction false} DeadStaysDead(
    link: Option<Link>, remote: Remote, actions: seq<CoreAction>, i: nat, around: Surroundings, oracle: Oracle)
    requires i <= |actions|
    ensures Dead(remote) ==> Dead(NoticeAll(remote, DispatchActions(link, actions, i, around).1, oracle))
    decreases |actions| - i
  {
    if i == |actions| || !Dead(remote) {
    } else {
      var (link1, events1, ok1) := DispatchAction(link, actions[i], i, around);
      DeadUnderEvents(remote, events1, oracle);
      if ok1 {
        NoticeConcat(remote, events1, DispatchActions(link1, actions, i + 1, around).1, oracle);
        DeadStaysDead(link1, NoticeAll(remote, events1, oracle), actions, i + 1, around, oracle);
      }
    }
  }

  lemma {:induction false} DeadUnderEvents(remote: Remote, events: seq<LinkEvent>, oracle: Oracle)
    requires Dead(remote) && forall e :: e in events ==> !e.LinkOpened?
    ensures Dead(NoticeAll(remote, events, oracle))
    decreases |events|
  {
    if events == [] {
    } else {
      assert !events[0].LinkOpened?;
      DeadUnderEvents(Notice(remote, events[0], oracle), events[1..], oracle);
    }
  }

  // ---- What a batch is for ---------------------------------------------------------------------

  // The holding after the actions fits the state they lead to.
  predicate Maintains(h: Holding, actions: seq<CoreAction>, s: CoreState) {
    var e := BatchEffect(Some(h), actions);
    e.Some? && Fits(e.value, s)
  }

  // What the actions of one event do to the peer fits the mode the event leads to.
  lemma {:induction false} StepMaintains(s: CoreState, event: RuntimeEvent, h: Holding)
    requires Step(s, event).1.Ok? && Fits(h, s)
    ensures Maintains(h, Step(s, event).1.value, Step(s, event).0)
  {
    ShortBatchEffect(Some(h), Step(s, event).1.value);
  }

  lemma {:induction false} ShortBatchEffect(h: Option<Holding>, actions: seq<CoreAction>)
    requires |actions| <= 3
    ensures BatchEffect(h, actions) ==
      var h1 := if |actions| > 0 then ActionEffect(h, actions[0]) else h;
      var h2 := if |actions| > 1 then ActionEffect(h1, actions[1]) else h1;
      if |actions| > 2 then ActionEffect(h2, actions[2]) else h2
    decreases |actions|
  {
    if actions == [] {
    } else {
      ShortBatchEffect(ActionEffect(h, actions[0]), actions[1..]);
    }
  }

  lemma {:induction false} DrainMaintains(r: Routing, inputs: seq<InputEvent>, h: Holding)
    requires Fits(h, r.core)
    ensures Maintains(h, Drain(r, inputs).1, Drain(r, inputs).0.core)
    decreases |inputs|
  {
    if inputs == [] {
    } else {
      CapturedInputIsAlwaysAccepted(r, inputs[0]);
      var (r1, response) := Route(r, inputs[0]);
      RouteMaintains(r, inputs[0], h);
      var h1 := BatchEffect(Some(h), response.value).value;
      DrainMaintains(r1, inputs[1..], h1);
      BatchEffectConcat(Some(h), response.value, Drain(r1, inputs[1..]).1);
    }
  }

  lemma {:induction false} RouteMaintains(r: Routing, input: InputEvent, h: Holding)
    requires Fits(h, r.core)
    ensures Route(r, input).1.Ok? && Maintains(h, Route(r, input).1.value, Route(r, input).0.core)
  {
    CapturedInputIsAlwaysAccepted(r, input);
    StepMaintains(r.core, RoutedEvent(r, input), h);
  }

  // The runtime event as which a captured input reaches the machine.
  function RoutedEvent(r: Routing, input: InputEvent): RuntimeEvent {
    if input.PointerMoved? && r.core.control.Local?
    then LocalPointerMoved(r.pointer, Moved(r.pointer, input.deltaX, input.deltaY), r.layout)
    else Input(input)
  }

  // The runtime events of a drain.
  function RoutedEvents(r: Routing, inputs: seq<InputEvent>): seq<RuntimeEvent>
    decreases |inputs|
  {
    if inputs == [] then [] else [RoutedEvent(r, inputs[0])] + RoutedEvents(Route(r, inputs[0]).0, inputs[1..])
  }

  // A drain of captured input is a run of the machine, one event for each input, with its state and its
  // actions.
  lemma {:induction false} DrainsAreRuns(r: Routing, inputs: seq<InputEvent>)
    ensures var events := RoutedEvents(r, inputs);
      && |events| == |inputs|
      && Drain(r, inputs).0.core == After(r.core, events)
      && Drain(r, inputs).1 == Actions(Observe(r.core, events))
    decreases |inputs|
  {
    if inputs == [] {
    } else {
      var first, next := RoutedEvent(r, inputs[0]), Route(r, inputs[0]).0;
      var rest := RoutedEvents(next, inputs[1..]);
      assert RoutedEvents(r, inputs)[1..] == rest;
      assert next.core == Step(r.core, first).0 && Route(r, inputs[0]).1 == Step(r.core, first).1;
      CapturedInputIsAlwaysAccepted(r, inputs[0]);
      DrainsAreRuns(next, inputs[1..]);
      StepLog(r.core, first);
      ActionsConcat(ObserveStep(r.core, first), Observe(next.core, rest));
    }
  }

  // In this run a movement under local control is offered to the crossing test; every other input, in
  // every mode, is plain input.
  lemma {:induction false} RoutedByMode(r: Routing, inputs: seq<InputEvent>, i: nat)
    requires i < |inputs|
    ensures var events := RoutedEvents(r, inputs);
      && i < |events|
      && if inputs[i].PointerMoved? && After(r.core, events[..i]).control.Local? then events[i].LocalPointerMoved?
         else events[i] == Input(inputs[i])
    decreases |inputs|
  {
    var first, next := RoutedEvent(r, inputs[0]), Route(r, inputs[0]).0;
    var events, rest := RoutedEvents(r, inputs), RoutedEvents(next, inputs[1..]);
    if i > 0 {
      RoutedByMode(next, inputs[1..], i - 1);
      assert next.core == Step(r.core, first).0;
      assert events[..i][0] == first && events[..i][1..] == rest[..i - 1];
    }
  }

  lemma {:induction false} TransitionMaintains(r: Routing, step: WorldStep, h: Holding)
    requires step.IsBatch() && Fits(h, r.core)
    ensures Maintains(h, Transition(r, step).1, Transition(r, step).0.core)
  {
    match step
    case Happens(event, _) => if Step(r.core, event).1.Ok? { StepMaintains(r.core, event, h); }
    case Captures(inputs, _) => DrainMaintains(r, inputs, h);
    case Inspects(bounds, _, _) => if bounds != r.layout.bounds { StepMaintains(r.core, ScreenLayoutChanged, h); }
  }

  // A batch with a local release in it has left Remote mode, and one that starts outside it forwards
  // nothing.
  predicate StaysBehind(s: CoreState, actions: seq<CoreAction>, s': CoreState) {
    && (forall k :: 0 <= k < |actions| && actions[k].ReleaseLocalInputs? ==> !s'.control.Remote?)
    && (!s.control.Remote? ==> forall k :: 0 <= k < |actions| ==> !actions[k].ForwardInput?)
  }

  lemma {:induction false} StepStaysBehind(s: CoreState, event: RuntimeEvent)
    requires Step(s, event).1.Ok?
    ensures StaysBehind(s, Step(s, event).1.value, Step(s, event).0)
    ensures forall k :: 0 < k < |Step(s, event).1.value| ==> !Step(s, event).1.value[k].ReleaseLocalInputs?
  {
  }

  lemma {:induction false} CapturedInputNeverEntersRemote(r: Routing, input: InputEvent)
    ensures !r.core.control.Remote? ==> !Route(r, input).0.core.control.Remote?
  {
  }

  lemma {:induction false} DrainStaysBehind(r: Routing, inputs: seq<InputEvent>)
    ensures StaysBehind(r.core, Drain(r, inputs).1, Drain(r, inputs).0.core)
    ensures !r.core.control.Remote? ==> !Drain(r, inputs).0.core.control.Remote?
    decreases |inputs|
  {
    if inputs == [] {
    } else {
      CapturedInputIsAlwaysAccepted(r, inputs[0]);
      var (r1, response) := Route(r, inputs[0]);
      StepStaysBehind(r.core, RoutedEvent(r, inputs[0]));
      CapturedInputNeverEntersRemote(r, inputs[0]);
      DrainStaysBehind(r1, inputs[1..]);
      assert Drain(r, inputs).1 == response.value + Drain(r1, inputs[1..]).1;
    }
  }

  lemma {:induction false} TransitionStaysBehind(r: Routing, step: WorldStep)
    requires step.IsBatch()
    ensures StaysBehind(r.core, Transition(r, step).1, Transition(r, step).0.core)
    ensures !step.Captures? ==>
      forall k :: 0 < k < |Transition(r, step).1| ==> !Transition(r, step).1[k].ReleaseLocalInputs?
  {
    match step
    case Happens(event, _) => if Step(r.core, event).1.Ok? { StepStaysBehind(r.core, event); }
    case Captures(inputs, _) => DrainStaysBehind(r, inputs);
    case Inspects(bounds, _, _) => if bounds != r.layout.bounds { StepStaysBehind(r.core, ScreenLayoutChanged); }
  }

  // ---- Recovery batches ------------------------------------------------------------------------

  // In every mode a recovery releases local inputs first. When that fails, nothing of the batch
  // reaches the peer.
  lemma {:induction false} FailedReleaseReachesNobody(w: World, step: WorldStep, oracle: Oracle)
    requires Recovers(w.routing, step) && !step.around.localOk(0)
    ensures Next(w, step, oracle) == w.(routing := w.routing.(core := w.Core().Reset(Local)))
  {
    var actions := Transition(w.routing, step).1;
    assert actions != [] && actions[0] == ReleaseLocalInputs;
    assert DispatchActions(w.link, actions, 0, step.around) == (w.link, [], false);
    assert NoticeAll(w.remote, [], oracle) == w.remote;
  }

  // In Local mode a recovery releases local inputs only: the peer is not reached.
  lemma {:induction false} LocalRecoveryDoesNotReachThePeer(w: World, step: WorldStep, oracle: Oracle)
    requires Recovers(w.routing, step) && w.Core().control.Local?
    ensures Next(w, step, oracle).link == w.link && Next(w, step, oracle).remote == w.remote
    ensures Next(w, step, oracle).Core() == w.Core().Reset(Local)
  {
    var actions := Transition(w.routing, step).1;
    assert actions == [ReleaseLocalInputs];
    assert DispatchActions(w.link, actions, 1, step.around) == (w.link, [], true);
    assert DispatchAction(w.link, actions[0], 0, step.around) == (w.link, [], step.around.localOk(0));
    var nothing: seq<LinkEvent> := [];
    assert nothing + nothing == nothing;
    assert DispatchActions(w.link, actions, 0, step.around) == (w.link, nothing, step.around.localOk(0));
    assert NoticeAll(w.remote, [], oracle) == w.remote;
  }

  // ---- Where a batch stops ---------------------------------------------------------------------

  // A batch in two parts: the second is dispatched exactly if the first succeeds.
  lemma {:induction false} DispatchInTwoParts(
    link: Option<Link>, a: seq<CoreAction>, b: seq<CoreAction>, i: nat, around: Surroundings)
    requires i <= |a|
    ensures var (link', events, ok) := DispatchActions(link, a, i, around);
      var rest := DispatchActions(link', a + b, |a|, around);
      DispatchActions(link, a + b, i, around) == if ok then (rest.0, events + rest.1, rest.2) else (link', events, ok)
    decreases |a| - i
  {
    if i == |a| {
      var rest := DispatchActions(link, a + b, |a|, around);
      assert [] + rest.1 == rest.1;
    } else {
      var (link1, events1, ok1) := DispatchAction(link, a[i], i, around);
      assert (a + b)[i] == a[i];
      DispatchInTwoParts(link1, a, b, i + 1, around);
      if ok1 {
        var (link', events, _) := DispatchActions(link1, a, i + 1, around);
        var rest := DispatchActions(link', a + b, |a|, around);
        assert events1 + (events + rest.1) == (events1 + events) + rest.1;
      }
    }
  }

  lemma {:induction false} StopInTwoParts(
    link: Option<Link>, a: seq<CoreAction>, b: seq<CoreAction>, i: nat, around: Surroundings)
    requires i <= |a|
    ensures var (link', _, ok) := DispatchActions(link, a, i, around);
      LocalStop(link, a + b, i, around) ==
        if ok then LocalStop(link', a + b, |a|, around) else LocalStop(link, a, i, around)
    decreases |a| - i
  {
    if i == |a| {
    } else {
      assert (a + b)[i] == a[i];
      StopInTwoParts(DispatchAction(link, a[i], i, around).0, a, b, i + 1, around);
    }
  }

  // Only the first action of a captured input can release local inputs, and only the panic chord has
  // such an action.
  lemma {:induction false} OnlyTheChordReleasesLocally(r: Routing, input: InputEvent)
    ensures Route(r, input).1.Ok?
    ensures var actions := Route(r, input).1.value;
      && (forall k :: 0 < k < |actions| ==> !actions[k].ReleaseLocalInputs?)
      && (actions != [] && actions[0].ReleaseLocalInputs? <==> r.core.Record(input).PanicChord(input))
  {
    CapturedInputIsAlwaysAccepted(r, input);
    StepStaysBehind(r.core, RoutedEvent(r, input));
  }

  // Stopping at input k: everything before it is dispatched and nothing from it on.
  lemma {:induction false} StoppingAtTheChord(w: World, inputs: seq<InputEvent>, k: nat, around: Surroundings)
    requires k < |inputs| && StopsAt(w, inputs, k, around)
    ensures var sent := Drain(w.routing, inputs[..k]).1;
      var all := Drain(w.routing, inputs).1;
      var (link, events, _) := DispatchActions(w.link, sent, 0, around);
      && DispatchActions(w.link, all, 0, around) == (link, events, false)
      && LocalStop(w.link, all, 0, around) == Some(|sent|)
  {
    var (r, sent) := Drain(w.routing, inputs[..k]);
    var rest := Drain(r, inputs[k..]).1;
    assert inputs == inputs[..k] + inputs[k..];
    DrainConcat(w.routing, inputs[..k], inputs[k..]);
    OnlyTheChordReleasesLocally(r, inputs[k]);
    assert rest == Route(r, inputs[k]).1.value + Drain(Route(r, inputs[k]).0, inputs[k..][1..]).1;
    assert rest[0] == ReleaseLocalInputs && (sent + rest)[|sent|] == rest[0];
    DispatchInTwoParts(w.link, sent, rest, 0, around);
    StopInTwoParts(w.link, sent, rest, 0, around);
    var (link, events, _) := DispatchActions(w.link, sent, 0, around);
    assert DispatchActions(link, sent + rest, |sent|, around) == (link, [], false);
    assert events + [] == events;
  }

  // A drain stops at a failed local release exactly if it stops at one of its inputs.
  lemma {:induction false} DrainStopsExactly(w: World, inputs: seq<InputEvent>, around: Surroundings)
    ensures LocalStop(w.link, Drain(w.routing, inputs).1, 0, around).Some?
       <==> exists k :: 0 <= k < |inputs| && StopsAt(w, inputs, k, around)
  {
    if k :| 0 <= k < |inputs| && StopsAt(w, inputs, k, around) {
      StoppingAtTheChord(w, inputs, k, around);
    }
    if LocalStop(w.link, Drain(w.routing, inputs).1, 0, around).Some? {
      var k := StoppingInput(w, inputs, around);
    }
  }

  lemma {:induction false} StoppingInput(w: World, inputs: seq<InputEvent>, around: Surroundings) returns (k: nat)
    requires LocalStop(w.link, Drain(w.routing, inputs).1, 0, around).Some?
    ensures k < |inputs| && StopsAt(w, inputs, k, around)
    decreases |inputs|
  {
    var n := |inputs| - 1;
    var init, last := inputs[..n], inputs[n];
    var (r, sent) := Drain(w.routing, init);
    var own := Route(r, last).1.value;
    assert inputs == init + [last];
    DrainOneMore(w.routing, init, last);
    StopInTwoParts(w.link, sent, own, 0, around);
    var (link, _, ok) := DispatchActions(w.link, sent, 0, around);
    if !ok {
      k := StoppingInput(w, init, around);
      assert inputs[..k] == init[..k] && inputs[k] == init[k];
    } else {
      k := n;
      OnlyTheChordReleasesLocally(r, last);
      var stop := LocalStop(link, sent + own, |sent|, around).value;
      assert (sent + own)[stop] == own[stop - |sent|];
      assert stop == |sent|;
    }
  }

  // The batch of an event or an inspection stops exactly if it recovers and its local release fails.
  lemma {:induction false} EventStopsExactly(w: World, step: WorldStep)
    requires step.Happens? || step.Inspects?
    ensures LocalStop(w.link, Transition(w.routing, step).1, 0, step.around).Some?
       <==> Recovers(w.routing, step) && !step.around.localOk(0)
  {
    var actions := Transition(w.routing, step).1;
    TransitionStaysBehind(w.routing, step);
    var stop := LocalStop(w.link, actions, 0, step.around);
    if stop.Some? {
      assert actions[stop.value].ReleaseLocalInputs? && stop.value == 0;
    } else if Recovers(w.routing, step) {
      assert actions != [] && actions[0] == ReleaseLocalInputs;
    }
  }

  // A release is lost exactly when the batch stops at a failed local release and the peer is then
  // left holding something that it could release.
  lemma {:induction false} LosesReleaseAtAStop(w: World, step: WorldStep, oracle: Oracle)
    requires step.IsBatch()
    ensures LosesRelease(w, step, oracle) <==>
      && LocalStop(w.link, Transition(w.routing, step).1, 0, step.around).Some?
      && HoldsReleasably(Next(w, step, oracle).remote)
  {
    match step
    case Captures(inputs, around) => DrainLosesReleaseAtAStop(w, inputs, around, oracle);
    case Happens(_, _) =>
      EventStopsExactly(w, step);
      if Recovers(w.routing, step) && !step.around.localOk(0) { FailedReleaseReachesNobody(w, step, oracle); }
    case Inspects(_, _, _) =>
      EventStopsExactly(w, step);
      if Recovers(w.routing, step) && !step.around.localOk(0) { FailedReleaseReachesNobody(w, step, oracle); }
  }

  lemma {:induction false} DrainLosesReleaseAtAStop(
    w: World, inputs: seq<InputEvent>, around: Surroundings, oracle: Oracle)
    ensures LosesRelease(w, Captures(inputs, around), oracle) <==>
      && LocalStop(w.link, Drain(w.routing, inputs).1, 0, around).Some?
      && HoldsReleasably(Next(w, Captures(inputs, around), oracle).remote)
  {
    DrainStopsExactly(w, inputs, around);
    forall k | 0 <= k < |inputs| && StopsAt(w, inputs, k, around)
      ensures Midway(w, inputs, k, around, oracle).remote == Next(w, Captures(inputs, around), oracle).remote
    {
      StoppingAtTheChord(w, inputs, k, around);
    }
  }

  // ---- The theorem -----------------------------------------------------------------------------

  predicate Good(w: World) { Linked(w.link, w.remote) && Covered(w) }

  // One step from a good world, under any failures of writes, local releases and the peer's platform:
  // the claim holds afterwards if and only if the step does not lose a release.
  lemma {:induction false} StepIsSafeExactly(w: World, step: WorldStep, oracle: Oracle)
    requires Good(w)
    ensures Linked(Next(w, step, oracle).link, Next(w, step, oracle).remote)
    ensures Covered(Next(w, step, oracle)) <==> !LosesRelease(w, step, oracle)
  {
    match step
    case Happens(_, _) => BatchIsSafeExactly(w, step, oracle);
    case Captures(_, _) => BatchIsSafeExactly(w, step, oracle);
    case Inspects(_, _, _) => BatchIsSafeExactly(w, step, oracle);
    case Attach(_) =>
    case Detach =>
      if w.link.Some? {
        assert Sent([]) + Closing(w.link.value.tail) == Closing(w.link.value.tail);
        NoticingClosing(w.link, w.remote, [], w.link.value.tail, oracle);
      }
    case Interrupted =>
      if w.link.Some? {
        NoticingOne(w.link, w.remote, Broken, oracle);
      }
    case Heartbeat(write) =>
      HeartbeatIsSafe(w, write, oracle);
  }

  lemma {:induction false} HeartbeatIsSafe(w: World, write: Write, oracle: Oracle)
    requires Good(w)
    ensures Good(Next(w, Heartbeat(write), oracle))
  {
    if w.link.Some? {
      var l := w.link.value;
      var read := Written(l.tail, SendOne(l.next, Beat(write)).1).1;
      if read != [] {
        assert Sent(read) == [LinkSent(read[0])];
        NoticeOne(w.remote, LinkSent(read[0]), oracle);
        NoticingOne(w.link, w.remote, read[0], oracle);
        BeatsPressNothing(w.remote, read[0], oracle);
      }
    }
  }

  lemma {:induction false} BeatsPressNothing(remote: Remote, incoming: Incoming, oracle: Oracle)
    requires incoming.Broken? || incoming.frame.HeartbeatFrame?
    ensures var remote' := Notice(remote, LinkSent(incoming), oracle);
      Ops(remote') == Ops(remote) || Dead(remote')
  {
  }

  lemma {:induction false} BatchIsSafeExactly(w: World, step: WorldStep, oracle: Oracle)
    requires Good(w) && step.IsBatch()
    ensures Linked(Next(w, step, oracle).link, Next(w, step, oracle).remote)
    ensures Covered(Next(w, step, oracle)) <==> !LosesRelease(w, step, oracle)
  {
    var (r, actions) := Transition(w.routing, step);
    var w' := Next(w, step, oracle);
    LosesReleaseAtAStop(w, step, oracle);
    DispatchingABatch(w.link, w.remote, actions, 0, step.around, oracle);
    TransitionStaysBehind(w.routing, step);
    assert w'.Core() == r.core;
    var stop := LocalStop(w.link, actions, 0, step.around);
    if stop.Some? {
      assert actions[stop.value].ReleaseLocalInputs?;
      assert !w'.Core().control.Remote?;
    } else if !Dead(w'.remote) && !Owed(Ops(w'.remote)) {
      assert actions[0..|actions|] == actions;
      var h := if Known(w.remote).Some? then RemoteHolds(w.remote) else NOTHING;
      TransitionMaintains(w.routing, step, h);
      EffectFromUnknown(Some(h), actions);
    }
  }

  predicate LosesNoRelease(w: World, steps: seq<WorldStep>, oracle: Oracle)
    decreases |steps|
  {
    steps == [] || (!LosesRelease(w, steps[0], oracle) && LosesNoRelease(Next(w, steps[0], oracle), steps[1..], oracle))
  }

  // Over every run, with heartbeats anywhere, sessions attached, detached and interrupted anywhere,
  // and writes, local releases and the peer's platform calls failing anywhere: the claim holds after
  // every prefix if and only if no step loses a release.
  lemma {:induction false} NothingStaysPressed(w: World, steps: seq<WorldStep>, oracle: Oracle)
    requires Good(w)
    ensures (forall k :: 0 <= k <= |steps| ==> Covered(RunWorld(w, steps[..k], oracle)))
       <==> LosesNoRelease(w, steps, oracle)
    decreases |steps|
  {
    if steps == [] {
      assert forall k :: 0 <= k <= |steps| ==> steps[..k] == [];
    } else {
      var w1 := Next(w, steps[0], oracle);
      StepIsSafeExactly(w, steps[0], oracle);
      PrefixesOfARun(w, steps, oracle);
      if Covered(w1) {
        NothingStaysPressed(w1, steps[1..], oracle);
      } else {
        assert RunWorld(w, steps[..1], oracle) == w1;
      }
      assert RunWorld(w, steps[..0], oracle) == w;
    }
  }

  lemma {:induction false} PrefixesOfARun(w: World, steps: seq<WorldStep>, oracle: Oracle)
    requires steps != []
    ensures forall k :: 0 < k <= |steps| ==>
      RunWorld(w, steps[..k], oracle) == RunWorld(Next(w, steps[0], oracle), steps[1..][..k - 1], oracle)
    ensures forall k :: 0 <= k < |steps| ==>
      RunWorld(Next(w, steps[0], oracle), steps[1..][..k], oracle) == RunWorld(w, steps[..k + 1], oracle)
  {
    forall k | 0 < k <= |steps|
      ensures RunWorld(w, steps[..k], oracle) == RunWorld(Next(w, steps[0], oracle), steps[1..][..k - 1], oracle)
    {
      assert steps[..k][0] == steps[0] && steps[..k][1..] == steps[1..][..k - 1];
    }
    forall k | 0 <= k < |steps|
      ensures RunWorld(Next(w, steps[0], oracle), steps[1..][..k], oracle) == RunWorld(w, steps[..k + 1], oracle)
    {
      assert steps[..k + 1][0] == steps[0] && steps[..k + 1][1..] == steps[1..][..k];
    }
  }

  lemma {:induction false} NothingStaysPressedFromTheStart(
    layout: ScreenLayout, pointer: Point, steps: seq<WorldStep>, oracle: Oracle)
    ensures (forall k :: 0 <= k <= |steps| ==> Covered(RunWorld(Start(layout, pointer), steps[..k], oracle)))
       <==> LosesNoRelease(Start(layout, pointer), steps, oracle)
  {
    NothingStaysPressed(Start(layout, pointer), steps, oracle);
  }

  // ---- What the daemon can see -----------------------------------------------------------------

  // In Remote mode a local release in the batch fails; if the batch is that of a single event, some
  // key or button is pressed.
  predicate RisksRelease(w: World, step: WorldStep) {
    && step.IsBatch() && w.Core().control.Remote?
    && (step.Captures? || w.Core().keys != {} || w.Core().buttons != {})
    && var actions := Transition(w.routing, step).1;
       exists k :: 0 <= k < |actions| && actions[k].ReleaseLocalInputs? && !step.around.localOk(k)
  }

  lemma {:induction false} LosingIsRisking(w: World, step: WorldStep, oracle: Oracle)
    requires Good(w) && LosesRelease(w, step, oracle)
    ensures RisksRelease(w, step)
  {
    var actions := Transition(w.routing, step).1;
    LosesReleaseAtAStop(w, step, oracle);
    var stop := LocalStop(w.link, actions, 0, step.around).value;
    DispatchingABatch(w.link, w.remote, actions, 0, step.around, oracle);
    TransitionStaysBehind(w.routing, step);
    var sent := actions[0..stop];
    assert BatchEffect(Known(w.remote), sent) == Some(RemoteHolds(Next(w, step, oracle).remote));
    if !w.Core().control.Remote? {
      assert forall k :: 0 <= k < |sent| ==> sent[k] == actions[k];
      NothingPressedNothingHeld(Known(w.remote), sent);
      assert false;
    }
    assert actions[stop].ReleaseLocalInputs?;
    if !step.Captures? {
      assert stop == 0 && sent == [];
    }
  }

  // Forwards the press of a key or a button.
  predicate Presses(action: CoreAction) {
    action.ForwardInput? && IsPress(action.event)
  }

  lemma {:induction false} NothingPressedNow(h: Option<Holding>, action: CoreAction)
    requires (h == None || h == Some(NOTHING)) && !Presses(action)
    ensures ActionEffect(h, action) == None || ActionEffect(h, action) == Some(NOTHING)
  {
    if action.ForwardInput? {
      assert HeldAfter(NOTHING, Inject(action.event, true)) == NOTHING;
    }
  }

  lemma {:induction false} NothingPressedNothingHeld(h: Option<Holding>, actions: seq<CoreAction>)
    requires h == None || h == Some(NOTHING)
    requires forall k :: 0 <= k < |actions| ==> !Presses(actions[k])
    ensures BatchEffect(h, actions) == None || BatchEffect(h, actions) == Some(NOTHING)
    decreases |actions|
  {
    if actions == [] {
    } else {
      assert !Presses(actions[0]);
      NothingPressedNow(h, actions[0]);
      NothingPressedNothingHeld(ActionEffect(h, actions[0]), actions[1..]);
    }
  }

  predicate RisksNoRelease(w: World, steps: seq<WorldStep>, oracle: Oracle)
    decreases |steps|
  {
    steps == [] || (!RisksRelease(w, steps[0]) && RisksNoRelease(Next(w, steps[0], oracle), steps[1..], oracle))
  }

  // A run whose local releases succeed whenever control is remote and something is pressed keeps the
  // claim throughout.
  lemma {:induction false} RunsWithoutRiskAreSafe(w: World, steps: seq<WorldStep>, oracle: Oracle)
    requires Good(w) && RisksNoRelease(w, steps, oracle)
    ensures LosesNoRelease(w, steps, oracle) && Good(RunWorld(w, steps, oracle))
    decreases |steps|
  {
    if steps == [] {
    } else {
      if LosesRelease(w, steps[0], oracle) {
        LosingIsRisking(w, steps[0], oracle);
      }
      StepIsSafeExactly(w, steps[0], oracle);
      RunsWithoutRiskAreSafe(Next(w, steps[0], oracle), steps[1..], oracle);
    }
  }
}
