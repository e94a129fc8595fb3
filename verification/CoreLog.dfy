// The control state machine as a function of its own log. Nothing here looks at a state: the mode, the
// peer, the session, the pointer and the presses are read off the entries of the log, and so is what
// the machine does next.
module CoreLog {
  import opened Wrappers
  import opened Geometry
  import opened CoreState
  import opened CoreRuns

  type Log = seq<Observation>

  // ---- Reading the log -------------------------------------------------------------------------

  // Where the latest entry that hands over control has left it.
  function ModeIn(log: Log): ControlMode {
    if log == [] then LocalMode
    else
      match log[|log| - 1]
      case Act(StartRemoteSession(_, _)) => EnteringRemoteMode
      case Act(ReleaseLocalInputs) => LocalMode
      case Accepted(RemoteEntryConfirmed(_)) => RemoteMode
      case Accepted(RemoteLeaveRequested) => LeavingRemoteMode
      case Accepted(LocalControlConfirmed) => LocalMode
      case Accepted(TransportLost) => SuspendedMode
      case Accepted(RecoveryCompleted) => LocalMode
      case _ => ModeIn(log[..|log| - 1])
  }

  // The peer of the latest start.
  function PeerIn(log: Log): Option<string> {
    if log == [] then None
    else
      match log[|log| - 1]
      case Act(StartRemoteSession(peer, _)) => Some(peer)
      case _ => PeerIn(log[..|log| - 1])
  }

  // The id of the latest confirmation.
  function ConfirmedIn(log: Log): Option<string> {
    if log == [] then None
    else
      match log[|log| - 1]
      case Accepted(RemoteEntryConfirmed(session)) => Some(session)
      case _ => ConfirmedIn(log[..|log| - 1])
  }

  function SessionIn(log: Log): Option<string> { if ModeIn(log).RemoteMode? then ConfirmedIn(log) else None }

  // The point that the latest accepted movement reached.
  function PointerIn(log: Log): Option<Point> {
    if log == [] then None
    else
      match log[|log| - 1]
      case Accepted(LocalPointerMoved(_, next, _)) => Some(next)
      case _ => PointerIn(log[..|log| - 1])
  }

  // The entry ends the press: its own release, or what drops every press.
  predicate Undoes(o: Observation, press: InputEvent)
    requires IsPress(press)
  {
    || o == Accepted(Input(ReleaseOf(press)))
    || o == Act(ReleaseLocalInputs) || o == Accepted(RemoteLeaveRequested) || o == Accepted(TransportLost)
  }

  // The press was logged after whatever last undid it.
  predicate Down(log: Log, press: InputEvent)
    requires IsPress(press)
  {
    if log == [] || Undoes(log[|log| - 1], press) then false
    else log[|log| - 1] == Accepted(Input(press)) || Down(log[..|log| - 1], press)
  }

  ghost predicate SomethingIsDown(log: Log) { exists press :: IsPress(press) && Down(log, press) }

  predicate ChordIn(log: Log, input: InputEvent) {
    && input == Key(Code(0x0e), Pressed)
    && (Down(log, Key(LeftControl, Pressed)) || Down(log, Key(RightControl, Pressed)))
    && (Down(log, Key(LeftAlt, Pressed)) || Down(log, Key(RightAlt, Pressed)))
  }

  // ---- What comes next -------------------------------------------------------------------------

  // The modes in which an event is accepted.
  function ModesFor(event: RuntimeEvent): set<ControlMode> {
    match event
    case LocalPointerMoved(_, _, _) => {LocalMode}
    case RemoteEntryRequested(_) => {LocalMode}
    case RemoteEntryConfirmed(_) => {EnteringRemoteMode}
    case RemoteLeaveRequested => {EnteringRemoteMode, RemoteMode}
    case LocalControlConfirmed => {LeavingRemoteMode}
    case RecoveryCompleted => {SuspendedMode}
    case _ => {LocalMode, EnteringRemoteMode, RemoteMode, LeavingRemoteMode, SuspendedMode}
  }

  // The name of an event that can be refused.
  function NameOf(event: RuntimeEvent): string {
    match event
    case LocalPointerMoved(_, _, _) => "LocalPointerMoved"
    case RemoteEntryRequested(_) => "RemoteEntryRequested"
    case RemoteEntryConfirmed(_) => "RemoteEntryConfirmed"
    case RemoteLeaveRequested => "RemoteLeaveRequested"
    case LocalControlConfirmed => "LocalControlConfirmed"
    case RecoveryCompleted => "RecoveryCompleted"
    case _ => ""
  }

  predicate DuringASession(log: Log) { ModeIn(log) in {EnteringRemoteMode, RemoteMode} }

  // The actions that an accepted event causes after the log.
  ghost function ReactionTo(log: Log, event: RuntimeEvent): seq<CoreAction> {
    if IsRecovery(event) || (event.Input? && ChordIn(log, event.input)) then
      [ReleaseLocalInputs]
      + if DuringASession(log) || ModeIn(log).LeavingRemoteMode?
        then [ReleaseAllInputs, StopRemoteSession(SessionIn(log))] else []
    else
      match event
      case Input(input) => if ModeIn(log).RemoteMode? then [ForwardInput(input)] else []
      case LocalPointerMoved(previous, next, layout) =>
        (match DetectEdgeCrossing(previous, next, layout)
         case None => []
         case Some(c) => [StartRemoteSession(c.peerId, Some(c))])
      case RemoteEntryRequested(peer) => [StartRemoteSession(peer, None)]
      case RemoteLeaveRequested =>
        (if ModeIn(log).RemoteMode? || SomethingIsDown(log) then [ReleaseAllInputs] else [])
        + [StopRemoteSession(SessionIn(log))]
      case TransportLost => if DuringASession(log) || SomethingIsDown(log) then [ReleaseAllInputs] else []
      case _ => []
  }

  ghost function EntriesFor(log: Log, event: RuntimeEvent): Log {
    if ModeIn(log) in ModesFor(event) then [Accepted(event)] + Acts(ReactionTo(log, event))
    else [Rejected(event, InvalidTransition(ModeIn(log), NameOf(event)))]
  }

  // ---- The log decides -------------------------------------------------------------------------

  // The state is what the log says.
  ghost predicate Describes(log: Log, s: CoreState) {
    && s.control.Mode() == ModeIn(log)
    && (s.control.EnteringRemote? ==> PeerIn(log) == Some(s.control.pending))
    && (s.control.Remote? ==>
          PeerIn(log) == Some(s.control.active) && ConfirmedIn(log) == Some(s.control.session))
    && s.pointer == PointerIn(log)
    && (forall k :: k in s.keys <==> Down(log, Key(k, Pressed)))
    && (forall b :: b in s.buttons <==> Down(log, Button(b, Pressed)))
  }

  lemma {:induction false} DownIsHeld(log: Log, s: CoreState)
    requires Describes(log, s)
    ensures SomethingIsDown(log) <==> s.keys != {} || s.buttons != {}
  {
    if k :| k in s.keys {
      assert Down(log, Key(k, Pressed));
    }
    if b :| b in s.buttons {
      assert Down(log, Button(b, Pressed));
    }
    if press :| IsPress(press) && Down(log, press) {
      assert if press.Key? then press == Key(press.key, Pressed) else press == Button(press.button, Pressed);
    }
  }

  lemma {:induction false} ChordIsInTheLog(log: Log, s: CoreState, input: InputEvent)
    requires Describes(log, s)
    ensures s.Record(input).PanicChord(input) <==> ChordIn(log, input)
  {
  }

  lemma {:induction false} AcceptedByMode(s: CoreState, event: RuntimeEvent)
    ensures Step(s, event).1.Ok? <==> s.control.Mode() in ModesFor(event)
    ensures Step(s, event).1.Err? ==> Step(s, event).1.error == InvalidTransition(s.control.Mode(), NameOf(event))
  {
  }

  lemma {:induction false} ActsAsTheLogSays(log: Log, s: CoreState, event: RuntimeEvent)
    requires Describes(log, s) && Step(s, event).1.Ok?
    ensures Step(s, event).1.value == ReactionTo(log, event)
  {
    DownIsHeld(log, s);
    if event.Input? {
      ChordIsInTheLog(log, s, event.input);
    }
    assert s.control.Session() == SessionIn(log);
  }

  // One step of a described state adds the entries that the log asks for.
  lemma {:induction false} StepAsTheLogSays(log: Log, s: CoreState, event: RuntimeEvent)
    requires Describes(log, s)
    ensures ObserveStep(s, event) == EntriesFor(log, event)
  {
    AcceptedByMode(s, event);
    if Step(s, event).1.Ok? {
      ActsAsTheLogSays(log, s, event);
    }
  }

  // What the log says, kept up entry by entry.
  datatype View = View(
    mode: ControlMode, peer: Option<string>, confirmed: Option<string>, pointer: Option<Point>,
    keys: set<PhysicalKey>, buttons: set<MouseButton>)
  {
    function Read(o: Observation): View {
      match o
      case Act(StartRemoteSession(name, _)) => this.(mode := EnteringRemoteMode, peer := Some(name))
      case Act(ReleaseLocalInputs) => this.(mode := LocalMode, keys := {}, buttons := {})
      case Accepted(Input(Key(k, state))) => this.(keys := if state.Pressed? then keys + {k} else keys - {k})
      case Accepted(Input(Button(b, state))) =>
        this.(buttons := if state.Pressed? then buttons + {b} else buttons - {b})
      case Accepted(LocalPointerMoved(_, next, _)) => this.(pointer := Some(next))
      case Accepted(RemoteEntryConfirmed(session)) => this.(mode := RemoteMode, confirmed := Some(session))
      case Accepted(RemoteLeaveRequested) => this.(mode := LeavingRemoteMode, keys := {}, buttons := {})
      case Accepted(LocalControlConfirmed) => this.(mode := LocalMode)
      case Accepted(TransportLost) => this.(mode := SuspendedMode, keys := {}, buttons := {})
      case Accepted(RecoveryCompleted) => this.(mode := LocalMode)
      case _ => this
    }

    predicate Fits(s: CoreState) {
      && s.control.Mode() == mode && s.pointer == pointer && s.keys == keys && s.buttons == buttons
      && (s.control.EnteringRemote? ==> peer == Some(s.control.pending))
      && (s.control.Remote? ==> peer == Some(s.control.active) && confirmed == Some(s.control.session))
    }
  }

  ghost predicate Shows(log: Log, v: View) {
    && v.mode == ModeIn(log) && v.peer == PeerIn(log) && v.confirmed == ConfirmedIn(log)
    && v.pointer == PointerIn(log)
    && (forall k :: k in v.keys <==> Down(log, Key(k, Pressed)))
    && (forall b :: b in v.buttons <==> Down(log, Button(b, Pressed)))
  }

  lemma {:induction false} DownOneMore(log: Log, o: Observation, press: InputEvent)
    requires IsPress(press)
    ensures Down(log + [o], press) <==> !Undoes(o, press) && (o == Accepted(Input(press)) || Down(log, press))
  {
    assert (log + [o])[..|log + [o]| - 1] == log;
  }

  lemma {:induction false} LatestOneMore(log: Log, v: View, o: Observation)
    requires Shows(log, v)
    ensures var more, v' := log + [o], v.Read(o);
      && v'.mode == ModeIn(more) && v'.peer == PeerIn(more)
      && v'.confirmed == ConfirmedIn(more) && v'.pointer == PointerIn(more)
  {
    assert (log + [o])[..|log + [o]| - 1] == log;
  }

  lemma {:induction false} PressesOneMore(v: View, o: Observation)
    ensures forall k :: k in v.Read(o).keys <==>
      !Undoes(o, Key(k, Pressed)) && (o == Accepted(Input(Key(k, Pressed))) || k in v.keys)
    ensures forall b :: b in v.Read(o).buttons <==>
      !Undoes(o, Button(b, Pressed)) && (o == Accepted(Input(Button(b, Pressed))) || b in v.buttons)
  {
  }

  lemma {:induction false} ReadOneEntry(log: Log, v: View, o: Observation)
    requires Shows(log, v)
    ensures Shows(log + [o], v.Read(o))
  {
    LatestOneMore(log, v, o);
    PressesOneMore(v, o);
    forall k ensures k in v.Read(o).keys <==> Down(log + [o], Key(k, Pressed)) {
      DownOneMore(log, o, Key(k, Pressed));
    }
    forall b ensures b in v.Read(o).buttons <==> Down(log + [o], Button(b, Pressed)) {
      DownOneMore(log, o, Button(b, Pressed));
    }
  }

  function ReadAll(v: View, entries: Log): View
    decreases |entries|
  {
    if entries == [] then v else ReadAll(v.Read(entries[0]), entries[1..])
  }

  lemma {:induction false} ReadEntries(log: Log, v: View, entries: Log)
    requires Shows(log, v)
    ensures Shows(log + entries, ReadAll(v, entries))
    decreases |entries|
  {
    if entries == [] {
      assert log + entries == log;
    } else {
      ReadOneEntry(log, v, entries[0]);
      ReadEntries(log + [entries[0]], v.Read(entries[0]), entries[1..]);
      assert log + [entries[0]] + entries[1..] == log + entries;
    }
  }

  lemma {:induction false} ReadShort(v: View, entries: Log)
    requires 0 < |entries| <= 4
    ensures ReadAll(v, entries) ==
      var v1 := v.Read(entries[0]);
      var v2 := if |entries| > 1 then v1.Read(entries[1]) else v1;
      var v3 := if |entries| > 2 then v2.Read(entries[2]) else v2;
      if |entries| > 3 then v3.Read(entries[3]) else v3
    decreases |entries|
  {
    if |entries| == 1 {
    } else {
      ReadShort(v.Read(entries[0]), entries[1..]);
    }
  }

  // The view after one accepted event and its at most three actions.
  function ReadStep(v: View, event: RuntimeEvent, actions: seq<CoreAction>): View {
    var v1 := v.Read(Accepted(event));
    var v2 := if |actions| > 0 then v1.Read(Act(actions[0])) else v1;
    var v3 := if |actions| > 1 then v2.Read(Act(actions[1])) else v2;
    if |actions| > 2 then v3.Read(Act(actions[2])) else v3
  }

  lemma {:induction false} ActionsFit(v: View, s: CoreState, event: RuntimeEvent)
    requires v.Fits(s) && Step(s, event).1.Ok?
    ensures ReadStep(v, event, Step(s, event).1.value).Fits(Step(s, event).0)
  {
  }

  lemma {:induction false} StepFits(v: View, s: CoreState, event: RuntimeEvent)
    requires v.Fits(s)
    ensures ReadAll(v, ObserveStep(s, event)).Fits(Step(s, event).0)
  {
    var entries := ObserveStep(s, event);
    ReadShort(v, entries);
    if Step(s, event).1.Ok? {
      var actions := Step(s, event).1.value;
      assert |actions| <= 3 && entries[0] == Accepted(event);
      assert forall i :: 0 <= i < |actions| ==> entries[i + 1] == Act(actions[i]);
      ActionsFit(v, s, event);
    }
  }

  lemma {:induction false} StepIsDescribed(log: Log, s: CoreState, event: RuntimeEvent)
    requires Describes(log, s)
    ensures Describes(log + ObserveStep(s, event), Step(s, event).0)
  {
    var v := View(ModeIn(log), PeerIn(log), ConfirmedIn(log), PointerIn(log), s.keys, s.buttons);
    ReadEntries(log, v, ObserveStep(s, event));
    StepFits(v, s, event);
  }

  lemma {:induction false} OneMoreEvent(s: CoreState, events: seq<RuntimeEvent>, event: RuntimeEvent)
    ensures After(s, events + [event]) == Step(After(s, events), event).0
    ensures Observe(s, events + [event]) == Observe(s, events) + ObserveStep(After(s, events), event)
    decreases |events|
  {
    var all := events + [event];
    if events == [] {
      assert all[1..] == [] && ObserveStep(s, event) + [] == ObserveStep(s, event);
    } else {
      assert all[0] == events[0] && all[1..] == events[1..] + [event];
      OneMoreEvent(Step(s, events[0]).0, events[1..], event);
    }
  }

  // After every run the state is what the log says: the mode, the peer and the session in control, the
  // pointer, and every key and button that is held.
  lemma {:induction false} TheStateIsInTheLog(events: seq<RuntimeEvent>)
    ensures Describes(Observe(Fresh, events), After(Fresh, events))
    decreases |events|
  {
    if events == [] {
    } else {
      var init, last := events[..|events| - 1], events[|events| - 1];
      assert events == init + [last];
      TheStateIsInTheLog(init);
      OneMoreEvent(Fresh, init, last);
      StepIsDescribed(Observe(Fresh, init), After(Fresh, init), last);
    }
  }

  // After every run, whether the next event is accepted, the error if it is not and the actions if it
  // is are determined by the log.
  lemma {:induction false} TheLogDecides(events: seq<RuntimeEvent>, event: RuntimeEvent)
    ensures var log := Observe(Fresh, events);
      Observe(Fresh, events + [event]) == log + EntriesFor(log, event)
  {
    TheStateIsInTheLog(events);
    OneMoreEvent(Fresh, events, event);
    StepAsTheLogSays(Observe(Fresh, events), After(Fresh, events), event);
  }
}
