// The control state machine as a transition function on abstract states
// (crates/akraz-core/src/lib.rs). The record kept by the source, with its optional ids and its
// mirrored modifier flags, is the class in RuntimeInput.dfy, which refines this one.
module CoreState {
  import opened Wrappers
  import opened Ints
  import opened Geometry

  datatype PhysicalKey =
    | LeftShift | RightShift | LeftControl | RightControl
    | LeftAlt | RightAlt | LeftMeta | RightMeta
    | Code(code: u16)

  datatype MouseButton = ButtonLeft | ButtonRight | ButtonMiddle | ButtonBack | ButtonForward | Other(other: u16)

  datatype PressState = Pressed | Released

  // Captured and injected events have the same shape; forwarding is the identity on it.
  datatype InputEvent =
    | Key(key: PhysicalKey, state: PressState)
    | Button(button: MouseButton, press: PressState)
    | PointerMoved(deltaX: i32, deltaY: i32)
    | Scroll(scrollX: i32, scrollY: i32)

  // Of a key or a button.
  predicate IsPress(input: InputEvent) {
    (input.Key? && input.state.Pressed?) || (input.Button? && input.press.Pressed?)
  }

  function ReleaseOf(press: InputEvent): InputEvent
    requires IsPress(press)
  {
    if press.Key? then press.(state := Released) else press.(press := Released)
  }

  datatype ControlMode = LocalMode | EnteringRemoteMode | RemoteMode | LeavingRemoteMode | SuspendedMode

  datatype RuntimeEvent =
    | Input(input: InputEvent)
    | LocalPointerMoved(previous: Point, next: Point, layout: ScreenLayout)
    | RemoteEntryRequested(peerId: string)
    | RemoteEntryConfirmed(sessionId: string)
    | RemoteLeaveRequested
    | LocalControlConfirmed
    | EmergencyRecoveryRequested
    | ScreenLayoutChanged
    | PermissionLost
    | SystemResumed
    | TransportLost
    | RecoveryCompleted

  datatype CoreAction =
    | StartRemoteSession(peer: string, crossing: Option<EdgeCrossing>)
    | ForwardInput(event: InputEvent)
    | InputCaptureIdle
    | ReleaseLocalInputs
    | ReleaseAllInputs
    | StopRemoteSession(session: Option<string>)

  datatype TransitionError = InvalidTransition(mode: ControlMode, eventName: string)

  type Response = Result<seq<CoreAction>, TransitionError>

  const PANIC_KEY := Code(0x0e)

  // Who has control. The ids exist exactly where they mean something.
  datatype Control =
    | Local
    | EnteringRemote(pending: string)
    | Remote(active: string, session: string)
    | LeavingRemote
    | Suspended
  {
    function Mode(): ControlMode {
      match this
      case Local => LocalMode
      case EnteringRemote(_) => EnteringRemoteMode
      case Remote(_, _) => RemoteMode
      case LeavingRemote => LeavingRemoteMode
      case Suspended => SuspendedMode
    }

    function Session(): Option<string> { if Remote? then Some(session) else None }
  }

  datatype CoreState = CoreState(
    control: Control, pointer: Option<Point>, keys: set<PhysicalKey>, buttons: set<MouseButton>)
  {
    // Track one press or release.
    function Record(input: InputEvent): CoreState {
      match input
      case Key(k, Pressed) => this.(keys := keys + {k})
      case Key(k, Released) => this.(keys := keys - {k})
      case Button(b, Pressed) => this.(buttons := buttons + {b})
      case Button(b, Released) => this.(buttons := buttons - {b})
      case _ => this
    }

    // The panic key goes down while a Control and an Alt key are held.
    predicate PanicChord(input: InputEvent) {
      && input == Key(PANIC_KEY, Pressed)
      && (LeftControl in keys || RightControl in keys)
      && (LeftAlt in keys || RightAlt in keys)
    }

    // Drop every press and give control to `to`.
    function Reset(to: Control): CoreState { CoreState(to, pointer, {}, {}) }

    function Reject(name: string): (CoreState, Response) {
      (this, Err(InvalidTransition(control.Mode(), name)))
    }

    function Recover(): (CoreState, Response) {
      (Reset(Local),
       Ok([ReleaseLocalInputs] +
          if control.Local? || control.Suspended? then []
          else [ReleaseAllInputs, StopRemoteSession(control.Session())]))
    }
  }

  const Fresh := CoreState(Local, None, {}, {})

  function Step(s: CoreState, event: RuntimeEvent): (CoreState, Response) {
    match event
    case Input(input) =>
      var s' := s.Record(input);
      if s'.PanicChord(input) then s'.Recover()
      else (s', Ok(if s.control.Remote? then [ForwardInput(input)] else []))
    case LocalPointerMoved(previous, next, layout) =>
      if !s.control.Local? then s.Reject("LocalPointerMoved")
      else (
        match DetectEdgeCrossing(previous, next, layout)
        case None => (s.(pointer := Some(next)), Ok([]))
        case Some(c) =>
          (s.(control := EnteringRemote(c.peerId), pointer := Some(c.exit)),
           Ok([StartRemoteSession(c.peerId, Some(c))])))
    case RemoteEntryRequested(peer) =>
      if !s.control.Local? then s.Reject("RemoteEntryRequested")
      else (s.(control := EnteringRemote(peer)), Ok([StartRemoteSession(peer, None)]))
    case RemoteEntryConfirmed(session) =>
      if !s.control.EnteringRemote? then s.Reject("RemoteEntryConfirmed")
      else (s.(control := Remote(s.control.pending, session)), Ok([]))
    case RemoteLeaveRequested =>
      if !s.control.EnteringRemote? && !s.control.Remote? then s.Reject("RemoteLeaveRequested")
      else
        (s.Reset(LeavingRemote),
         Ok((if s.control.Remote? || s.keys != {} || s.buttons != {} then [ReleaseAllInputs] else []) +
            [StopRemoteSession(s.control.Session())]))
    case LocalControlConfirmed =>
      if !s.control.LeavingRemote? then s.Reject("LocalControlConfirmed") else (s.(control := Local), Ok([]))
    case EmergencyRecoveryRequested => s.Recover()
    case ScreenLayoutChanged => s.Recover()
    case PermissionLost => s.Recover()
    case SystemResumed => s.Recover()
    case TransportLost =>
      (s.Reset(Suspended),
       Ok(if s.control.EnteringRemote? || s.control.Remote? || s.keys != {} || s.buttons != {}
          then [ReleaseAllInputs] else []))
    case RecoveryCompleted =>
      if !s.control.Suspended? then s.Reject("RecoveryCompleted") else (s.(control := Local), Ok([]))
  }

  // The first rejected event ends a replay with its error.
  datatype Replay = Replay(state: CoreState, actions: seq<CoreAction>)

  function Run(s: CoreState, events: seq<RuntimeEvent>): Result<Replay, TransitionError>
    decreases |events|
  {
    if events == [] then Ok(Replay(s, []))
    else
      match Step(s, events[0]).1
      case Err(error) => Err(error)
      case Ok(actions) =>
        match Run(Step(s, events[0]).0, events[1..])
        case Err(error) => Err(error)
        case Ok(rest) => Ok(Replay(rest.state, actions + rest.actions))
  }
}
