// `RuntimeInputState` as the source keeps it: a mode, three optional ids, two pressed sets and a
// mirrored modifier record, changed field by field (crates/akraz-core/src/lib.rs).
module RuntimeInput {
  import opened Wrappers
  import opened Geometry
  import opened CoreState

  datatype ModifierState = ModifierState(
    leftShift: bool, rightShift: bool, leftControl: bool, rightControl: bool,
    leftAlt: bool, rightAlt: bool, leftMeta: bool, rightMeta: bool)
  {
    predicate HasControl() { leftControl || rightControl }

    predicate HasAlt() { leftAlt || rightAlt }

    function UpdateKey(key: PhysicalKey, state: PressState): ModifierState {
      var pressed := state.Pressed?;
      match key
      case LeftShift => this.(leftShift := pressed)
      case RightShift => this.(rightShift := pressed)
      case LeftControl => this.(leftControl := pressed)
      case RightControl => this.(rightControl := pressed)
      case LeftAlt => this.(leftAlt := pressed)
      case RightAlt => this.(rightAlt := pressed)
      case LeftMeta => this.(leftMeta := pressed)
      case RightMeta => this.(rightMeta := pressed)
      case Code(_) => this
    }

    // The flag of a key, if it is a modifier.
    function Flag(key: PhysicalKey): Option<bool> {
      match key
      case LeftShift => Some(leftShift)
      case RightShift => Some(rightShift)
      case LeftControl => Some(leftControl)
      case RightControl => Some(rightControl)
      case LeftAlt => Some(leftAlt)
      case RightAlt => Some(rightAlt)
      case LeftMeta => Some(leftMeta)
      case RightMeta => Some(rightMeta)
      case Code(_) => None
    }

    // Each flag says whether its key is held.
    ghost predicate Mirrors(keys: set<PhysicalKey>) {
      forall key :: Flag(key).Some? ==> Flag(key).value == (key in keys)
    }
  }

  const NO_MODIFIERS := ModifierState(false, false, false, false, false, false, false, false)

  lemma {:induction false} UpdateKeyMirrors(
    flags: ModifierState, keys: set<PhysicalKey>, key: PhysicalKey, state: PressState)
    requires flags.Mirrors(keys)
    ensures flags.UpdateKey(key, state).Mirrors(if state.Pressed? then keys + {key} else keys - {key})
  {
    var updated := flags.UpdateKey(key, state);
    forall other | updated.Flag(other).Some?
      ensures updated.Flag(other).value == if other == key then state.Pressed? else other in keys
    {
      UpdatedFlag(flags, key, state, other);
    }
  }

  lemma {:induction false} UpdatedFlag(
    flags: ModifierState, key: PhysicalKey, state: PressState, other: PhysicalKey)
    ensures flags.UpdateKey(key, state).Flag(other) ==
      if other == key && !key.Code? then Some(state.Pressed?) else flags.Flag(other)
  {
    match key
    case LeftShift =>
    case RightShift =>
    case LeftControl =>
    case RightControl =>
    case LeftAlt =>
    case RightAlt =>
    case LeftMeta =>
    case RightMeta =>
    case Code(_) =>
  }

  class RuntimeInputState {
    var mode: ControlMode
    var pendingPeerId: Option<string>
    var activePeerId: Option<string>
    var activeSessionId: Option<string>
    var lastLocalPointer: Option<Point>
    var pressedKeys: set<PhysicalKey>
    var pressedButtons: set<MouseButton>
    var modifiers: ModifierState

    // What holds of every reachable record: which ids are set is determined by the mode, and the
    // modifier flags mirror the pressed keys.
    ghost predicate Valid()
      reads this
    {
      && (pendingPeerId.Some? <==> mode == EnteringRemoteMode)
      && (activePeerId.Some? <==> mode == RemoteMode)
      && (activeSessionId.Some? <==> mode == RemoteMode)
      && modifiers.Mirrors(pressedKeys)
    }

    ghost function ControlState(): Control
      reads this
      requires Valid()
    {
      match mode
      case LocalMode => Local
      case EnteringRemoteMode => EnteringRemote(pendingPeerId.value)
      case RemoteMode => Remote(activePeerId.value, activeSessionId.value)
      case LeavingRemoteMode => LeavingRemote
      case SuspendedMode => Suspended
    }

    ghost function Abstract(): CoreState
      reads this
      requires Valid()
    {
      CoreState(ControlState(), lastLocalPointer, pressedKeys, pressedButtons)
    }

    constructor ()
      ensures Valid() && Abstract() == Fresh
    {
      mode := LocalMode;
      pendingPeerId, activePeerId, activeSessionId := None, None, None;
      lastLocalPointer := None;
      pressedKeys, pressedButtons, modifiers := {}, {}, NO_MODIFIERS;
    }

    // Every event, accepted or rejected, keeps the invariant and has the effect and the response
    // of one abstract step.
    method ApplyEvent(event: RuntimeEvent) returns (response: Response)
      requires Valid()
      modifies this
      ensures Valid() && (Abstract(), response) == Step(old(Abstract()), event)
    {
      match event {
        case Input(input) =>
          var actions := ApplyInput(input);
          response := Ok(actions);
        case LocalPointerMoved(previous, next, layout) =>
          response := ApplyLocalPointerMove(previous, next, layout);
        case RemoteEntryRequested(peerId) =>
          response := RequestRemoteEntry(peerId);
        case RemoteEntryConfirmed(sessionId) =>
          response := ConfirmRemoteEntry(sessionId);
        case RemoteLeaveRequested =>
          response := RequestRemoteLeave();
        case LocalControlConfirmed =>
          response := ConfirmLocalControl();
        case EmergencyRecoveryRequested =>
          var actions := HandlePanicHotkey();
          response := Ok(actions);
        case ScreenLayoutChanged =>
          var actions := HandleRecoveryInterrupt();
          response := Ok(actions);
        case PermissionLost =>
          var actions := HandleRecoveryInterrupt();
          response := Ok(actions);
        case SystemResumed =>
          var actions := HandleRecoveryInterrupt();
          response := Ok(actions);
        case TransportLost =>
          var actions := HandleTransportLost();
          response := Ok(actions);
        case RecoveryCompleted =>
          response := CompleteRecovery();
      }
    }

    method ApplyInput(input: InputEvent) returns (actions: seq<CoreAction>)
      requires Valid()
      modifies this
      ensures Valid() && (Abstract(), Ok(actions)) == Step(old(Abstract()), Input(input))
    {
      RecordInput(input);
      if IsPanicHotkeyPress(input) {
        actions := HandlePanicHotkey();
        return;
      }
      if mode == RemoteMode {
        actions := [ForwardInput(input)];
      } else {
        actions := [];
      }
    }

    predicate IsPanicHotkeyPress(input: InputEvent)
      reads this
    {
      input == Key(PANIC_KEY, Pressed) && modifiers.HasControl() && modifiers.HasAlt()
    }

    method ApplyLocalPointerMove(previous: Point, next: Point, layout: ScreenLayout) returns (response: Response)
      requires Valid()
      modifies this
      ensures Valid() && (Abstract(), response) == Step(old(Abstract()), LocalPointerMoved(previous, next, layout))
    {
      if mode != LocalMode {
        return Err(InvalidTransition(mode, "LocalPointerMoved"));
      }
      match DetectEdgeCrossing(previous, next, layout) {
        case Some(crossing) =>
          response := RequestRemoteEntryFromCrossing(crossing);
        case None =>
          lastLocalPointer := Some(next);
          response := Ok([]);
      }
    }

    method RequestRemoteEntry(peerId: string) returns (response: Response)
      requires Valid()
      modifies this
      ensures Valid() && (Abstract(), response) == Step(old(Abstract()), RemoteEntryRequested(peerId))
    {
      if mode != LocalMode {
        return Err(InvalidTransition(mode, "RemoteEntryRequested"));
      }
      mode := EnteringRemoteMode;
      pendingPeerId := Some(peerId);
      response := Ok([StartRemoteSession(peerId, None)]);
    }

    // The mode check of the source is repeated by its only caller, which has passed it already.
    method RequestRemoteEntryFromCrossing(crossing: EdgeCrossing) returns (response: Response)
      requires Valid()
      modifies this
      ensures Valid()
      ensures old(mode) != LocalMode ==>
        Abstract() == old(Abstract()) && response == Err(InvalidTransition(old(mode), "LocalPointerMoved"))
      ensures old(mode) == LocalMode ==>
        && Abstract() == old(Abstract()).(control := EnteringRemote(crossing.peerId), pointer := Some(crossing.exit))
        && response == Ok([StartRemoteSession(crossing.peerId, Some(crossing))])
    {
      if mode != LocalMode {
        return Err(InvalidTransition(mode, "LocalPointerMoved"));
      }
      mode := EnteringRemoteMode;
      pendingPeerId := Some(crossing.peerId);
      lastLocalPointer := Some(crossing.exit);
      response := Ok([StartRemoteSession(crossing.peerId, Some(crossing))]);
    }

    method ConfirmRemoteEntry(sessionId: string) returns (response: Response)
      requires Valid()
      modifies this
      ensures Valid() && (Abstract(), response) == Step(old(Abstract()), RemoteEntryConfirmed(sessionId))
    {
      if mode != EnteringRemoteMode {
        return Err(InvalidTransition(mode, "RemoteEntryConfirmed"));
      }
      if pendingPeerId.None? {
        // The source answers a missing pending peer with an error; that branch is unreachable.
        assert false;
      } else {
        mode := RemoteMode;
        activePeerId := pendingPeerId;
        pendingPeerId := None;
        activeSessionId := Some(sessionId);
        response := Ok([]);
      }
    }

    method RequestRemoteLeave() returns (response: Response)
      requires Valid()
      modifies this
      ensures Valid() && (Abstract(), response) == Step(old(Abstract()), RemoteLeaveRequested)
    {
      if mode != RemoteMode && mode != EnteringRemoteMode {
        return Err(InvalidTransition(mode, "RemoteLeaveRequested"));
      }
      var actions := [];
      if HasPressedInput() || activePeerId.Some? {
        actions := actions + [ReleaseAllInputs];
      }
      actions := actions + [StopRemoteSession(activeSessionId)];
      activeSessionId := None;
      ClearInput();
      pendingPeerId := None;
      activePeerId := None;
      mode := LeavingRemoteMode;
      response := Ok(actions);
      assert forall s: seq<CoreAction> :: [] + s == s;
    }

    method HandlePanicHotkey() returns (actions: seq<CoreAction>)
      requires Valid()
      modifies this
      ensures Valid() && (Abstract(), Ok(actions)) == old(Abstract()).Recover()
    {
      var shouldReleaseRemote :=
        || mode == RemoteMode || mode == EnteringRemoteMode || mode == LeavingRemoteMode
        || pendingPeerId.Some? || activePeerId.Some? || activeSessionId.Some?;
      var sessionId := activeSessionId;
      activeSessionId := None;
      ClearInput();
      pendingPeerId := None;
      activePeerId := None;
      mode := LocalMode;
      actions := [ReleaseLocalInputs];
      assert actions == [ReleaseLocalInputs] + [];
      if shouldReleaseRemote {
        actions := actions + [ReleaseAllInputs];
        actions := actions + [StopRemoteSession(sessionId)];
        assert actions == [ReleaseLocalInputs] + [ReleaseAllInputs, StopRemoteSession(sessionId)];
      }
    }

    method HandleRecoveryInterrupt() returns (actions: seq<CoreAction>)
      requires Valid()
      modifies this
      ensures Valid() && (Abstract(), Ok(actions)) == old(Abstract()).Recover()
    {
      actions := HandlePanicHotkey();
    }

    method ConfirmLocalControl() returns (response: Response)
      requires Valid()
      modifies this
      ensures Valid() && (Abstract(), response) == Step(old(Abstract()), LocalControlConfirmed)
    {
      if mode != LeavingRemoteMode {
        return Err(InvalidTransition(mode, "LocalControlConfirmed"));
      }
      mode := LocalMode;
      response := Ok([]);
    }

    method HandleTransportLost() returns (actions: seq<CoreAction>)
      requires Valid()
      modifies this
      ensures Valid() && (Abstract(), Ok(actions)) == Step(old(Abstract()), TransportLost)
    {
      var shouldRelease :=
        HasPressedInput() || pendingPeerId.Some? || activePeerId.Some? || activeSessionId.Some?;
      ClearInput();
      pendingPeerId := None;
      activePeerId := None;
      activeSessionId := None;
      mode := SuspendedMode;
      actions := if shouldRelease then [ReleaseAllInputs] else [];
    }

    method CompleteRecovery() returns (response: Response)
      requires Valid()
      modifies this
      ensures Valid() && (Abstract(), response) == Step(old(Abstract()), RecoveryCompleted)
    {
      if mode != SuspendedMode {
        return Err(InvalidTransition(mode, "RecoveryCompleted"));
      }
      mode := LocalMode;
      response := Ok([]);
    }

    method RecordInput(input: InputEvent)
      requires Valid()
      modifies this`pressedKeys, this`pressedButtons, this`modifiers
      ensures Valid() && Abstract() == old(Abstract()).Record(input)
    {
      match input {
        case Key(key, state) =>
          UpdateKeyMirrors(modifiers, pressedKeys, key, state);
          match state {
            case Pressed => pressedKeys := pressedKeys + {key};
            case Released => pressedKeys := pressedKeys - {key};
          }
          modifiers := modifiers.UpdateKey(key, state);
        case Button(button, state) =>
          match state {
            case Pressed => pressedButtons := pressedButtons + {button};
            case Released => pressedButtons := pressedButtons - {button};
          }
        case PointerMoved(_, _) =>
        case Scroll(_, _) =>
      }
    }

    method ClearInput()
      modifies this`pressedKeys, this`pressedButtons, this`modifiers
      ensures pressedKeys == {} && pressedButtons == {} && modifiers == NO_MODIFIERS
    {
      pressedKeys := {};
      pressedButtons := {};
      modifiers := NO_MODIFIERS;
    }

    predicate HasPressedInput()
      reads this
    {
      pressedKeys != {} || pressedButtons != {}
    }
  }

  // Feeds the events to a new machine one by one; the first refusal ends the replay.
  method ReplayRuntimeEvents(events: seq<RuntimeEvent>)
    returns (state: RuntimeInputState, replayed: Result<seq<CoreAction>, TransitionError>)
    ensures state.Valid()
    ensures match Run(Fresh, events)
      case Err(error) => replayed == Err(error)
      case Ok(replay) => replayed == Ok(replay.actions) && state.Abstract() == replay.state
  {
    state := new RuntimeInputState();
    var actions: seq<CoreAction> := [];
    var i := 0;
    assert events[0..] == events;
    PrependNothing(Run(Fresh, events));
    while i < |events|
      invariant 0 <= i <= |events|
      invariant fresh(state) && state.Valid()
      invariant Run(Fresh, events) == Prepend(actions, Run(state.Abstract(), events[i..]))
    {
      assert events[i..][0] == events[i] && events[i..][1..] == events[i + 1..];
      var response := state.ApplyEvent(events[i]);
      match response {
        case Err(error) => return state, Err(error);
        case Ok(more) =>
          PrependTwice(actions, more, Run(state.Abstract(), events[i + 1..]));
          actions := actions + more;
      }
      i := i + 1;
    }
    assert actions + [] == actions;
    replayed := Ok(actions);
  }

  ghost function Prepend(actions: seq<CoreAction>, run: Result<Replay, TransitionError>)
    : Result<Replay, TransitionError>
  {
    match run case Err(e) => Err(e) case Ok(r) => Ok(Replay(r.state, actions + r.actions))
  }

  lemma {:induction false} PrependNothing(run: Result<Replay, TransitionError>)
    ensures Prepend([], run) == run
  {
    if run.Ok? {
      assert [] + run.value.actions == run.value.actions;
    }
  }

  lemma {:induction false} PrependTwice(
    first: seq<CoreAction>, second: seq<CoreAction>, run: Result<Replay, TransitionError>)
    ensures Prepend(first, Prepend(second, run)) == Prepend(first + second, run)
  {
    if run.Ok? {
      assert first + (second + run.value.actions) == (first + second) + run.value.actions;
    }
  }
}
