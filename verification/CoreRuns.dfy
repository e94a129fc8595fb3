// What the control state machine guarantees over whole runs. A run may contain events that the
// machine rejects; every theorem is about the complete log of such a run, so it holds in particular
// for the accepted streams of a replay.
module CoreRuns {
  import opened Wrappers
  import opened CoreState

  datatype Observation =
    | Accepted(event: RuntimeEvent)
    | Rejected(refused: RuntimeEvent, error: TransitionError)
    | Act(action: CoreAction)

  function After(s: CoreState, events: seq<RuntimeEvent>): CoreState
    decreases |events|
  {
    if events == [] then s else After(Step(s, events[0]).0, events[1..])
  }

  function Observe(s: CoreState, events: seq<RuntimeEvent>): seq<Observation>
    decreases |events|
  {
    if events == [] then [] else ObserveStep(s, events[0]) + Observe(Step(s, events[0]).0, events[1..])
  }

  function ObserveStep(s: CoreState, event: RuntimeEvent): seq<Observation> {
    match Step(s, event).1
    case Err(error) => [Rejected(event, error)]
    case Ok(actions) => [Accepted(event)] + Acts(actions)
  }

  function Acts(actions: seq<CoreAction>): seq<Observation> {
    seq(|actions|, i requires 0 <= i < |actions| => Act(actions[i]))
  }

  function Actions(log: seq<Observation>): seq<CoreAction> {
    if log == [] then []
    else (if log[0].Act? then [log[0].action] else []) + Actions(log[1..])
  }

  // ---- Rejection -------------------------------------------------------------------------------

  // An event is rejected exactly when its mode guard fails, and then nothing changes.
  lemma {:induction false} RejectionChangesNothing(s: CoreState, event: RuntimeEvent)
    ensures Step(s, event).1.Err? <==>
      || (event.LocalPointerMoved? && !s.control.Local?)
      || (event.RemoteEntryRequested? && !s.control.Local?)
      || (event.RemoteEntryConfirmed? && !s.control.EnteringRemote?)
      || (event.RemoteLeaveRequested? && !s.control.EnteringRemote? && !s.control.Remote?)
      || (event.LocalControlConfirmed? && !s.control.LeavingRemote?)
      || (event.RecoveryCompleted? && !s.control.Suspended?)
    ensures Step(s, event).1.Err? ==>
      Step(s, event).0 == s && Step(s, event).1.error.mode == s.control.Mode()
  {
  }

  // A replay that succeeds is a run without rejections, with the same end state and actions.
  lemma {:induction false} ReplayIsARun(s: CoreState, events: seq<RuntimeEvent>)
    ensures Run(s, events).Ok? ==>
      Run(s, events).value == Replay(After(s, events), Actions(Observe(s, events)))
    ensures Run(s, events).Ok? <==> forall o :: o in Observe(s, events) ==> !o.Rejected?
    decreases |events|
  {
    if events == [] {
    } else {
      var step := ObserveStep(s, events[0]);
      var rest := Observe(Step(s, events[0]).0, events[1..]);
      ReplayIsARun(Step(s, events[0]).0, events[1..]);
      StepLog(s, events[0]);
      ActionsConcat(step, rest);
      assert Observe(s, events) == step + rest;
      assert forall o :: o in step + rest <==> o in step || o in rest;
    }
  }

  lemma {:induction false} StepLog(s: CoreState, event: RuntimeEvent)
    ensures Step(s, event).1.Ok? ==> Actions(ObserveStep(s, event)) == Step(s, event).1.value
    ensures Step(s, event).1.Err? ==> Actions(ObserveStep(s, event)) == []
    ensures Step(s, event).1.Ok? <==> forall o :: o in ObserveStep(s, event) ==> !o.Rejected?
  {
    match Step(s, event).1 {
      case Err(error) =>
        assert ObserveStep(s, event)[0].Rejected?;
      case Ok(actions) =>
        ActionsConcat([Accepted(event)], Acts(actions));
        ActionsOfActs(actions);
    }
  }

  lemma {:induction false} ActionsConcat(a: seq<Observation>, b: seq<Observation>)
    ensures Actions(a + b) == Actions(a) + Actions(b)
  {
    if a == [] {
      assert a + b == b;
    } else {
      var head := if a[0].Act? then [a[0].action] else [];
      assert (a + b)[0] == a[0] && (a + b)[1..] == a[1..] + b;
      ActionsConcat(a[1..], b);
      assert head + (Actions(a[1..]) + Actions(b)) == (head + Actions(a[1..])) + Actions(b);
    }
  }

  lemma {:induction false} ActionsOfActs(actions: seq<CoreAction>)
    ensures Actions(Acts(actions)) == actions
  {
    if actions == [] {
    } else {
      assert Acts(actions)[1..] == Acts(actions[1..]);
      ActionsOfActs(actions[1..]);
    }
  }

  // ---- Forwarding ------------------------------------------------------------------------------

  function Forwarded(actions: seq<CoreAction>): seq<InputEvent> {
    if actions == [] then []
    else (if actions[0].ForwardInput? then [actions[0].event] else []) + Forwarded(actions[1..])
  }

  // The inputs received in Remote mode that do not complete the panic chord.
  function RemoteInputs(s: CoreState, events: seq<RuntimeEvent>): seq<InputEvent>
    decreases |events|
  {
    if events == [] then [] else RemoteInput(s, events[0]) + RemoteInputs(Step(s, events[0]).0, events[1..])
  }

  function RemoteInput(s: CoreState, event: RuntimeEvent): seq<InputEvent> {
    if event.Input? && s.control.Remote? && !s.Record(event.input).PanicChord(event.input) then [event.input] else []
  }

  // Exactly the non-panic inputs received in Remote mode are forwarded, unchanged and in order.
  lemma {:induction false} ForwardsExactlyTheRemoteInputs(s: CoreState, events: seq<RuntimeEvent>)
    ensures Forwarded(Actions(Observe(s, events))) == RemoteInputs(s, events)
    decreases |events|
  {
    if events == [] {
    } else {
      var step := ObserveStep(s, events[0]);
      var rest := Observe(Step(s, events[0]).0, events[1..]);
      ActionsConcat(step, rest);
      ForwardedConcat(Actions(step), Actions(rest));
      StepForwards(s, events[0]);
      ForwardsExactlyTheRemoteInputs(Step(s, events[0]).0, events[1..]);
    }
  }

  lemma {:induction false} StepForwards(s: CoreState, event: RuntimeEvent)
    ensures Forwarded(Actions(ObserveStep(s, event))) == RemoteInput(s, event)
  {
    StepLog(s, event);
    NothingForwarded(Actions(ObserveStep(s, event)));
  }

  lemma {:induction false} ForwardedConcat(a: seq<CoreAction>, b: seq<CoreAction>)
    ensures Forwarded(a + b) == Forwarded(a) + Forwarded(b)
  {
    if a == [] {
      assert a + b == b;
    } else {
      var head := if a[0].ForwardInput? then [a[0].event] else [];
      assert (a + b)[0] == a[0] && (a + b)[1..] == a[1..] + b;
      ForwardedConcat(a[1..], b);
      assert head + (Forwarded(a[1..]) + Forwarded(b)) == (head + Forwarded(a[1..])) + Forwarded(b);
    }
  }

  lemma {:induction false} NothingForwarded(actions: seq<CoreAction>)
    ensures (forall i :: 0 <= i < |actions| ==> !actions[i].ForwardInput?) ==> Forwarded(actions) == []
  {
    if actions == [] {
    } else {
      NothingForwarded(actions[1..]);
    }
  }

  // ---- Bracketing ------------------------------------------------------------------------------

  // A monitor that reads the log: `open` while a session is started and not yet ended, `dirty`
  // while input has been forwarded and not yet released. It gets stuck on a log that is not
  // properly bracketed.
  datatype Monitor = Monitor(open: bool, dirty: bool)

  function Watch(m: Monitor, o: Observation): Option<Monitor> {
    match o
    case Act(StartRemoteSession(_, _)) => if m.open || m.dirty then None else Some(m.(open := true))
    case Act(ForwardInput(_)) => if m.open then Some(m.(dirty := true)) else None
    case Act(ReleaseAllInputs) => Some(m.(dirty := false))
    case Act(StopRemoteSession(_)) => if m.dirty then None else Some(m.(open := false))
    case Accepted(TransportLost) => Some(m.(open := false))
    case _ => Some(m)
  }

  function WatchAll(m: Monitor, log: seq<Observation>): Option<Monitor>
    decreases |log|
  {
    if log == [] then Some(m)
    else match Watch(m, log[0]) case None => None case Some(m') => WatchAll(m', log[1..])
  }

  predicate Tracks(m: Monitor, control: Control) {
    && m.open == (control.EnteringRemote? || control.Remote?)
    && (m.dirty ==> control.Remote?)
  }

  lemma {:induction false} WatchConcat(m: Monitor, a: seq<Observation>, b: seq<Observation>)
    ensures WatchAll(m, a + b) ==
      match WatchAll(m, a) case None => None case Some(m') => WatchAll(m', b)
    decreases |a|
  {
    if a == [] {
      assert a + b == b;
    } else {
      assert (a + b)[1..] == a[1..] + b;
      if Watch(m, a[0]).Some? {
        WatchConcat(Watch(m, a[0]).value, a[1..], b);
      }
    }
  }

  lemma {:induction false} StepIsWatched(m: Monitor, s: CoreState, event: RuntimeEvent)
    requires Tracks(m, s.control)
    ensures WatchAll(m, ObserveStep(s, event)).Some?
    ensures Tracks(WatchAll(m, ObserveStep(s, event)).value, Step(s, event).0.control)
  {
    if Step(s, event).1.Err? {
      WatchShort(m, [Rejected(event, Step(s, event).1.error)]);
    } else {
      var log := ObserveStep(s, event);
      var actions := Step(s, event).1.value;
      assert |actions| <= 3 && log[0] == Accepted(event);
      assert forall i :: 0 <= i < |actions| ==> log[i + 1] == Act(actions[i]);
      WatchShort(m, log);
      ActionsKeepTrack(m, s, event);
    }
  }

  function Then(m: Option<Monitor>, o: Observation): Option<Monitor> {
    match m case None => None case Some(m') => Watch(m', o)
  }

  // The watch of one accepted event and its at most three actions, spelled out.
  function WatchStep(m: Monitor, event: RuntimeEvent, actions: seq<CoreAction>): Option<Monitor> {
    var m1 := Watch(m, Accepted(event));
    var m2 := if |actions| > 0 then Then(m1, Act(actions[0])) else m1;
    var m3 := if |actions| > 1 then Then(m2, Act(actions[1])) else m2;
    if |actions| > 2 then Then(m3, Act(actions[2])) else m3
  }

  lemma {:induction false} ActionsKeepTrack(m: Monitor, s: CoreState, event: RuntimeEvent)
    requires Tracks(m, s.control) && Step(s, event).1.Ok?
    ensures WatchStep(m, event, Step(s, event).1.value).Some?
    ensures Tracks(WatchStep(m, event, Step(s, event).1.value).value, Step(s, event).0.control)
  {
  }

  lemma {:induction false} WatchShort(m: Monitor, log: seq<Observation>)
    requires 0 < |log| <= 4
    ensures WatchAll(m, log) ==
      var m1 := Watch(m, log[0]);
      var m2 := if |log| > 1 then Then(m1, log[1]) else m1;
      var m3 := if |log| > 2 then Then(m2, log[2]) else m2;
      if |log| > 3 then Then(m3, log[3]) else m3
    decreases |log|
  {
    if |log| == 1 || Watch(m, log[0]).None? {
    } else {
      WatchShort(Watch(m, log[0]).value, log[1..]);
    }
  }

  // No run ever gets the monitor stuck.
  lemma {:induction false} RunIsWatched(m: Monitor, s: CoreState, events: seq<RuntimeEvent>)
    requires Tracks(m, s.control)
    ensures WatchAll(m, Observe(s, events)).Some?
    ensures Tracks(WatchAll(m, Observe(s, events)).value, After(s, events).control)
    decreases |events|
  {
    if events == [] {
    } else {
      StepIsWatched(m, s, events[0]);
      var m' := WatchAll(m, ObserveStep(s, events[0])).value;
      WatchConcat(m, ObserveStep(s, events[0]), Observe(Step(s, events[0]).0, events[1..]));
      RunIsWatched(m', Step(s, events[0]).0, events[1..]);
    }
  }

  predicate IsStart(o: Observation) { o.Act? && o.action.StartRemoteSession? }

  predicate IsForward(o: Observation) { o.Act? && o.action.ForwardInput? }

  predicate IsRelease(o: Observation) { o.Act? && o.action.ReleaseAllInputs? }

  predicate EndsSession(o: Observation) {
    o == Accepted(TransportLost) || (o.Act? && o.action.StopRemoteSession?)
  }

  lemma {:induction false} SplitWatch(m: Monitor, log: seq<Observation>, i: nat) returns (mid: Monitor)
    requires i <= |log| && WatchAll(m, log).Some?
    ensures WatchAll(m, log[..i]) == Some(mid) && WatchAll(mid, log[i..]) == WatchAll(m, log)
  {
    assert log == log[..i] + log[i..];
    WatchConcat(m, log[..i], log[i..]);
    mid := WatchAll(m, log[..i]).value;
  }

  lemma {:induction false} OpenSinceStart(m: Monitor, log: seq<Observation>) returns (start: nat)
    requires !m.open && WatchAll(m, log).Some? && WatchAll(m, log).value.open
    ensures start < |log| && IsStart(log[start])
    ensures forall k :: start < k < |log| ==> !EndsSession(log[k])
    decreases |log|
  {
    var last := |log| - 1;
    var mid := SplitWatch(m, log, last);
    assert log[last..] == [log[last]];
    assert WatchAll(mid, [log[last]]) == Watch(mid, log[last]);
    if IsStart(log[last]) {
      start := last;
    } else {
      start := OpenSinceStart(m, log[..last]);
    }
  }

  lemma {:induction false} DirtyUntilReleased(m: Monitor, log: seq<Observation>) returns (release: nat)
    requires m.dirty && WatchAll(m, log).Some? && !WatchAll(m, log).value.dirty
    ensures release < |log| && IsRelease(log[release])
    ensures forall k :: 0 <= k < release ==> !IsStart(log[k])
    decreases |log|
  {
    if IsRelease(log[0]) {
      release := 0;
    } else {
      var rest := DirtyUntilReleased(Watch(m, log[0]).value, log[1..]);
      release := rest + 1;
    }
  }

  // Every forwarded input lies in a started session that has not ended since.
  lemma {:induction false} ForwardingIsInsideASession(events: seq<RuntimeEvent>, i: nat) returns (start: nat)
    requires i < |Observe(Fresh, events)| && IsForward(Observe(Fresh, events)[i])
    ensures start < i && IsStart(Observe(Fresh, events)[start])
    ensures forall k :: start < k < i ==> !EndsSession(Observe(Fresh, events)[k])
  {
    RunIsWatched(Monitor(false, false), Fresh, events);
    start := OpenAtForward(Observe(Fresh, events), i);
  }

  lemma {:induction false} OpenAtForward(log: seq<Observation>, i: nat) returns (start: nat)
    requires WatchAll(Monitor(false, false), log).Some? && i < |log| && IsForward(log[i])
    ensures start < i && IsStart(log[start])
    ensures forall k :: start < k < i ==> !EndsSession(log[k])
  {
    var mid := SplitWatch(Monitor(false, false), log, i);
    assert log[i..][0] == log[i];
    start := OpenSinceStart(Monitor(false, false), log[..i]);
    forall k | start < k < i ensures !EndsSession(log[k]) {
      assert log[k] == log[..i][k];
    }
  }

  // Once the run has left Remote mode, every forwarded input has been followed by a release of all
  // remote inputs, before any new session was started.
  lemma {:induction false} ForwardingIsReleased(events: seq<RuntimeEvent>, i: nat) returns (release: nat)
    requires i < |Observe(Fresh, events)| && IsForward(Observe(Fresh, events)[i])
    requires !After(Fresh, events).control.Remote?
    ensures i < release < |Observe(Fresh, events)| && IsRelease(Observe(Fresh, events)[release])
    ensures forall k :: i < k < release ==> !IsStart(Observe(Fresh, events)[k])
  {
    RunIsWatched(Monitor(false, false), Fresh, events);
    release := ReleaseAfterForward(Monitor(false, false), Observe(Fresh, events), i);
  }

  lemma {:induction false} ReleaseAfterForward(m: Monitor, log: seq<Observation>, i: nat) returns (release: nat)
    requires WatchAll(m, log).Some? && !WatchAll(m, log).value.dirty && i < |log| && IsForward(log[i])
    ensures i < release < |log| && IsRelease(log[release])
    ensures forall k :: i < k < release ==> !IsStart(log[k])
  {
    var mid := SplitWatch(m, log, i);
    var tail := log[i..];
    assert tail[0] == log[i];
    var rest := tail[1..];
    var n := DirtyUntilReleased(Watch(mid, log[i]).value, rest);
    release := i + 1 + n;
    forall k | i < k < release ensures !IsStart(log[k]) {
      assert log[k] == rest[k - (i + 1)];
    }
  }

  // Between two session starts, a session was stopped or the transport was lost.
  lemma {:induction false} SessionsDoNotOverlap(events: seq<RuntimeEvent>, i: nat, j: nat)
    requires i < j < |Observe(Fresh, events)|
    requires IsStart(Observe(Fresh, events)[i]) && IsStart(Observe(Fresh, events)[j])
    ensures exists k :: i < k < j && EndsSession(Observe(Fresh, events)[k])
  {
    RunIsWatched(Monitor(false, false), Fresh, events);
    var k := EndedBetweenStarts(Monitor(false, false), Observe(Fresh, events), i, j);
  }

  lemma {:induction false} EndedBetweenStarts(m: Monitor, log: seq<Observation>, i: nat, j: nat) returns (k: nat)
    requires WatchAll(m, log).Some? && i < j < |log| && IsStart(log[i]) && IsStart(log[j])
    ensures i < k < j && EndsSession(log[k])
  {
    var before := SplitWatch(m, log, i);
    var tail := log[i..];
    assert tail[0] == log[i];
    var first := Watch(before, log[i]).value;
    var rest := tail[1..];
    var second := SplitWatch(first, rest, j - i - 1);
    var between := rest[..j - i - 1];
    assert rest[j - i - 1..][0] == log[j];
    var n := SomeEnd(first, between);
    k := i + 1 + n;
    assert log[k] == between[n];
  }

  lemma {:induction false} SomeEnd(m: Monitor, log: seq<Observation>) returns (n: nat)
    requires m.open && WatchAll(m, log).Some? && !WatchAll(m, log).value.open
    ensures n < |log| && EndsSession(log[n])
    decreases |log|
  {
    if EndsSession(log[0]) {
      n := 0;
    } else {
      var rest := SomeEnd(Watch(m, log[0]).value, log[1..]);
      n := rest + 1;
    }
  }

  // ---- Session accounting ----------------------------------------------------------------------

  predicate IsStopOf(o: Observation, id: string) { o == Act(StopRemoteSession(Some(id))) }

  predicate IsConfirmationOf(o: Observation, id: string) { o == Accepted(RemoteEntryConfirmed(id)) }

  function Count(log: seq<Observation>, p: Observation -> bool): nat {
    if log == [] then 0 else (if p(log[0]) then 1 else 0) + Count(log[1..], p)
  }

  function Confirmations(log: seq<Observation>, id: string): nat { Count(log, o => IsConfirmationOf(o, id)) }

  function Stops(log: seq<Observation>, id: string): nat { Count(log, o => IsStopOf(o, id)) }

  // Sessions `id` dropped by a lost transport.
  function Losses(s: CoreState, events: seq<RuntimeEvent>, id: string): nat
    decreases |events|
  {
    if events == [] then 0
    else
      (if events[0].TransportLost? && s.control.Session() == Some(id) then 1 else 0)
      + Losses(Step(s, events[0]).0, events[1..], id)
  }

  function Live(s: CoreState, id: string): nat { if s.control.Session() == Some(id) then 1 else 0 }

  lemma {:induction false} CountConcat(a: seq<Observation>, b: seq<Observation>, p: Observation -> bool)
    ensures Count(a + b, p) == Count(a, p) + Count(b, p)
  {
    if a == [] {
      assert a + b == b;
    } else {
      assert (a + b)[1..] == a[1..] + b;
      CountConcat(a[1..], b, p);
    }
  }

  lemma {:induction false} CountFrom(log: seq<Observation>, i: nat, p: Observation -> bool)
    requires i < |log|
    ensures Count(log[i..], p) == (if p(log[i]) then 1 else 0) + Count(log[i + 1..], p)
  {
  }

  lemma {:induction false} CountShort(log: seq<Observation>, p: Observation -> bool)
    requires 1 <= |log| <= 4
    ensures Count(log, p) ==
      (if p(log[0]) then 1 else 0) + (if |log| > 1 && p(log[1]) then 1 else 0)
      + (if |log| > 2 && p(log[2]) then 1 else 0) + (if |log| > 3 && p(log[3]) then 1 else 0)
  {
    assert log[0..] == log;
    CountFrom(log, 0, p);
    if |log| > 1 { CountFrom(log, 1, p); }
    if |log| > 2 { CountFrom(log, 2, p); }
    if |log| > 3 { CountFrom(log, 3, p); }
  }

  lemma {:induction false} StepBalances(s: CoreState, event: RuntimeEvent, id: string)
    ensures Live(s, id) + Confirmations(ObserveStep(s, event), id) ==
      Stops(ObserveStep(s, event), id)
      + (if event.TransportLost? && s.control.Session() == Some(id) then 1 else 0)
      + Live(Step(s, event).0, id)
  {
    CountShort(ObserveStep(s, event), o => IsConfirmationOf(o, id));
    CountShort(ObserveStep(s, event), o => IsStopOf(o, id));
  }

  // Conservation of sessions: every confirmation of `id` is accounted for by exactly one stop
  // carrying `id`, one lost transport, or the session still being live.
  lemma {:induction false} SessionsAreConserved(s: CoreState, events: seq<RuntimeEvent>, id: string)
    ensures Live(s, id) + Confirmations(Observe(s, events), id) ==
      Stops(Observe(s, events), id) + Losses(s, events, id) + Live(After(s, events), id)
    decreases |events|
  {
    if events == [] {
    } else {
      var step := ObserveStep(s, events[0]);
      var rest := Observe(Step(s, events[0]).0, events[1..]);
      StepBalances(s, events[0], id);
      CountConcat(step, rest, o => IsConfirmationOf(o, id));
      CountConcat(step, rest, o => IsStopOf(o, id));
      SessionsAreConserved(Step(s, events[0]).0, events[1..], id);
    }
  }

  // ---- Recovery --------------------------------------------------------------------------------

  predicate IsRecovery(event: RuntimeEvent) {
    event.EmergencyRecoveryRequested? || event.ScreenLayoutChanged? || event.PermissionLost? || event.SystemResumed?
  }

  predicate SameButPointer(s: CoreState, t: CoreState) { s == t.(pointer := s.pointer) }

  // The last local pointer never influences a decision.
  lemma {:induction false} PointerIsIrrelevant(s: CoreState, t: CoreState, events: seq<RuntimeEvent>)
    requires SameButPointer(s, t)
    ensures Observe(s, events) == Observe(t, events)
    ensures SameButPointer(After(s, events), After(t, events))
    decreases |events|
  {
    if events == [] {
    } else {
      PointerIsIrrelevantToAStep(s, t, events[0]);
      PointerIsIrrelevant(Step(s, events[0]).0, Step(t, events[0]).0, events[1..]);
    }
  }

  lemma {:induction false} PointerIsIrrelevantToAStep(s: CoreState, t: CoreState, event: RuntimeEvent)
    requires SameButPointer(s, t)
    ensures Step(s, event).1 == Step(t, event).1 && SameButPointer(Step(s, event).0, Step(t, event).0)
  {
  }

  // The presses that trigger recovery from the keyboard, for either Control and either Alt key.
  function ChordPresses(control: PhysicalKey, alt: PhysicalKey): seq<RuntimeEvent> {
    [Input(Key(control, Pressed)), Input(Key(alt, Pressed)), Input(Key(PANIC_KEY, Pressed))]
  }

  // After any run, a recovery event or the panic chord leads to a machine that no continuation can
  // tell from a fresh one: same actions, same rejections, and the same state but for the pointer.
  lemma {:induction false} RecoveryIsAFreshStart(
    events: seq<RuntimeEvent>, recovery: seq<RuntimeEvent>, continuation: seq<RuntimeEvent>)
    requires
      || (|recovery| == 1 && IsRecovery(recovery[0]))
      || exists c, a :: c in {LeftControl, RightControl} && a in {LeftAlt, RightAlt} && recovery == ChordPresses(c, a)
    ensures var recovered := After(After(Fresh, events), recovery);
      && SameButPointer(recovered, Fresh) && recovered.pointer == After(Fresh, events).pointer
      && Observe(recovered, continuation) == Observe(Fresh, continuation)
      && SameButPointer(After(recovered, continuation), After(Fresh, continuation))
  {
    var s := After(Fresh, events);
    if |recovery| == 1 {
      assert After(s, recovery) == Step(s, recovery[0]).0;
    } else {
      var c, a :| c in {LeftControl, RightControl} && a in {LeftAlt, RightAlt} && recovery == ChordPresses(c, a);
      ChordRecovers(s, c, a);
    }
    PointerIsIrrelevant(After(s, recovery), Fresh, continuation);
  }

  // So does leaving a session and confirming local control, and losing the transport and completing
  // the recovery; both events are then accepted.
  lemma {:induction false} ReturningIsAFreshStart(
    events: seq<RuntimeEvent>, way: seq<RuntimeEvent>, continuation: seq<RuntimeEvent>)
    requires
      || (way == [RemoteLeaveRequested, LocalControlConfirmed] && InSession(After(Fresh, events).control))
      || way == [TransportLost, RecoveryCompleted]
    ensures var s := After(Fresh, events);
      var returned := After(s, way);
      && Step(s, way[0]).1.Ok? && Step(Step(s, way[0]).0, way[1]).1 == Ok([])
      && SameButPointer(returned, Fresh) && returned.pointer == s.pointer
      && Observe(returned, continuation) == Observe(Fresh, continuation)
      && SameButPointer(After(returned, continuation), After(Fresh, continuation))
  {
    var s := After(Fresh, events);
    var s1 := Step(s, way[0]).0;
    assert way[1..] == [way[1]] && After(s1, [way[1]]) == Step(s1, way[1]).0;
    PointerIsIrrelevant(After(s, way), Fresh, continuation);
  }

  predicate InSession(control: Control) { control.EnteringRemote? || control.Remote? }

  lemma {:induction false} ChordRecovers(s: CoreState, control: PhysicalKey, alt: PhysicalKey)
    requires control in {LeftControl, RightControl} && alt in {LeftAlt, RightAlt}
    ensures After(s, ChordPresses(control, alt)) == s.Reset(Local)
  {
    var events := ChordPresses(control, alt);
    var s1 := Step(s, events[0]).0;
    var s2 := Step(s1, events[1]).0;
    assert s1 == s.(keys := s.keys + {control}) && s2 == s1.(keys := s1.keys + {alt});
    assert Step(s2, events[2]).0 == s.Reset(Local);
    assert events[1..][1..] == [events[2]] && events[1..][0] == events[1];
    assert After(s2, [events[2]]) == Step(s2, events[2]).0;
  }
}
