// From core actions to frames: the dispatcher chain of the daemon and the peer session it manages
// (crates/akraz-daemon/src/lib.rs). Commands are dispatched one at a time.
module ManagedSession {
  import opened Wrappers
  import opened Ints
  import opened CoreState
  import opened WireCommands
  import opened Frames
  import opened PeerReceiver
  import opened PeerSender

  // The transport command of a core action, if the remote side is concerned at all.
  function ToCommand(action: CoreAction): Option<Command> {
    match action
    case InputCaptureIdle => None
    case ReleaseLocalInputs => None
    case StartRemoteSession(peer, crossing) => Some(StartSession(peer, crossing))
    case ForwardInput(event) => Some(Forward(event))
    case ReleaseAllInputs => Some(ReleaseAll)
    case StopRemoteSession(session) => Some(StopSession(session))
  }

  // The action that an outcome reports as executed.
  function ActionOf(outcome: Outcome): CoreAction {
    match outcome
    case SessionStarted(peer, crossing) => StartRemoteSession(peer, crossing)
    case InputForwarded(event) => ForwardInput(event)
    case InputsReleased => ReleaseAllInputs
    case SessionStopped(session) => StopRemoteSession(session)
  }

  // Every action that concerns the peer arrives unchanged: turned into a command, a payload, a command
  // again and an outcome, it is still the same action with the same peer, crossing, input or session.
  // The others are handled locally.
  lemma {:induction false} ActionsArriveUnchanged(action: CoreAction)
    ensures ToCommand(action).None? <==> action == InputCaptureIdle || action == ReleaseLocalInputs
    ensures ToCommand(action).Some? ==>
      var received := IntoCommand(ToPayload(ToCommand(action).value));
      received.Ok? && ActionOf(OutcomeOf(received.value)) == action
  {
    if ToCommand(action).Some? {
      CommandRoundTrip(ToCommand(action).value);
    }
  }

  // The attached session, if any: its configured peer, its next sequence number, and what bytes on
  // the wire without a newline would read as.
  datatype Link = Link(peer: string, next: u64, tail: Option<Incoming>)

  // What the peer sees of a managed session.
  datatype LinkEvent = LinkOpened | LinkSent(incoming: Incoming) | LinkClosed

  function Sent(read: seq<Incoming>): seq<LinkEvent> {
    seq(|read|, i requires 0 <= i < |read| => LinkSent(read[i]))
  }

  // Closing the connection ends the stream, so an unended line is read as it is.
  function Closing(tail: Option<Incoming>): seq<LinkEvent> { Sent(AtEnd(tail)) + [LinkClosed] }

  // The tail and what can be read after a write of at most one line.
  function Written(tail: Option<Incoming>, lines: seq<Line>): (Option<Incoming>, seq<Incoming>) {
    if lines == [] then (tail, []) else Transmit(tail, lines[0])
  }

  // A command without a session succeeds silently. A start for another peer is refused; a refusal,
  // a failed write and a stop all detach the session.
  function DispatchCommand(link: Option<Link>, command: Command, write: Write): (Option<Link>, seq<LinkEvent>, bool) {
    match link
    case None => (None, [], true)
    case Some(l) =>
      if command.StartSession? && command.peer != l.peer then (None, Closing(l.tail), false)
      else
        var (next, lines, ok) := SendOne(l.next, Send(command, write));
        var (tail, read) := Written(l.tail, lines);
        if command.StopSession? || !ok then (None, Sent(read) + Closing(tail), ok)
        else (Some(l.(next := next, tail := tail)), Sent(read), true)
  }

  // A heartbeat only moves the counter and the wire; a failed one does not detach the session.
  function DispatchHeartbeat(link: Option<Link>, write: Write): (Option<Link>, seq<LinkEvent>) {
    match link
    case None => (None, [])
    case Some(l) =>
      var (next, lines, _) := SendOne(l.next, Beat(write));
      var (tail, read) := Written(l.tail, lines);
      (Some(l.(next := next, tail := tail)), Sent(read))
  }

  // How the outside world answers a batch, by position in it: whether the release of the local
  // platform succeeds, and what becomes of a write.
  datatype Surroundings = Surroundings(localOk: nat -> bool, write: nat -> Write)

  function DispatchAction(link: Option<Link>, action: CoreAction, i: nat, around: Surroundings)
    : (Option<Link>, seq<LinkEvent>, bool)
  {
    if action.ReleaseLocalInputs? then (link, [], around.localOk(i))
    else
      match ToCommand(action)
      case None => (link, [], true)
      case Some(command) => DispatchCommand(link, command, around.write(i))
  }

  // A batch stops at its first failure; what follows in the batch is never dispatched.
  function DispatchActions(link: Option<Link>, actions: seq<CoreAction>, i: nat, around: Surroundings)
    : (Option<Link>, seq<LinkEvent>, bool)
    requires i <= |actions|
    decreases |actions| - i
  {
    if i == |actions| then (link, [], true)
    else
      var (link', events, ok) := DispatchAction(link, actions[i], i, around);
      if !ok then (link', events, false)
      else
        var (end, more, done) := DispatchActions(link', actions, i + 1, around);
        (end, events + more, done)
  }

  // The managed session as the daemon keeps it: the stream of the attached session and its peer. The
  // tail belongs to the connection.
  class ManagedPeerSession {
    var active: SessionStream?
    var peer: string
    ghost var tail: Option<Incoming>
    ghost var history: seq<LinkEvent>

    constructor ()
      ensures active == null && history == []
    {
      active, peer, tail, history := null, "", None, [];
    }

    ghost function Attached(): Option<Link>
      reads this, active
    {
      if active == null then None else Some(Link(peer, active.nextSequence, tail))
    }

    method Attach(peerId: string) returns (ok: bool)
      modifies this
      ensures ok == old(active == null)
      ensures !ok ==> Attached() == old(Attached()) && history == old(history) && active == old(active)
      ensures ok ==>
        Attached() == Some(Link(peerId, 0, None)) && history == old(history) + [LinkOpened] && fresh(active)
    {
      if active != null {
        return false;
      }
      active := new SessionStream();
      peer := peerId;
      tail := None;
      history := history + [LinkOpened];
      ok := true;
    }

    method Disconnect()
      modifies this
      ensures active == null
      ensures history == old(history) + if old(active) == null then [] else Closing(old(tail))
    {
      if active != null {
        history := history + Closing(tail);
      }
      active := null;
    }

    method SendHeartbeat(write: Write)
      modifies this, active
      ensures active == old(active)
      ensures (Attached(), history) ==
        var (link, events) := DispatchHeartbeat(old(Attached()), write); (link, old(history) + events)
    {
      if active == null {
        assert history + [] == history;
      } else {
        ghost var written := Written(tail, SendOne(active.nextSequence, Beat(write)).1);
        var _ := active.WriteHeartbeatFrame(write);
        tail := written.0;
        history := history + Sent(written.1);
      }
    }

    method DispatchTransportCommand(command: Command, write: Write) returns (ok: bool)
      modifies this, active
      ensures active == null || active == old(active)
      ensures (Attached(), history, ok) == Following(old(history), DispatchCommand(old(Attached()), command, write))
    {
      if active == null {
        assert history + [] == history;
        return true;
      }
      if command.StartSession? && command.peer != peer {
        ok := false;
      } else {
        ghost var written := Written(tail, SendOne(active.nextSequence, Send(command, write)).1);
        ok := active.WriteCommandFrame(command, write);
        tail := written.0;
        history := history + Sent(written.1);
        assert history + Closing(tail) == old(history) + (Sent(written.1) + Closing(tail));
      }
      if command.StopSession? || !ok {
        Disconnect();
      }
    }

    // The local platform handles its own release; everything else goes to the peer.
    method DispatchCoreAction(action: CoreAction, ghost i: nat, localOk: bool, write: Write, ghost around: Surroundings)
      returns (ok: bool)
      requires localOk == around.localOk(i) && write == around.write(i)
      modifies this, active
      ensures active == null || active == old(active)
      ensures (Attached(), history, ok) == Following(old(history), DispatchAction(old(Attached()), action, i, around))
    {
      assert history + [] == history;
      if action.ReleaseLocalInputs? {
        return localOk;
      }
      match ToCommand(action) {
        case Some(command) =>
          ok := DispatchTransportCommand(command, write);
        case None =>
          ok := true;
      }
    }

    method DispatchCoreActions(actions: seq<CoreAction>, around: Surroundings) returns (ok: bool)
      modifies this, active
      ensures (Attached(), history, ok) ==
        Following(old(history), DispatchActions(old(Attached()), actions, 0, around))
    {
      var i := 0;
      while i < |actions|
        invariant 0 <= i <= |actions|
        invariant active == null || active == old(active)
        invariant Following(old(history), DispatchActions(old(Attached()), actions, 0, around)) ==
          Following(history, DispatchActions(Attached(), actions, i, around))
      {
        DispatchUnfolds(history, Attached(), actions, i, around);
        ok := DispatchCoreAction(actions[i], i, around.localOk(i), around.write(i), around);
        if !ok {
          return;
        }
        i := i + 1;
      }
      assert history + [] == history;
      ok := true;
    }
  }

  ghost function Following(before: seq<LinkEvent>, d: (Option<Link>, seq<LinkEvent>, bool))
    : (Option<Link>, seq<LinkEvent>, bool)
  {
    (d.0, before + d.1, d.2)
  }

  lemma {:induction false} DispatchUnfolds(
    before: seq<LinkEvent>, link: Option<Link>, actions: seq<CoreAction>, i: nat, around: Surroundings)
    requires i < |actions|
    ensures var step := DispatchAction(link, actions[i], i, around);
      Following(before, DispatchActions(link, actions, i, around)) ==
        if !step.2 then Following(before, step)
        else Following(before + step.1, DispatchActions(step.0, actions, i + 1, around))
  {
    var step := DispatchAction(link, actions[i], i, around);
    var rest := DispatchActions(step.0, actions, i + 1, around);
    assert before + (step.1 + rest.1) == (before + step.1) + rest.1;
  }

  // ---- A session and its stream ----------------------------------------------------------------

  // The session after a use by a dispatcher or by the heartbeat thread, and what the peer sees of it.
  function UseOnce(link: Option<Link>, step: SendStep): (Option<Link>, seq<LinkEvent>) {
    match step
    case Beat(write) => DispatchHeartbeat(link, write)
    case Send(command, write) => var (link', events, _) := DispatchCommand(link, command, write); (link', events)
  }

  function UseAll(link: Option<Link>, steps: seq<SendStep>): (Option<Link>, seq<LinkEvent>)
    decreases |steps|
  {
    if steps == [] then (link, [])
    else
      var (link', events) := UseOnce(link, steps[0]);
      var (end, more) := UseAll(link', steps[1..]);
      (end, events + more)
  }

  predicate IsRefused(peer: string, step: SendStep) {
    step.Send? && step.command.StartSession? && step.command.peer != peer
  }

  // A command that detaches the session of the peer when it is given this number.
  predicate Detaches(peer: string, number: nat, step: SendStep) {
    && step.Send?
    && (IsRefused(peer, step) || step.command.StopSession? || !step.write.Delivered? || number >= U64_MAX)
  }

  predicate NoneDetaches(l: Link, steps: seq<SendStep>) {
    forall i :: 0 <= i < |steps| ==> !Detaches(l.peer, l.next + i, steps[i])
  }

  // A session stays attached exactly as long as no command is refused, stops it, fails to be written
  // or finds the numbers used up; a heartbeat never detaches it. Every use takes one number.
  lemma {:induction false} StaysAttachedExactly(l: Link, steps: seq<SendStep>)
    ensures var link := UseAll(Some(l), steps).0;
      && (link.Some? <==> NoneDetaches(l, steps))
      && (link.Some? ==>
            && link.value.peer == l.peer
            && link.value.next == if l.next + |steps| <= U64_MAX then l.next + |steps| else U64_MAX)
    decreases |steps|
  {
    if steps == [] {
    } else {
      var first := UseOnce(Some(l), steps[0]).0;
      var rest := steps[1..];
      OneUse(l, steps[0]);
      assert forall i :: 0 < i < |steps| ==> steps[i] == rest[i - 1];
      if first.Some? {
        StaysAttachedExactly(first.value, rest);
        SameNumbers(l, first.value, steps);
      } else {
        NothingAfterDetaching(rest);
      }
    }
  }

  lemma {:induction false} OneUse(l: Link, step: SendStep)
    ensures var link := UseOnce(Some(l), step).0;
      && (link.Some? <==> !Detaches(l.peer, l.next, step))
      && (link.Some? ==>
            && link.value.peer == l.peer && link.value.next == if l.next < U64_MAX then l.next + 1 else U64_MAX)
  {
  }

  lemma {:induction false} SameNumbers(l: Link, next: Link, steps: seq<SendStep>)
    requires steps != [] && !Detaches(l.peer, l.next, steps[0]) && next.peer == l.peer
    requires next.next == if l.next < U64_MAX then l.next + 1 else U64_MAX
    ensures NoneDetaches(l, steps) <==> NoneDetaches(next, steps[1..])
  {
    var rest := steps[1..];
    forall i | 0 <= i < |rest|
      ensures Detaches(next.peer, next.next + i, rest[i]) <==> Detaches(l.peer, l.next + (i + 1), steps[i + 1])
    {
    }
    if NoneDetaches(l, steps) {
      forall i | 0 <= i < |rest| ensures !Detaches(next.peer, next.next + i, rest[i]) {
        assert !Detaches(l.peer, l.next + (i + 1), steps[i + 1]);
      }
    }
    if NoneDetaches(next, rest) {
      forall i | 0 <= i < |steps| ensures !Detaches(l.peer, l.next + i, steps[i]) {
        if i > 0 { assert !Detaches(next.peer, next.next + (i - 1), rest[i - 1]); }
      }
    }
  }

  lemma {:induction false} NothingAfterDetaching(steps: seq<SendStep>)
    ensures UseAll(None, steps).0 == None
  {
    if steps == [] {
    } else {
      NothingAfterDetaching(steps[1..]);
    }
  }

  // The session is attached before every use, and none is a refused start.
  predicate AttachedThroughout(link: Option<Link>, steps: seq<SendStep>)
    decreases |steps|
  {
    || steps == []
    || (&& link.Some? && !IsRefused(link.value.peer, steps[0])
        && AttachedThroughout(UseOnce(link, steps[0]).0, steps[1..]))
  }

  // What the peer reads over a whole session is the stream of the numbered lines, up to its end:
  // whether the session is disconnected from outside or its last command detaches it.
  lemma {:induction false} SessionsAreStreams(l: Link, steps: seq<SendStep>)
    requires AttachedThroughout(Some(l), steps)
    ensures var (link, events) := UseAll(Some(l), steps);
      events + ToTheEnd(link) == Sent(ReadToEnd(l.tail, SendAll(l.next, steps))) + [LinkClosed]
    decreases |steps|
  {
    if steps == [] {
      assert [] + Closing(l.tail) == Closing(l.tail);
    } else {
      var (first, events) := UseOnce(Some(l), steps[0]);
      var rest := steps[1..];
      assert [steps[0]] + rest == steps;
      OneUseIsRead(l, steps[0], rest);
      if first.Some? {
        SessionsAreStreams(first.value, rest);
        var (link, more) := UseAll(first, rest);
        AssociateEvents(events, more, ToTheEnd(link));
      } else {
        AssociateEvents(events, [], []);
      }
    }
  }

  // What is still to be seen when the session is disconnected.
  function ToTheEnd(link: Option<Link>): seq<LinkEvent> {
    match link case None => [] case Some(l) => Closing(l.tail)
  }

  lemma {:induction false} AssociateEvents(a: seq<LinkEvent>, b: seq<LinkEvent>, c: seq<LinkEvent>)
    ensures (a + b) + c == a + (b + c)
    ensures b == c == [] ==> a + b + c == a
  {
  }

  // One use that is not refused writes its line.
  lemma {:induction false} OneUseIsRead(l: Link, step: SendStep, rest: seq<SendStep>)
    requires !IsRefused(l.peer, step)
    ensures var (link, events) := UseOnce(Some(l), step);
      var all := Sent(ReadToEnd(l.tail, SendAll(l.next, [step] + rest))) + [LinkClosed];
      && (link.Some? ==>
            all == events + (Sent(ReadToEnd(link.value.tail, SendAll(link.value.next, rest))) + [LinkClosed]))
      && (link.None? && rest == [] ==> all == events)
  {
    var (next, lines, ok) := SendOne(l.next, step);
    var (tail, read) := Written(l.tail, lines);
    assert ([step] + rest)[1..] == rest;
    ReadInTurn(l.tail, lines, SendAll(next, rest));
    var more := ReadToEnd(tail, SendAll(next, rest));
    SentConcat(read, more);
    if rest == [] {
      assert Sent(read) + Closing(tail) == Sent(read) + Sent(AtEnd(tail)) + [LinkClosed];
    }
  }

  lemma {:induction false} ReadInTurn(tail: Option<Incoming>, lines: seq<Line>, more: seq<Line>)
    requires |lines| <= 1
    ensures var (tail', read) := Written(tail, lines); ReadToEnd(tail, lines + more) == read + ReadToEnd(tail', more)
  {
    if lines == [] {
      assert lines + more == more;
    } else {
      assert (lines + more)[0] == lines[0] && (lines + more)[1..] == more;
    }
  }

  lemma {:induction false} SentConcat(a: seq<Incoming>, b: seq<Incoming>)
    ensures Sent(a + b) == Sent(a) + Sent(b)
    ensures Sent(a + b) + [LinkClosed] == Sent(a) + (Sent(b) + [LinkClosed])
  {
    assert Sent(a + b) == Sent(a) + Sent(b);
  }
}
