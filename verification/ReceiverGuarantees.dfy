// What the executor of a peer session guarantees on every stream and under every pattern of
// platform failures.
module ReceiverGuarantees {
  import opened Wrappers
  import opened Ints
  import opened CoreState
  import opened WireCommands
  import opened Frames
  import opened PeerReceiver

  // ---- Release after every way out -------------------------------------------------------------

  // The call at `i` is followed by a release, by a successful one if `successful` asks for it.
  ghost predicate ReleasedAfter(ops: seq<PlatformOp>, i: int, successful: bool) {
    exists j :: 0 <= i < j < |ops| && ops[j].Release? && (successful ==> ops[j].released)
  }

  ghost predicate InjectsReleased(ops: seq<PlatformOp>, base: nat, successful: bool) {
    forall i :: base <= i < |ops| && ops[i].Inject? && ops[i].injected ==> ReleasedAfter(ops, i, successful)
  }

  lemma {:induction false} AppendRelease(ops: seq<PlatformOp>, base: nat, ok: bool)
    ensures InjectsReleased(ops + [Release(ok)], base, false)
    ensures ok ==> InjectsReleased(ops + [Release(ok)], base, true)
  {
    var all := ops + [Release(ok)];
    forall i | base <= i < |all| && all[i].Inject?
      ensures ReleasedAfter(all, i, false) && (ok ==> ReleasedAfter(all, i, true))
    {
      assert i < |ops| && all[|ops|].Release?;
    }
  }

  lemma {:induction false} AppendFailedInject(ops: seq<PlatformOp>, base: nat, op: PlatformOp, successful: bool)
    requires InjectsReleased(ops, base, successful) && op.Inject? && !op.injected
    ensures InjectsReleased(ops + [op], base, successful)
  {
    var all := ops + [op];
    forall i | base <= i < |all| && all[i].Inject? && all[i].injected ensures ReleasedAfter(all, i, successful) {
      var j :| i < j < |ops| && ops[j].Release? && (successful ==> ops[j].released);
      assert all[j] == ops[j];
    }
  }

  // A running receiver owes a release exactly as its guard says; an ended one has attempted it.
  ghost predicate Guarded(p: Progress, base: nat) {
    match p
    case Running(r) => base <= |r.ops| && (!r.guard ==> InjectsReleased(r.ops, base, true))
    case Ended(r, _, released) =>
      base <= |r.ops| && InjectsReleased(r.ops, base, false) && (released ==> InjectsReleased(r.ops, base, true))
  }

  lemma {:induction false} AbortIsGuarded(r: Receiver, error: SessionError, oracle: Oracle, base: nat)
    requires base <= |r.ops| && (!r.guard ==> InjectsReleased(r.ops, base, true))
    ensures Guarded(Abort(r, error, oracle), base)
  {
    if r.guard {
      AppendRelease(r.ops, base, oracle.releaseOk(|r.ops|));
    } else {
      forall i | base <= i < |r.ops| && r.ops[i].Inject? && r.ops[i].injected ensures ReleasedAfter(r.ops, i, false) {
        assert ReleasedAfter(r.ops, i, true);
      }
    }
  }

  lemma {:induction false} ExecuteIsGuarded(r: Receiver, payload: CommandPayload, oracle: Oracle, base: nat)
    requires Guarded(Running(r), base)
    ensures Guarded(Execute(r, payload, oracle), base)
  {
    match IntoCommand(payload)
    case Err(cause) => AbortIsGuarded(r, BadPayload(cause), oracle, base);
    case Ok(command) =>
      var (ops, ok) := Perform(r.ops, command, oracle);
      match command {
        case Forward(event) =>
          if !ok {
            if !r.guard { AppendFailedInject(r.ops, base, Inject(event, false), true); }
            AbortIsGuarded(r.(ops := ops), PlatformFailed, oracle, base);
          }
        case ReleaseAll =>
          AppendRelease(r.ops, base, ok);
          if !ok {
            if !r.guard { FailedReleaseKeeps(r.ops, base); }
            AbortIsGuarded(r.(ops := ops), PlatformFailed, oracle, base);
          }
        case _ =>
      }
  }

  lemma {:induction false} FailedReleaseKeeps(ops: seq<PlatformOp>, base: nat)
    requires InjectsReleased(ops, base, true)
    ensures InjectsReleased(ops + [Release(false)], base, true)
  {
    var all := ops + [Release(false)];
    forall i | base <= i < |all| && all[i].Inject? && all[i].injected ensures ReleasedAfter(all, i, true) {
      var j :| i < j < |ops| && ops[j].Release? && ops[j].released;
      assert all[j] == ops[j];
    }
  }

  lemma {:induction false} ReceivingIsGuarded(p: Progress, stream: seq<Incoming>, oracle: Oracle, base: nat)
    requires Guarded(p, base)
    ensures Guarded(ReceiveAll(p, stream, oracle), base)
    decreases |stream|
  {
    if stream == [] || p.Ended? {
    } else {
      var r := p.receiver;
      match stream[0] {
        case Received(CommandFrame(sequence, payload)) =>
          match Accept(r.expected, sequence) {
            case Err(error) => AbortIsGuarded(r, error, oracle, base);
            case Ok(expected) => ExecuteIsGuarded(r.(expected := expected), payload, oracle, base);
          }
        case Received(HeartbeatFrame(sequence)) =>
          if Accept(r.expected, sequence).Err? {
            AbortIsGuarded(r, Accept(r.expected, sequence).error, oracle, base);
          }
        case Received(_) => AbortIsGuarded(r, OutOfPlace, oracle, base);
        case Broken => AbortIsGuarded(r, ReadFailed, oracle, base);
      }
      ReceivingIsGuarded(Receive(r, stream[0], oracle), stream[1..], oracle, base);
    }
  }

  // However the loop ends, a release has been attempted after the last successful injection, and
  // when the result is Ok that release succeeded. If the platform held nothing when the session was
  // opened, it then holds nothing again.
  lemma {:induction false} EveryExitReleases(ops: seq<PlatformOp>, stream: seq<Incoming>, oracle: Oracle)
    ensures InjectsReleased(Serve(ops, stream, oracle).0, |ops|, false)
    ensures Serve(ops, stream, oracle).1.Ok? ==> InjectsReleased(Serve(ops, stream, oracle).0, |ops|, true)
    ensures Serve(ops, stream, oracle).1.Ok? && Held(ops) == NOTHING ==> Held(Serve(ops, stream, oracle).0) == NOTHING
  {
    var p := ReceiveAll(Opened(ops), stream, oracle);
    ReceivingIsGuarded(Opened(ops), stream, oracle, |ops|);
    if Held(ops) == NOTHING {
      HoldingIsGuarded(Opened(ops), stream, oracle);
    }
    if p.Running? {
      if p.receiver.guard {
        AppendRelease(p.receiver.ops, |ops|, oracle.releaseOk(|p.receiver.ops|));
        HeldOneMore(p.receiver.ops, Release(oracle.releaseOk(|p.receiver.ops|)));
      } else {
        AbortIsGuarded(p.receiver, ReadFailed, oracle, |ops|);
      }
    }
  }

  // A running receiver with its guard down holds nothing; an ended one holds nothing unless the
  // release it owed failed.
  predicate HoldsOnlyUnderGuard(p: Progress) {
    match p
    case Running(r) => !r.guard ==> Held(r.ops) == NOTHING
    case Ended(r, _, released) => released ==> Held(r.ops) == NOTHING
  }

  lemma {:induction false} AbortHoldsOnlyUnderGuard(r: Receiver, error: SessionError, oracle: Oracle)
    requires HoldsOnlyUnderGuard(Running(r))
    ensures HoldsOnlyUnderGuard(Abort(r, error, oracle))
  {
    HeldOneMore(r.ops, Release(oracle.releaseOk(|r.ops|)));
  }

  lemma {:induction false} ExecuteHoldsOnlyUnderGuard(r: Receiver, payload: CommandPayload, oracle: Oracle)
    requires HoldsOnlyUnderGuard(Running(r))
    ensures HoldsOnlyUnderGuard(Execute(r, payload, oracle))
  {
    match IntoCommand(payload)
    case Err(cause) => AbortHoldsOnlyUnderGuard(r, BadPayload(cause), oracle);
    case Ok(command) =>
      var (ops, ok) := Perform(r.ops, command, oracle);
      match command {
        case Forward(event) => HeldOneMore(r.ops, Inject(event, ok));
        case ReleaseAll => HeldOneMore(r.ops, Release(ok));
        case _ =>
      }
      if !ok {
        assert HoldsOnlyUnderGuard(Running(r.(ops := ops)));
        AbortHoldsOnlyUnderGuard(r.(ops := ops), PlatformFailed, oracle);
      }
  }

  lemma {:induction false} ReceiveHoldsOnlyUnderGuard(r: Receiver, incoming: Incoming, oracle: Oracle)
    requires HoldsOnlyUnderGuard(Running(r))
    ensures HoldsOnlyUnderGuard(Receive(r, incoming, oracle))
  {
    match incoming
    case Received(CommandFrame(sequence, payload)) =>
      match Accept(r.expected, sequence) {
        case Err(error) => AbortHoldsOnlyUnderGuard(r, error, oracle);
        case Ok(expected) => ExecuteHoldsOnlyUnderGuard(r.(expected := expected), payload, oracle);
      }
    case Received(HeartbeatFrame(sequence)) =>
      if Accept(r.expected, sequence).Err? {
        AbortHoldsOnlyUnderGuard(r, Accept(r.expected, sequence).error, oracle);
      }
    case Received(_) => AbortHoldsOnlyUnderGuard(r, OutOfPlace, oracle);
    case Broken => AbortHoldsOnlyUnderGuard(r, ReadFailed, oracle);
  }

  lemma {:induction false} HoldingIsGuarded(p: Progress, stream: seq<Incoming>, oracle: Oracle)
    requires HoldsOnlyUnderGuard(p)
    ensures HoldsOnlyUnderGuard(ReceiveAll(p, stream, oracle))
    decreases |stream|
  {
    if stream == [] || p.Ended? {
    } else {
      ReceiveHoldsOnlyUnderGuard(p.receiver, stream[0], oracle);
      HoldingIsGuarded(Receive(p.receiver, stream[0], oracle), stream[1..], oracle);
    }
  }

  // The call lets go of the press: a successful release of its key or button, or of everything.
  predicate LetsGo(op: PlatformOp, press: InputEvent)
    requires IsPress(press)
  {
    op == Release(true) || op == Inject(ReleaseOf(press), true)
  }

  predicate Holds(h: Holding, press: InputEvent)
    requires IsPress(press)
  {
    if press.Key? then press.key in h.keys else press.button in h.buttons
  }

  // A key or button is held exactly if a press of it succeeded and no later call let it go.
  lemma {:induction false} HeldExactly(ops: seq<PlatformOp>, press: InputEvent)
    requires IsPress(press)
    ensures Holds(Held(ops), press) <==>
      exists i :: 0 <= i < |ops| && ops[i] == Inject(press, true)
               && forall j :: i < j < |ops| ==> !LetsGo(ops[j], press)
  {
    if ops == [] {
    } else {
      var n := |ops| - 1;
      var init := ops[..n];
      HeldExactly(init, press);
      assert Holds(Held(ops), press) <==>
        ops[n] == Inject(press, true) || (Holds(Held(init), press) && !LetsGo(ops[n], press));
      if i :| 0 <= i < n && init[i] == Inject(press, true) && forall j :: i < j < n ==> !LetsGo(init[j], press) {
        if !LetsGo(ops[n], press) {
          assert ops[i] == Inject(press, true) && forall j :: i < j < n ==> ops[j] == init[j];
        }
      }
      if i :| 0 <= i < n && ops[i] == Inject(press, true) && forall j :: i < j < |ops| ==> !LetsGo(ops[j], press) {
        assert init[i] == ops[i] && forall j :: i < j < n ==> init[j] == ops[j];
      }
    }
  }

  // ---- Failed releases -------------------------------------------------------------------------

  // The latest release failed.
  function Owed(ops: seq<PlatformOp>): bool {
    if ops == [] then false
    else
      match ops[|ops| - 1]
      case Release(ok) => !ok
      case Inject(_, _) => Owed(ops[..|ops| - 1])
  }

  lemma {:induction false} OwedOneMore(ops: seq<PlatformOp>, op: PlatformOp)
    ensures Owed(ops + [op]) == match op case Release(ok) => !ok case Inject(_, _) => Owed(ops)
  {
    assert (ops + [op])[..|ops + [op]| - 1] == ops;
  }

  // Unless the latest release failed, a receiver with its guard down and one that has ended hold
  // nothing.
  predicate Accounted(p: Progress) {
    match p
    case Running(r) => Owed(r.ops) || (!r.guard ==> Held(r.ops) == NOTHING)
    case Ended(r, _, _) => Owed(r.ops) || Held(r.ops) == NOTHING
  }

  lemma {:induction false} AbortIsAccounted(r: Receiver, error: SessionError, oracle: Oracle)
    requires Accounted(Running(r))
    ensures Accounted(Abort(r, error, oracle))
  {
    if r.guard {
      HeldOneMore(r.ops, Release(oracle.releaseOk(|r.ops|)));
      OwedOneMore(r.ops, Release(oracle.releaseOk(|r.ops|)));
    }
  }

  lemma {:induction false} PerformIsAccounted(r: Receiver, command: Command, oracle: Oracle)
    requires Accounted(Running(r))
    ensures var (ops, ok) := Perform(r.ops, command, oracle);
      Accounted(Running(r.(ops := ops, guard := if ok then GuardAfter(r.guard, command) else r.guard)))
  {
    var (_, ok) := Perform(r.ops, command, oracle);
    match command
    case Forward(event) =>
      HeldOneMore(r.ops, Inject(event, ok));
      OwedOneMore(r.ops, Inject(event, ok));
    case ReleaseAll =>
      HeldOneMore(r.ops, Release(ok));
      OwedOneMore(r.ops, Release(ok));
    case _ =>
  }

  lemma {:induction false} ExecuteIsAccounted(r: Receiver, payload: CommandPayload, oracle: Oracle)
    requires Accounted(Running(r))
    ensures Accounted(Execute(r, payload, oracle))
  {
    match IntoCommand(payload)
    case Err(cause) => AbortIsAccounted(r, BadPayload(cause), oracle);
    case Ok(command) =>
      PerformIsAccounted(r, command, oracle);
      var (ops, ok) := Perform(r.ops, command, oracle);
      if !ok {
        AbortIsAccounted(r.(ops := ops), PlatformFailed, oracle);
      }
  }

  lemma {:induction false} ReceiveIsAccounted(r: Receiver, incoming: Incoming, oracle: Oracle)
    requires Accounted(Running(r))
    ensures Accounted(Receive(r, incoming, oracle))
  {
    match incoming
    case Received(CommandFrame(sequence, payload)) =>
      match Accept(r.expected, sequence) {
        case Err(error) => AbortIsAccounted(r, error, oracle);
        case Ok(expected) => ExecuteIsAccounted(r.(expected := expected), payload, oracle);
      }
    case Received(HeartbeatFrame(sequence)) =>
      if Accept(r.expected, sequence).Err? {
        AbortIsAccounted(r, Accept(r.expected, sequence).error, oracle);
      }
    case Received(_) => AbortIsAccounted(r, OutOfPlace, oracle);
    case Broken => AbortIsAccounted(r, ReadFailed, oracle);
  }

  // ---- What is executed ------------------------------------------------------------------------

  // The frames count up from `from` without a gap and carry only commands and heartbeats that
  // decode.
  predicate InOrder(stream: seq<Incoming>, from: nat) {
    forall i :: 0 <= i < |stream| ==>
      && stream[i].Received? && from + i < U64_MAX
      && (|| stream[i].frame == HeartbeatFrame(from + i)
          || (stream[i].frame.CommandFrame? && stream[i].frame.sequence == from + i
              && IntoCommand(stream[i].frame.payload).Ok?))
  }

  // The commands carried by a stream of frames, heartbeats left out.
  function Commands(stream: seq<Incoming>): seq<Command> {
    if stream == [] then [] else Carried(stream[0]) + Commands(stream[1..])
  }

  function Carried(incoming: Incoming): seq<Command> {
    if incoming.Received? && incoming.frame.CommandFrame? && IntoCommand(incoming.frame.payload).Ok?
    then [IntoCommand(incoming.frame.payload).value]
    else []
  }

  function Outcomes(commands: seq<Command>): seq<Outcome> {
    seq(|commands|, i requires 0 <= i < |commands| => OutcomeOf(commands[i]))
  }

  function GuardAfterAll(guard: bool, commands: seq<Command>): bool
    decreases |commands|
  {
    if commands == [] then guard else GuardAfterAll(GuardAfter(guard, commands[0]), commands[1..])
  }

  function Recorded(p: Progress): Receiver { if p.Running? then p.receiver else p.last }

  // What one item contributes while the receiver keeps running.
  lemma {:induction false} RunningStep(r: Receiver, incoming: Incoming, oracle: Oracle)
    ensures Receive(r, incoming, oracle).Ended? ==> Recorded(Receive(r, incoming, oracle)).outcomes == r.outcomes
    ensures Receive(r, incoming, oracle).Running? ==>
      var r' := Receive(r, incoming, oracle).receiver;
      && InOrder([incoming], r.expected) && r'.expected == r.expected + 1
      && r'.outcomes == r.outcomes + Outcomes(Commands([incoming]))
      && r'.guard == GuardAfterAll(r.guard, Commands([incoming]))
  {
  }

  lemma {:induction false} CommandsConcat(a: seq<Incoming>, b: seq<Incoming>)
    ensures Commands(a + b) == Commands(a) + Commands(b)
  {
    if a == [] {
      assert a + b == b;
    } else {
      assert (a + b)[0] == a[0] && (a + b)[1..] == a[1..] + b;
      CommandsConcat(a[1..], b);
      Associate(Carried(a[0]), Commands(a[1..]), Commands(b));
    }
  }

  lemma {:induction false} Associate(a: seq<Command>, b: seq<Command>, c: seq<Command>)
    ensures a + (b + c) == (a + b) + c
  {
  }

  lemma {:induction false} GuardConcat(guard: bool, a: seq<Command>, b: seq<Command>)
    ensures GuardAfterAll(guard, a + b) == GuardAfterAll(GuardAfterAll(guard, a), b)
    decreases |a|
  {
    if a == [] {
      assert a + b == b;
    } else {
      assert (a + b)[1..] == a[1..] + b;
      GuardConcat(GuardAfter(guard, a[0]), a[1..], b);
    }
  }

  // The platform call of a command that is executed, if it makes one.
  function CallOf(command: Command): seq<PlatformOp> {
    match command
    case Forward(event) => [Inject(event, true)]
    case ReleaseAll => [Release(true)]
    case _ => []
  }

  function Calls(commands: seq<Command>): seq<PlatformOp> {
    if commands == [] then [] else CallOf(commands[0]) + Calls(commands[1..])
  }

  // A release is owed: some start or forward has no release after it, or one was owed before and
  // none has come.
  predicate Owes(before: bool, commands: seq<Command>) {
    || (exists i :: 0 <= i < |commands| && RaisesAt(commands, i))
    || (before && forall j :: 0 <= j < |commands| ==> !commands[j].ReleaseAll?)
  }

  predicate RaisesAt(commands: seq<Command>, i: nat)
    requires i < |commands|
  {
    && (commands[i].StartSession? || commands[i].Forward?)
    && forall j :: i < j < |commands| ==> !commands[j].ReleaseAll?
  }

  lemma {:induction false} GuardIsOwed(guard: bool, commands: seq<Command>)
    ensures GuardAfterAll(guard, commands) <==> Owes(guard, commands)
    decreases |commands|
  {
    if commands == [] {
    } else {
      var next, rest := GuardAfter(guard, commands[0]), commands[1..];
      GuardIsOwed(next, rest);
      OwesInTurn(guard, commands);
    }
  }

  lemma {:induction false} OwesInTurn(guard: bool, commands: seq<Command>)
    requires commands != []
    ensures Owes(guard, commands) <==> Owes(GuardAfter(guard, commands[0]), commands[1..])
  {
    var next, rest := GuardAfter(guard, commands[0]), commands[1..];
    if Owes(guard, commands) {
      if i :| 0 <= i < |commands| && RaisesAt(commands, i) {
        if i > 0 {
          assert RaisesAt(rest, i - 1);
        } else {
          assert forall j :: 0 <= j < |rest| ==> rest[j] == commands[j + 1];
        }
      }
    }
    if Owes(next, rest) {
      if i :| 0 <= i < |rest| && RaisesAt(rest, i) {
        forall j | i + 1 < j < |commands| ensures !commands[j].ReleaseAll? {
          assert commands[j] == rest[j - 1];
        }
        assert RaisesAt(commands, i + 1);
      } else {
        assert forall j :: 0 < j < |commands| ==> commands[j] == rest[j - 1];
        if next && !guard { assert RaisesAt(commands, 0); }
      }
    }
  }

  function Number(frame: Frame): u64
    requires frame.CommandFrame? || frame.HeartbeatFrame?
  {
    if frame.CommandFrame? then frame.sequence else frame.beat
  }

  // Why a session that expects number n ends at an item, if the item ends it.
  function FaultAt(item: Incoming, n: u64): SessionError {
    match item
    case Broken => ReadFailed
    case Received(frame) =>
      if !frame.CommandFrame? && !frame.HeartbeatFrame? then OutOfPlace
      else if Number(frame) != n then SequenceMismatch(n, Number(frame))
      else if n == U64_MAX then SequenceOverflow
      else if frame.CommandFrame? && IntoCommand(frame.payload).Err? then BadPayload(IntoCommand(frame.payload).error)
      else PlatformFailed
  }

  // The platform call that fails at such an item.
  function FailedCallAt(item: Incoming, n: u64): seq<PlatformOp> {
    if FaultAt(item, n) != PlatformFailed || Carried(item) == [] then []
    else
      match Carried(item)[0]
      case Forward(event) => [Inject(event, false)]
      case ReleaseAll => [Release(false)]
      case _ => []
  }

  function ReleaseIf(owed: bool, ops: seq<PlatformOp>, oracle: Oracle): seq<PlatformOp> {
    if owed then [Release(oracle.releaseOk(|ops|))] else []
  }

  // The session ended at the item: with its fault, after its failed call if the platform was at
  // fault, and after a release exactly if one was owed.
  predicate EndedAt(before: seq<PlatformOp>, owed: bool, item: Incoming, n: u64, p: Progress, oracle: Oracle) {
    && p.Ended? && p.error == FaultAt(item, n)
    && (p.error.PlatformFailed? ==> FailedCallAt(item, n) != [])
    && var tried := before + FailedCallAt(item, n);
       p.last.ops == tried + ReleaseIf(owed, tried, oracle)
  }

  lemma {:induction false} CallsConcat(a: seq<Command>, b: seq<Command>)
    ensures Calls(a + b) == Calls(a) + Calls(b)
  {
    if a == [] {
      assert a + b == b;
    } else {
      assert (a + b)[0] == a[0] && (a + b)[1..] == a[1..] + b;
      CallsConcat(a[1..], b);
      AssociateCalls(CallOf(a[0]), Calls(a[1..]), Calls(b));
    }
  }

  lemma {:induction false} AssociateCalls(a: seq<PlatformOp>, b: seq<PlatformOp>, c: seq<PlatformOp>)
    ensures a + (b + c) == (a + b) + c
  {
  }

  // The platform calls of one item of the stream.
  lemma {:induction false} CallsOfOneItem(r: Receiver, item: Incoming, oracle: Oracle)
    ensures var p := Receive(r, item, oracle);
      if p.Running? then p.receiver.ops == r.ops + Calls(Commands([item]))
      else EndedAt(r.ops, r.guard, item, r.expected, p, oracle)
  {
    assert Commands([item]) == Carried(item) + Commands([item][1..]) == Carried(item);
    if Carried(item) != [] {
      assert Calls(Carried(item)) == CallOf(Carried(item)[0]) + Calls(Carried(item)[1..]);
    }
    assert r.ops + [] == r.ops;
  }

  // A receiver executes the commands of some in-order prefix of its stream, in order, and makes their
  // platform calls. It is still running exactly after the whole stream. Otherwise it ended at the next
  // item, for the reason that item gives, and released exactly if the executed commands owe a release.
  lemma {:induction false} ExecutesAnInOrderPrefix(r: Receiver, stream: seq<Incoming>, oracle: Oracle) returns (k: nat)
    ensures k <= |stream| && InOrder(stream[..k], r.expected) && r.expected + k <= U64_MAX
    ensures var p, commands := ReceiveAll(Running(r), stream, oracle), Commands(stream[..k]);
      && Recorded(p).outcomes == r.outcomes + Outcomes(commands)
      && (if k == |stream| then
            && p.Running? && p.receiver.guard == Owes(r.guard, commands)
            && p.receiver.ops == r.ops + Calls(commands)
          else EndedAt(r.ops + Calls(commands), Owes(r.guard, commands), stream[k], r.expected + k, p, oracle))
  {
    k := ExecutesByTheGuard(r, stream, oracle);
    GuardIsOwed(r.guard, Commands(stream[..k]));
  }

  lemma {:induction false} ExecutesByTheGuard(r: Receiver, stream: seq<Incoming>, oracle: Oracle) returns (k: nat)
    ensures k <= |stream| && InOrder(stream[..k], r.expected) && r.expected + k <= U64_MAX
    ensures Executed(r, stream, k, ReceiveAll(Running(r), stream, oracle), oracle)
    decreases |stream|
  {
    if stream == [] || Receive(r, stream[0], oracle).Ended? {
      k := 0;
      assert r.outcomes + Outcomes(Commands([])) == r.outcomes;
      assert r.ops + Calls(Commands([])) == r.ops;
      if stream != [] {
        RunningStep(r, stream[0], oracle);
        CallsOfOneItem(r, stream[0], oracle);
      }
    } else {
      var next := Receive(r, stream[0], oracle).receiver;
      RunningStep(r, stream[0], oracle);
      CallsOfOneItem(r, stream[0], oracle);
      var rest := ExecutesByTheGuard(next, stream[1..], oracle);
      k := rest + 1;
      ExecutedInTurn(r, next, stream, rest, ReceiveAll(Running(next), stream[1..], oracle), oracle);
    }
  }

  // A receiver that executed the head and is left as `next`.
  predicate ExecutedHead(r: Receiver, next: Receiver, head: seq<Incoming>) {
    && InOrder(head, r.expected) && next.expected == r.expected + 1
    && next.outcomes == r.outcomes + Outcomes(Commands(head))
    && next.ops == r.ops + Calls(Commands(head))
    && next.guard == GuardAfterAll(r.guard, Commands(head))
  }

  lemma {:induction false} ExecutedInTurn(
    r: Receiver, next: Receiver, stream: seq<Incoming>, rest: nat, p: Progress, oracle: Oracle)
    requires stream != [] && ExecutedHead(r, next, [stream[0]])
    requires rest < |stream| && next.expected + rest <= U64_MAX
    requires InOrder(stream[1..][..rest], next.expected) && Executed(next, stream[1..], rest, p, oracle)
    ensures InOrder(stream[..rest + 1], r.expected) && Executed(r, stream, rest + 1, p, oracle)
  {
    var head, after := [stream[0]], stream[1..];
    assert stream[..rest + 1] == head + after[..rest];
    PrefixStep(r, next, head, after, rest);
  }

  // What the first k items of the stream and the item after them have made of the receiver.
  predicate Executed(r: Receiver, stream: seq<Incoming>, k: nat, p: Progress, oracle: Oracle)
    requires k <= |stream| && r.expected + k <= U64_MAX
  {
    var commands := Commands(stream[..k]);
    && Recorded(p).outcomes == r.outcomes + Outcomes(commands)
    && if k == |stream| then
         && p.Running? && p.receiver.guard == GuardAfterAll(r.guard, commands)
         && p.receiver.ops == r.ops + Calls(commands)
       else
         EndedAt(r.ops + Calls(commands), GuardAfterAll(r.guard, commands), stream[k], r.expected + k, p, oracle)
  }

  lemma {:induction false} PrefixStep(r: Receiver, r': Receiver, head: seq<Incoming>, after: seq<Incoming>, rest: nat)
    requires |head| == 1 && rest <= |after|
    requires ExecutedHead(r, r', head) && InOrder(after[..rest], r'.expected)
    ensures InOrder(head + after[..rest], r.expected)
    ensures var own, all := Commands(after[..rest]), Commands(head + after[..rest]);
      && r'.outcomes + Outcomes(own) == r.outcomes + Outcomes(all)
      && r'.ops + Calls(own) == r.ops + Calls(all)
      && GuardAfterAll(r'.guard, own) == GuardAfterAll(r.guard, all)
  {
    var first, own := Commands(head), Commands(after[..rest]);
    InOrderConcat(head, after[..rest], r.expected);
    CommandsConcat(head, after[..rest]);
    OutcomesConcat(r.outcomes, first, own);
    GuardConcat(r.guard, first, own);
    CallsConcat(first, own);
    AssociateCalls(r.ops, Calls(first), Calls(own));
  }

  lemma {:induction false} OutcomesConcat(before: seq<Outcome>, a: seq<Command>, b: seq<Command>)
    ensures (before + Outcomes(a)) + Outcomes(b) == before + Outcomes(a + b)
  {
  }

  lemma {:induction false} InOrderConcat(a: seq<Incoming>, b: seq<Incoming>, from: nat)
    requires InOrder(a, from) && InOrder(b, from + |a|)
    ensures InOrder(a + b, from)
  {
  }

  // A whole session: its platform calls and its result, on every stream and under any failures. With
  // an Ok result it lists the commands of the stream, and one more release exactly if one was owed.
  lemma {:induction false} ServesExactly(ops: seq<PlatformOp>, stream: seq<Incoming>, oracle: Oracle) returns (k: nat)
    ensures k <= |stream| && InOrder(stream[..k], 0) && k <= U64_MAX
    ensures var (after, result) := Serve(ops, stream, oracle);
      var commands := Commands(stream[..k]);
      var done, owed := ops + Calls(commands), Owes(false, commands);
      if k == |stream| then
        && after == done + ReleaseIf(owed, done, oracle)
        && result == if !owed then Ok(Outcomes(commands))
                     else if oracle.releaseOk(|done|) then Ok(Outcomes(commands) + [InputsReleased])
                     else Err(ReleaseFailed)
      else
        && after == done + FailedCallAt(stream[k], k) + ReleaseIf(owed, done + FailedCallAt(stream[k], k), oracle)
        && result == Err(FaultAt(stream[k], k))
        && (result.error.PlatformFailed? ==> FailedCallAt(stream[k], k) != [])
  {
    k := ExecutesAnInOrderPrefix(Opened(ops).receiver, stream, oracle);
    assert [] + Outcomes(Commands(stream[..k])) == Outcomes(Commands(stream[..k]));
    assert ops + Calls(Commands(stream[..k])) + [] == ops + Calls(Commands(stream[..k]));
  }

  // On a platform that never fails, the sessions that end well are exactly the in-order ones.
  lemma {:induction false} InOrderSessionsEndWell(r: Receiver, stream: seq<Incoming>, oracle: Oracle)
    requires forall n :: oracle.injectOk(n)
    requires forall n :: oracle.releaseOk(n)
    ensures ReceiveAll(Running(r), stream, oracle).Running? <==> InOrder(stream, r.expected)
    decreases |stream|
  {
    if ReceiveAll(Running(r), stream, oracle).Running? {
      var k := ExecutesAnInOrderPrefix(r, stream, oracle);
      assert stream[..|stream|] == stream;
    } else if InOrder(stream, r.expected) && stream != [] {
      assert Receive(r, stream[0], oracle).Running?;
      var next, rest := Receive(r, stream[0], oracle).receiver, stream[1..];
      forall i | 0 <= i < |rest|
        ensures rest[i] == stream[i + 1] && r.expected + (i + 1) == next.expected + i
      {
      }
      assert InOrder(rest, next.expected);
      InOrderSessionsEndWell(next, rest, oracle);
    }
  }

  // ---- Heartbeats ------------------------------------------------------------------------------

  // The same stream without heartbeats, its commands renumbered from `fresh`; whatever would end
  // the session is kept as a failure at the same place.
  function EraseHeartbeats(stream: seq<Incoming>, expected: nat, renumbered: nat): seq<Incoming>
    requires renumbered <= expected <= U64_MAX
    decreases |stream|
  {
    if stream == [] then []
    else
      match stream[0]
      case Received(HeartbeatFrame(n)) =>
        if Accept(expected, n).Ok? then EraseHeartbeats(stream[1..], expected + 1, renumbered) else [Broken]
      case Received(CommandFrame(n, payload)) =>
        if Accept(expected, n).Ok?
        then [Received(CommandFrame(renumbered, payload))] + EraseHeartbeats(stream[1..], expected + 1, renumbered + 1)
        else [Broken]
      case _ => [Broken]
  }

  predicate SameButNumbers(p: Progress, q: Progress) {
    && p.Running? == q.Running?
    && Recorded(p) == Recorded(q).(expected := Recorded(p).expected)
  }

  lemma {:induction false} ErasingHeartbeatsKeepsProgress(
    r: Receiver, stream: seq<Incoming>, oracle: Oracle, renumbered: nat)
    requires renumbered <= r.expected
    ensures SameButNumbers(
      ReceiveAll(Running(r), stream, oracle),
      ReceiveAll(Running(r.(expected := renumbered)), EraseHeartbeats(stream, r.expected, renumbered), oracle))
    decreases |stream|
  {
    if stream == [] {
    } else {
      var erased := EraseHeartbeats(stream, r.expected, renumbered);
      var p := Receive(r, stream[0], oracle);
      match stream[0] {
        case Received(HeartbeatFrame(n)) =>
          if Accept(r.expected, n).Ok? {
            ErasingHeartbeatsKeepsProgress(r.(expected := r.expected + 1), stream[1..], oracle, renumbered);
          }
        case Received(CommandFrame(n, payload)) =>
          if Accept(r.expected, n).Ok? {
            var q := Receive(r.(expected := renumbered), erased[0], oracle);
            assert SameButNumbers(p, q);
            assert erased[1..] == EraseHeartbeats(stream[1..], r.expected + 1, renumbered + 1);
            if p.Running? {
              ErasingHeartbeatsKeepsProgress(p.receiver, stream[1..], oracle, renumbered + 1);
            }
          }
        case _ =>
      }
    }
  }

  // Heartbeats carry no meaning: erasing them and renumbering the commands changes neither the
  // platform calls nor the outcomes, on any stream and under any failures.
  lemma {:induction false} HeartbeatsCarryNoMeaning(ops: seq<PlatformOp>, stream: seq<Incoming>, oracle: Oracle)
    ensures var plain := Serve(ops, stream, oracle);
      var erased := Serve(ops, EraseHeartbeats(stream, 0, 0), oracle);
      && plain.0 == erased.0 && plain.1.Ok? == erased.1.Ok? && (plain.1.Ok? ==> plain.1 == erased.1)
  {
    ErasingHeartbeatsKeepsProgress(Opened(ops).receiver, stream, oracle, 0);
  }
}
