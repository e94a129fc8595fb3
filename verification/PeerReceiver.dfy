// The receiving side of a peer session: sequence check, decoding, execution against a platform that
// may fail, and the release guard (crates/akraz-daemon/src/lib.rs).
module PeerReceiver {
  import opened Wrappers
  import opened Ints
  import opened Geometry
  import opened CoreState
  import opened WireCommands
  import opened Frames

  // ---- Platform --------------------------------------------------------------------------------

  // One call to the platform and whether it succeeded.
  datatype PlatformOp = Inject(event: InputEvent, injected: bool) | Release(released: bool)

  // Which calls succeed, by position in the history of calls; any pattern of failures is possible.
  datatype Oracle = Oracle(injectOk: nat -> bool, releaseOk: nat -> bool)

  class Platform {
    const oracle: Oracle
    var ops: seq<PlatformOp>

    constructor (oracle: Oracle)
      ensures this.oracle == oracle && ops == []
    {
      this.oracle, ops := oracle, [];
    }

    method InjectInput(event: InputEvent) returns (ok: bool)
      modifies this
      ensures (ops, ok) == DoInject(old(ops), event, oracle)
    {
      ok := oracle.injectOk(|ops|);
      ops := ops + [Inject(event, ok)];
    }

    method ReleaseAll() returns (ok: bool)
      modifies this
      ensures (ops, ok) == DoRelease(old(ops), oracle)
    {
      ok := oracle.releaseOk(|ops|);
      ops := ops + [Release(ok)];
    }
  }

  function DoInject(ops: seq<PlatformOp>, event: InputEvent, oracle: Oracle): (seq<PlatformOp>, bool) {
    (ops + [Inject(event, oracle.injectOk(|ops|))], oracle.injectOk(|ops|))
  }

  function DoRelease(ops: seq<PlatformOp>, oracle: Oracle): (seq<PlatformOp>, bool) {
    (ops + [Release(oracle.releaseOk(|ops|))], oracle.releaseOk(|ops|))
  }

  // What the platform holds down after a history of calls.
  datatype Holding = Holding(keys: set<PhysicalKey>, buttons: set<MouseButton>)

  const NOTHING := Holding({}, {})

  function Held(ops: seq<PlatformOp>): Holding {
    if ops == [] then NOTHING else HeldAfter(Held(ops[..|ops| - 1]), ops[|ops| - 1])
  }

  function HeldAfter(h: Holding, op: PlatformOp): Holding {
    match op
    case Inject(Key(k, Pressed), true) => h.(keys := h.keys + {k})
    case Inject(Key(k, Released), true) => h.(keys := h.keys - {k})
    case Inject(Button(b, Pressed), true) => h.(buttons := h.buttons + {b})
    case Inject(Button(b, Released), true) => h.(buttons := h.buttons - {b})
    case Release(true) => NOTHING
    case _ => h
  }

  lemma {:induction false} HeldOneMore(ops: seq<PlatformOp>, op: PlatformOp)
    ensures Held(ops + [op]) == HeldAfter(Held(ops), op)
  {
  }

  // ---- Execution -------------------------------------------------------------------------------

  datatype Outcome =
    | SessionStarted(peer: string, crossing: Option<EdgeCrossing>)
    | InputForwarded(event: InputEvent)
    | InputsReleased
    | SessionStopped(session: Option<string>)

  function OutcomeOf(command: Command): Outcome {
    match command
    case StartSession(peer, crossing) => SessionStarted(peer, crossing)
    case Forward(event) => InputForwarded(event)
    case ReleaseAll => InputsReleased
    case StopSession(session) => SessionStopped(session)
  }

  function Perform(ops: seq<PlatformOp>, command: Command, oracle: Oracle): (seq<PlatformOp>, bool) {
    match command
    case Forward(event) => DoInject(ops, event, oracle)
    case ReleaseAll => DoRelease(ops, oracle)
    case _ => (ops, true)
  }

  function GuardAfter(guard: bool, command: Command): bool {
    match command
    case StartSession(_, _) => true
    case Forward(_) => true
    case ReleaseAll => false
    case StopSession(_) => guard
  }

  datatype SessionError =
    | ReadFailed
    | OutOfPlace
    | SequenceMismatch(expected: u64, received: u64)
    | SequenceOverflow
    | BadPayload(cause: WireError)
    | PlatformFailed
    | ReleaseFailed

  // The number expected after `received` was read, or why it is refused. The last u64 is matched
  // but cannot be counted past.
  function Accept(expected: u64, received: u64): Result<u64, SessionError> {
    if received != expected then Err(SequenceMismatch(expected, received))
    else if expected == U64_MAX then Err(SequenceOverflow)
    else Ok(expected + 1)
  }

  datatype Receiver = Receiver(expected: u64, guard: bool, outcomes: seq<Outcome>, ops: seq<PlatformOp>)

  // `released` says whether the release owed on the error path, if any, succeeded.
  datatype Progress = Running(receiver: Receiver) | Ended(last: Receiver, error: SessionError, released: bool)

  function Abort(r: Receiver, error: SessionError, oracle: Oracle): Progress {
    if r.guard then
      var (ops, ok) := DoRelease(r.ops, oracle);
      Ended(r.(ops := ops), error, ok)
    else Ended(r, error, true)
  }

  function Receive(r: Receiver, incoming: Incoming, oracle: Oracle): Progress {
    match incoming
    case Received(CommandFrame(sequence, payload)) =>
      (match Accept(r.expected, sequence)
       case Err(error) => Abort(r, error, oracle)
       case Ok(expected) => Execute(r.(expected := expected), payload, oracle))
    case Received(HeartbeatFrame(sequence)) =>
      (match Accept(r.expected, sequence)
       case Err(error) => Abort(r, error, oracle)
       case Ok(expected) => Running(r.(expected := expected)))
    case Received(_) => Abort(r, OutOfPlace, oracle)
    case Broken => Abort(r, ReadFailed, oracle)
  }

  function Execute(r: Receiver, payload: CommandPayload, oracle: Oracle): Progress {
    match IntoCommand(payload)
    case Err(cause) => Abort(r, BadPayload(cause), oracle)
    case Ok(command) =>
      var (ops, ok) := Perform(r.ops, command, oracle);
      if !ok then Abort(r.(ops := ops), PlatformFailed, oracle)
      else Running(r.(ops := ops, guard := GuardAfter(r.guard, command), outcomes := r.outcomes + [OutcomeOf(command)]))
  }

  function ReceiveAll(p: Progress, stream: seq<Incoming>, oracle: Oracle): Progress
    decreases |stream|
  {
    if stream == [] || p.Ended? then p else ReceiveAll(Receive(p.receiver, stream[0], oracle), stream[1..], oracle)
  }

  // The stream ends: a receiver that is still running releases what it owes.
  function Close(p: Progress, oracle: Oracle): (seq<PlatformOp>, Result<seq<Outcome>, SessionError>) {
    match p
    case Ended(last, error, _) => (last.ops, Err(error))
    case Running(r) =>
      if !r.guard then (r.ops, Ok(r.outcomes))
      else
        var (ops, ok) := DoRelease(r.ops, oracle);
        (ops, if ok then Ok(r.outcomes + [InputsReleased]) else Err(ReleaseFailed))
  }

  function Opened(ops: seq<PlatformOp>): Progress { Running(Receiver(0, false, [], ops)) }

  function Serve(ops: seq<PlatformOp>, stream: seq<Incoming>, oracle: Oracle)
    : (seq<PlatformOp>, Result<seq<Outcome>, SessionError>)
  {
    Close(ReceiveAll(Opened(ops), stream, oracle), oracle)
  }

  method ReleaseInputsAfterError(platform: Platform, needsRelease: bool)
    modifies platform
    ensures platform.ops == if needsRelease then DoRelease(old(platform.ops), platform.oracle).0 else old(platform.ops)
  {
    if needsRelease {
      var _ := platform.ReleaseAll();
    }
  }

  method ExecuteCommand(platform: Platform, command: Command) returns (outcome: Result<Outcome, SessionError>)
    modifies platform
    ensures (platform.ops, outcome.Ok?) == Perform(old(platform.ops), command, platform.oracle)
    ensures outcome == Ok(OutcomeOf(command)) || outcome == Err(PlatformFailed)
  {
    var ok := true;
    match command {
      case StartSession(_, _) =>
      case Forward(event) =>
        ok := platform.InjectInput(event);
      case ReleaseAll =>
        ok := platform.ReleaseAll();
      case StopSession(_) =>
    }
    outcome := if ok then Ok(OutcomeOf(command)) else Err(PlatformFailed);
  }

  class SessionSequence {
    var expected: u64

    constructor ()
      ensures expected == 0
    {
      expected := 0;
    }

    method AcceptNumber(received: u64) returns (r: Result<(), SessionError>)
      modifies this
      ensures match Accept(old(expected), received)
        case Ok(next) => r.Ok? && expected == next
        case Err(error) => r == Err(error) && expected == old(expected)
    {
      if received != expected {
        return Err(SequenceMismatch(expected, received));
      }
      if expected == U64_MAX {
        return Err(SequenceOverflow);
      }
      expected := expected + 1;
      r := Ok(());
    }
  }

  // The executor loop: read until the stream ends or something fails, executing each command as it
  // arrives, and never leave without paying the release that is owed.
  method ExecuteFramesUntilClosed(stream: seq<Incoming>, platform: Platform)
    returns (result: Result<seq<Outcome>, SessionError>)
    modifies platform
    ensures (platform.ops, result) == Serve(old(platform.ops), stream, platform.oracle)
  {
    var outcomes: seq<Outcome> := [];
    var needsReleaseOnClose := false;
    var sequence := new SessionSequence();
    ghost var oracle := platform.oracle;
    ghost var all := ReceiveAll(Opened(platform.ops), stream, oracle);
    var i := 0;
    assert stream[0..] == stream;
    while i < |stream|
      invariant 0 <= i <= |stream| && fresh(sequence)
      invariant all == ReceiveAll(
        Running(Receiver(sequence.expected, needsReleaseOnClose, outcomes, platform.ops)), stream[i..], oracle)
    {
      assert stream[i..][0] == stream[i] && stream[i..][1..] == stream[i + 1..];
      ghost var r := Receiver(sequence.expected, needsReleaseOnClose, outcomes, platform.ops);
      assert all == ReceiveAll(Receive(r, stream[i], oracle), stream[i + 1..], oracle);
      match stream[i] {
        case Received(CommandFrame(number, payload)) =>
          var accepted := sequence.AcceptNumber(number);
          if accepted.Err? {
            ReleaseInputsAfterError(platform, needsReleaseOnClose);
            return Err(accepted.error);
          }
          match IntoCommand(payload) {
            case Err(cause) =>
              ReleaseInputsAfterError(platform, needsReleaseOnClose);
              return Err(BadPayload(cause));
            case Ok(command) =>
              var outcome := ExecuteCommand(platform, command);
              if outcome.Err? {
                ReleaseInputsAfterError(platform, needsReleaseOnClose);
                return Err(outcome.error);
              }
              match command {
                case StartSession(_, _) => needsReleaseOnClose := true;
                case Forward(_) => needsReleaseOnClose := true;
                case ReleaseAll => needsReleaseOnClose := false;
                case StopSession(_) =>
              }
              outcomes := outcomes + [outcome.value];
          }
        case Received(HeartbeatFrame(number)) =>
          var accepted := sequence.AcceptNumber(number);
          if accepted.Err? {
            ReleaseInputsAfterError(platform, needsReleaseOnClose);
            return Err(accepted.error);
          }
        case Received(_) =>
          ReleaseInputsAfterError(platform, needsReleaseOnClose);
          return Err(OutOfPlace);
        case Broken =>
          ReleaseInputsAfterError(platform, needsReleaseOnClose);
          return Err(ReadFailed);
      }
      i := i + 1;
    }
    if needsReleaseOnClose {
      var ok := platform.ReleaseAll();
      if !ok {
        return Err(ReleaseFailed);
      }
      outcomes := outcomes + [InputsReleased];
    }
    result := Ok(outcomes);
  }
}
