// The sending side of a peer session: command dispatchers and the heartbeat thread number their
// frames from one counter under one lock (crates/akraz-daemon/src/lib.rs).
module PeerSender {
  import opened Wrappers
  import opened Ints
  import opened WireCommands
  import opened Frames
  import opened PeerReceiver
  import opened ReceiverGuarantees

  // What becomes of one write: the frame and its newline are written; nothing is; a line that the
  // receiver cannot decode is; or the frame is written whole and only its newline is not. All but the
  // first are errors for the writer.
  datatype Write = Delivered | Lost | Torn | Unended

  // What a write leaves on the wire.
  datatype Line = Whole(frame: Frame) | Garbled | Tail(frame: Frame)

  function LinesOf(frame: Frame, write: Write): seq<Line> {
    match write
    case Delivered => [Whole(frame)]
    case Lost => []
    case Torn => [Garbled]
    case Unended => [Tail(frame)]
  }

  // One use of the lock. A list of these is an interleaving of the heartbeat thread with any number
  // of dispatchers.
  datatype SendStep = Beat(write: Write) | Send(command: Command, write: Write)

  function FrameOf(number: u64, step: SendStep): Frame {
    match step
    case Beat(_) => HeartbeatFrame(number)
    case Send(command, _) => CommandFrame(number, ToPayload(command))
  }

  // The counter after one step, what the step puts on the wire, and whether it succeeded. A number
  // is used up even if the write fails; the last u64 is never handed out.
  function SendOne(next: u64, step: SendStep): (u64, seq<Line>, bool) {
    if next == U64_MAX then (next, [], false)
    else (next + 1, LinesOf(FrameOf(next, step), step.write), step.write.Delivered?)
  }

  function SendAll(next: u64, steps: seq<SendStep>): seq<Line>
    decreases |steps|
  {
    if steps == [] then []
    else SendOne(next, steps[0]).1 + SendAll(SendOne(next, steps[0]).0, steps[1..])
  }

  // Bytes without a newline wait for the rest of their line: `tail` is what they read as if nothing
  // follows. The tail after one more line, and what can be read by then.
  function Transmit(tail: Option<Incoming>, line: Line): (Option<Incoming>, seq<Incoming>) {
    match line
    case Whole(frame) => (None, [if tail.None? then Received(frame) else Broken])
    case Garbled => (None, [Broken])
    case Tail(frame) => (Some(if tail.None? then Received(frame) else Broken), [])
  }

  function AtEnd(tail: Option<Incoming>): seq<Incoming> { match tail case None => [] case Some(last) => [last] }

  // What is read from a stream that carries the lines in order and then ends.
  function ReadToEnd(tail: Option<Incoming>, lines: seq<Line>): seq<Incoming>
    decreases |lines|
  {
    if lines == [] then AtEnd(tail)
    else Transmit(tail, lines[0]).1 + ReadToEnd(Transmit(tail, lines[0]).0, lines[1..])
  }

  class SessionStream {
    var nextSequence: u64
    var wire: seq<Line>

    constructor ()
      ensures nextSequence == 0 && wire == []
    {
      nextSequence, wire := 0, [];
    }

    method NextSequence() returns (r: Option<u64>)
      modifies this`nextSequence
      ensures old(nextSequence) == U64_MAX ==> r == None && nextSequence == U64_MAX
      ensures old(nextSequence) < U64_MAX ==> r == Some(old(nextSequence)) && nextSequence == old(nextSequence) + 1
    {
      var sequence := nextSequence;
      if nextSequence == U64_MAX {
        return None;
      }
      nextSequence := nextSequence + 1;
      r := Some(sequence);
    }

    method WriteFrame(frame: Frame, write: Write) returns (ok: bool)
      modifies this`wire
      ensures ok == write.Delivered?
      ensures wire == old(wire) + LinesOf(frame, write)
    {
      match write {
        case Delivered => wire := wire + [Whole(frame)];
        case Lost =>
        case Torn => wire := wire + [Garbled];
        case Unended => wire := wire + [Tail(frame)];
      }
      ok := write.Delivered?;
    }

    method WriteCommandFrame(command: Command, write: Write) returns (ok: bool)
      modifies this
      ensures (nextSequence, wire, ok) ==
        var sent := SendOne(old(nextSequence), Send(command, write)); (sent.0, old(wire) + sent.1, sent.2)
    {
      var sequence := NextSequence();
      if sequence.None? {
        assert old(wire) + [] == wire;
        return false;
      }
      ok := WriteFrame(CommandFrame(sequence.value, ToPayload(command)), write);
    }

    method WriteHeartbeatFrame(write: Write) returns (ok: bool)
      modifies this
      ensures (nextSequence, wire, ok) ==
        var sent := SendOne(old(nextSequence), Beat(write)); (sent.0, old(wire) + sent.1, sent.2)
    {
      var sequence := NextSequence();
      if sequence.None? {
        assert old(wire) + [] == wire;
        return false;
      }
      ok := WriteFrame(HeartbeatFrame(sequence.value), write);
    }
  }

  // The commands of an interleaving, in lock order.
  function CommandsSent(steps: seq<SendStep>): seq<Command> {
    if steps == [] then [] else (if steps[0].Send? then [steps[0].command] else []) + CommandsSent(steps[1..])
  }

  // ---- Any channel -----------------------------------------------------------------------------

  // A frame on the wire carries the number of the step that wrote it; it is a whole line exactly if
  // that write succeeded.
  lemma {:induction false} WireFramesAreNumberedSteps(next: u64, steps: seq<SendStep>, line: Line) returns (i: nat)
    requires line in SendAll(next, steps) && !line.Garbled?
    ensures i < |steps| && next + i < U64_MAX && line.frame == FrameOf(next + i, steps[i])
    ensures steps[i].write == if line.Whole? then Delivered else Unended
    decreases |steps|
  {
    if line in SendOne(next, steps[0]).1 {
      i := 0;
    } else {
      assert line in SendAll(SendOne(next, steps[0]).0, steps[1..]);
      if next == U64_MAX {
        NothingAfterTheLastNumber(steps[1..]);
        assert false;
      } else {
        var rest := WireFramesAreNumberedSteps(next + 1, steps[1..], line);
        i := rest + 1;
      }
    }
  }

  lemma {:induction false} NothingAfterTheLastNumber(steps: seq<SendStep>)
    ensures SendAll(U64_MAX, steps) == []
  {
    if steps == [] {
    } else {
      NothingAfterTheLastNumber(steps[1..]);
    }
  }

  // Any channel may drop, repeat and reorder whole frames and tear lines, but not invent frames. A
  // frame without its newline is read as a frame only at the end of the stream.
  predicate Carries(lines: seq<Line>, stream: seq<Incoming>) {
    forall i :: 0 <= i < |stream| && stream[i].Received? ==>
      Whole(stream[i].frame) in lines || (i == |stream| - 1 && Tail(stream[i].frame) in lines)
  }

  // A stream that carries the lines in order is such a channel.
  lemma {:induction false} StreamsCarry(lines: seq<Line>)
    ensures Carries(lines, ReadToEnd(None, lines))
  {
    assert ReadToEnd(None, lines) == ReadToEnd(None, lines[0..]);
    StreamCarriesFrom(lines, 0, None);
  }

  lemma {:induction false} StreamCarriesFrom(lines: seq<Line>, from: nat, tail: Option<Incoming>)
    requires from <= |lines|
    requires tail.Some? && tail.value.Received? ==> Tail(tail.value.frame) in lines
    ensures Carries(lines, ReadToEnd(tail, lines[from..]))
    decreases |lines| - from
  {
    if from == |lines| {
    } else {
      var (tail', read) := Transmit(tail, lines[from]);
      assert lines[from..][0] == lines[from] && lines[from..][1..] == lines[from + 1..];
      StreamCarriesFrom(lines, from + 1, tail');
      var rest := ReadToEnd(tail', lines[from + 1..]);
      var all := read + rest;
      forall i | 0 <= i < |all| && all[i].Received?
        ensures Whole(all[i].frame) in lines || (i == |all| - 1 && Tail(all[i].frame) in lines)
      {
        if i >= |read| {
          assert all[i] == rest[i - |read|];
        }
      }
    }
  }

  // What a line reads as once it ends: its frame, unless it is garbled or is glued to a frame before
  // it whose newline is missing.
  function ReadingAt(lines: seq<Line>, i: nat): Incoming
    requires i < |lines|
  {
    if lines[i].Garbled? || (i > 0 && lines[i - 1].Tail?) then Broken else Received(lines[i].frame)
  }

  // One item for each line with a newline, and one for what is left at the end of the stream.
  function ReadingsFrom(lines: seq<Line>, i: nat): seq<Incoming>
    requires i <= |lines|
    decreases |lines| - i
  {
    if i == |lines| then []
    else (if lines[i].Tail? && i < |lines| - 1 then [] else [ReadingAt(lines, i)]) + ReadingsFrom(lines, i + 1)
  }

  lemma {:induction false} StreamsReadExactly(lines: seq<Line>)
    ensures ReadToEnd(None, lines) == ReadingsFrom(lines, 0)
  {
    assert lines[0..] == lines;
    ReadsFrom(lines, 0, None);
  }

  lemma {:induction false} ReadsFrom(lines: seq<Line>, i: nat, tail: Option<Incoming>)
    requires i <= |lines|
    requires tail == if i > 0 && lines[i - 1].Tail? then Some(ReadingAt(lines, i - 1)) else None
    ensures ReadToEnd(tail, lines[i..])
         == (if i == |lines| then AtEnd(tail) else ReadingsFrom(lines, i))
    decreases |lines| - i
  {
    if i == |lines| {
    } else {
      assert lines[i..][0] == lines[i] && lines[i..][1..] == lines[i + 1..];
      ReadsFrom(lines, i + 1, Transmit(tail, lines[i]).0);
    }
  }

  // What a write leaves for the reader: read as it is if the stream then ends, and before the line of
  // another frame.
  lemma {:induction false} WhatAWriteLeaves(frame: Frame, write: Write, next: Frame)
    ensures ReadToEnd(None, LinesOf(frame, write)) ==
      match write
      case Delivered => [Received(frame)]
      case Lost => []
      case Torn => [Broken]
      case Unended => [Received(frame)]
    ensures ReadToEnd(None, LinesOf(frame, write) + LinesOf(next, Delivered)) ==
      match write
      case Delivered => [Received(frame), Received(next)]
      case Lost => [Received(next)]
      case Torn => [Broken, Received(next)]
      case Unended => [Broken]
  {
    var one, two := LinesOf(frame, write), LinesOf(frame, write) + LinesOf(next, Delivered);
    StreamsReadExactly(one);
    StreamsReadExactly(two);
    if !write.Lost? {
      assert ReadingsFrom(one, 1) == [] && ReadingsFrom(two, 2) == [];
      assert ReadingsFrom(two, 1) == [ReadingAt(two, 1)] + ReadingsFrom(two, 2);
    } else {
      assert two == [Whole(next)] && ReadingsFrom(two, 1) == [];
    }
  }

  // Whatever the channel does, the receiver executes the commands of the first k uses of the lock,
  // in order, and nothing else: the platform calls are those of these commands, and a session that
  // ends at the next item adds its failed call, if it made one, and a release if these commands owe
  // one. All k writes succeeded, except that the last may have been reported as failed after its frame
  // was written; so a number consumed by a failed write blocks everything after it.
  lemma {:induction false} ExecutedCommandsAreAPrefix(
    steps: seq<SendStep>, stream: seq<Incoming>, ops: seq<PlatformOp>, oracle: Oracle)
    returns (k: nat)
    requires Carries(SendAll(0, steps), stream)
    ensures k <= |steps| && k <= U64_MAX
    ensures forall i :: 0 <= i < k ==>
      steps[i].write.Delivered? || (i == k - 1 && steps[i].write.Unended? && k == |stream|)
    ensures var p, commands := ReceiveAll(Opened(ops), stream, oracle), CommandsSent(steps[..k]);
      && Recorded(p).outcomes == Outcomes(commands) && k <= |stream|
      && (if k == |stream| then p.Running? && p.receiver.ops == ops + Calls(commands)
          else EndedAt(ops + Calls(commands), Owes(false, commands), stream[k], k, p, oracle))
  {
    k := ExecutesAnInOrderPrefix(Opened(ops).receiver, stream, oracle);
    var accepted := stream[..k];
    forall i | 0 <= i < k
      ensures i < |steps| && i < U64_MAX && accepted[i] == Received(FrameOf(i, steps[i]))
      ensures steps[i].write.Delivered? || (i == |stream| - 1 && steps[i].write.Unended?)
    {
      assert accepted[i] == stream[i];
      var frame := stream[i].frame;
      var line := if Whole(frame) in SendAll(0, steps) then Whole(frame) else Tail(frame);
      var j := WireFramesAreNumberedSteps(0, steps, line);
      assert Number(frame) == i && Number(frame) == j;
    }
    if k > 0 {
      var last := accepted[k - 1];
      assert k - 1 < |steps|;
    }
    FramesCarryTheCommands(accepted, steps[..k], 0);
    assert [] + Outcomes(Commands(accepted)) == Outcomes(Commands(accepted));
  }

  // The exception occurs: a single command whose newline could not be written is executed when the
  // stream then ends.
  lemma {:induction false} FailedWriteMayBeExecuted(command: Command, ops: seq<PlatformOp>, oracle: Oracle)
    requires Perform(ops, command, oracle).1
    ensures var steps := [Send(command, Unended)];
      var stream := ReadToEnd(None, SendAll(0, steps));
      !SendOne(0, steps[0]).2
      && Recorded(ReceiveAll(Opened(ops), stream, oracle)).outcomes == Outcomes([command])
  {
    var steps := [Send(command, Unended)];
    var frame := CommandFrame(0, ToPayload(command));
    assert SendAll(0, steps) == [Tail(frame)];
    assert ReadToEnd(None, [Tail(frame)]) == [Received(frame)];
    CommandRoundTrip(command);
    var r := Opened(ops).receiver;
    var p := Receive(r, Received(frame), oracle);
    assert ReceiveAll(Running(r), [Received(frame)], oracle) == ReceiveAll(p, [], oracle) == p;
    assert p.Running? && p.receiver.outcomes == [OutcomeOf(command)];
  }

  lemma {:induction false} FramesCarryTheCommands(frames: seq<Incoming>, steps: seq<SendStep>, from: nat)
    requires |frames| == |steps| && from + |steps| <= U64_MAX
    requires forall i :: 0 <= i < |steps| ==> frames[i] == Received(FrameOf(from + i, steps[i]))
    ensures Commands(frames) == CommandsSent(steps)
    decreases |steps|
  {
    if steps == [] {
    } else {
      forall i | 0 <= i < |steps[1..]| ensures frames[1..][i] == Received(FrameOf(from + 1 + i, steps[1..][i])) {
        assert frames[i + 1] == Received(FrameOf(from + (i + 1), steps[i + 1]));
      }
      FramesCarryTheCommands(frames[1..], steps[1..], from + 1);
      if steps[0].Send? {
        CommandRoundTrip(steps[0].command);
      }
    }
  }

  // ---- A faithful channel ----------------------------------------------------------------------

  // With every write delivered, what is read is the numbered frames of the steps.
  lemma {:induction false} DeliveredWire(next: u64, steps: seq<SendStep>)
    requires next + |steps| <= U64_MAX
    requires forall i :: 0 <= i < |steps| ==> steps[i].write.Delivered?
    ensures var read := ReadToEnd(None, SendAll(next, steps));
      |read| == |steps| && forall i :: 0 <= i < |steps| ==> read[i] == Received(FrameOf(next + i, steps[i]))
    decreases |steps|
  {
    if steps == [] {
    } else {
      var lines := SendAll(next, steps);
      assert lines[0] == Whole(FrameOf(next, steps[0])) && lines[1..] == SendAll(next + 1, steps[1..]);
      DeliveredWire(next + 1, steps[1..]);
      var rest := ReadToEnd(None, lines[1..]);
      var read := [Received(FrameOf(next, steps[0]))] + rest;
      assert ReadToEnd(None, lines) == read;
      forall i | 0 < i < |steps| ensures read[i] == Received(FrameOf(next + i, steps[i])) {
        assert rest[i - 1] == Received(FrameOf(next + 1 + (i - 1), steps[1..][i - 1]));
      }
    }
  }

  // If no write fails, the channel is faithful and the platform never fails, then every command is
  // executed and the session ends well. Sender and receiver agree on the last usable number.
  lemma {:induction false} FaithfulSessionsExecuteEverything(
    steps: seq<SendStep>, ops: seq<PlatformOp>, oracle: Oracle)
    requires |steps| <= U64_MAX
    requires forall i :: 0 <= i < |steps| ==> steps[i].write.Delivered?
    requires forall n :: oracle.injectOk(n)
    requires forall n :: oracle.releaseOk(n)
    ensures ReceiveAll(Opened(ops), ReadToEnd(None, SendAll(0, steps)), oracle).Running?
    ensures ReceiveAll(Opened(ops), ReadToEnd(None, SendAll(0, steps)), oracle).receiver.outcomes
         == Outcomes(CommandsSent(steps))
  {
    var read := ReadToEnd(None, SendAll(0, steps));
    DeliveredWire(0, steps);
    NumberedFramesAreInOrder(read, steps, 0);
    FramesCarryTheCommands(read, steps, 0);
    InOrderSessionsExecuteEverything(Opened(ops).receiver, read, oracle);
    assert [] + Outcomes(Commands(read)) == Outcomes(Commands(read));
  }

  lemma {:induction false} NumberedFramesAreInOrder(frames: seq<Incoming>, steps: seq<SendStep>, from: nat)
    requires |frames| == |steps| && from + |steps| <= U64_MAX
    requires forall i :: 0 <= i < |steps| ==> frames[i] == Received(FrameOf(from + i, steps[i]))
    ensures InOrder(frames, from)
  {
    forall i | 0 <= i < |frames| && steps[i].Send? ensures IntoCommand(ToPayload(steps[i].command)).Ok? {
      CommandRoundTrip(steps[i].command);
    }
  }

  lemma {:induction false} InOrderSessionsExecuteEverything(r: Receiver, stream: seq<Incoming>, oracle: Oracle)
    requires InOrder(stream, r.expected)
    requires forall n :: oracle.injectOk(n)
    requires forall n :: oracle.releaseOk(n)
    ensures ReceiveAll(Running(r), stream, oracle).Running?
    ensures ReceiveAll(Running(r), stream, oracle).receiver.outcomes == r.outcomes + Outcomes(Commands(stream))
  {
    InOrderSessionsEndWell(r, stream, oracle);
    var k := ExecutesAnInOrderPrefix(r, stream, oracle);
    assert stream[..|stream|] == stream;
  }
}
