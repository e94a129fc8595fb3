// The authenticated prelude of a paired peer session: Hello, AuthProof, SessionReady
// (crates/akraz-daemon/src/lib.rs, crates/akraz-protocol/src/lib.rs). Signatures are ideal.
module Handshake {
  import opened Wrappers
  import opened Ints
  import opened Capabilities
  import opened Transcript
  import opened Frames
  import opened PeerReceiver
  import Utf8

  datatype LocalIdentity = LocalIdentity(deviceId: string, key: PublicKey)

  datatype TrustedPeer = TrustedPeer(peerId: string, key: PublicKey, capabilities: CapabilityFlags)

  function ZeroBlock(): Block { seq(32, _ => 0) }

  // Before TLS is in place, the remote nonce and the channel binding are fixed zeros.
  function PreTlsTranscript(localId: string, remoteId: string, nonce: Block,
                            localCapabilities: CapabilityFlags, remoteCapabilities: CapabilityFlags): AuthTranscript {
    AuthTranscript(localId, remoteId, nonce, ZeroBlock(), CURRENT_VERSION, localCapabilities, remoteCapabilities,
                   Initiator, ZeroBlock())
  }

  function Sign(key: PublicKey, deviceId: string, role: PeerRole, t: AuthTranscript): Option<AuthProof> {
    if Encodable(t) then Some(AuthProof(deviceId, role, Signature(key, Canonical(t)))) else None
  }

  predicate Verifies(peer: TrustedPeer, role: PeerRole, t: AuthTranscript, proof: AuthProof) {
    && proof.deviceId == peer.peerId
    && proof.role == role
    && t.role == role
    && Encodable(t)
    && proof.signature == Signature(peer.key, Canonical(t))
  }

  // The three frames a connecting device sends before any command, or none if the stored peer is
  // not the requested one or an id is too long to sign.
  function InitiatorFrames(local: LocalIdentity, stored: TrustedPeer, requested: string, nonce: Block)
    : Option<seq<Frame>>
  {
    if stored.peerId != requested then None
    else
      var t := PreTlsTranscript(local.deviceId, stored.peerId, nonce, PEER_SESSION_CAPABILITIES, stored.capabilities);
      var proof :- Sign(local.key, local.deviceId, Initiator, t);
      Some([
        HelloFrame(Hello(CURRENT_VERSION, local.deviceId, requested, Some(nonce), PEER_SESSION_CAPABILITIES)),
        AuthProofFrame(proof),
        SessionReadyFrame(SessionReady(
          local.deviceId + "->" + stored.peerId, 0, SharedWithPeerSession(stored.capabilities)))])
  }

  // An initiator starts exactly if it has the requested peer stored and both ids can be signed. Its last
  // frame names both devices and announces the capabilities that both sides have.
  lemma {:induction false} InitiatorStartsExactly(
    local: LocalIdentity, stored: TrustedPeer, requested: string, nonce: Block, c: Capability)
    ensures var frames := InitiatorFrames(local, stored, requested, nonce);
      && (frames.Some? <==>
            && stored.peerId == requested
            && |Utf8.Encode(local.deviceId)| <= 65535 && |Utf8.Encode(requested)| <= 65535)
      && (frames.Some? ==>
            && |frames.value| == 3 && frames.value[2].SessionReadyFrame?
            && var ready := frames.value[2].ready;
               && ready.sessionId == local.deviceId + "->" + requested && ready.sequenceBase == 0
               && (Has(ready.capabilities, c) <==> (c.Pointer? || c.Keyboard?) && Has(stored.capabilities, c)))
  {
    SharedFlagsAreCommon(stored.capabilities, c);
  }

  // The transcript a receiver builds from a hello.
  function ReceiverTranscript(receiverId: string, hello: Hello): AuthTranscript
    requires hello.nonce.Some?
  {
    PreTlsTranscript(hello.deviceId, receiverId, hello.nonce.value, hello.capabilities, PEER_SESSION_CAPABILITIES)
  }

  type TrustLookup = string -> Option<TrustedPeer>

  // A compatible Hello with a nonce from a trusted device, that device's proof over the receiver's
  // transcript, and a SessionReady with base 0.
  predicate OpensPairedSession(receiverId: string, lookup: TrustLookup, stream: seq<Incoming>) {
    && |stream| >= 3
    && stream[0].Received? && stream[0].frame.HelloFrame?
    && var hello := stream[0].frame.hello;
    && hello.protocol.major == CURRENT_VERSION.major
    && lookup(hello.deviceId).Some?
    && hello.nonce.Some?
    && stream[1].Received? && stream[1].frame.AuthProofFrame?
    && Verifies(lookup(hello.deviceId).value, Initiator, ReceiverTranscript(receiverId, hello), stream[1].frame.proof)
    && stream[2].Received? && stream[2].frame.SessionReadyFrame?
    && stream[2].frame.ready.sequenceBase == 0
  }

  datatype PreludeError =
    | Unreadable | ExpectedHello | UnsupportedProtocol | UnknownPeer | MissingNonce
    | ExpectedAuthProof | ProofRejected | ExpectedSessionReady | UnsupportedSequenceBase
    | SessionFailed(cause: SessionError)

  method ReadFrame(stream: seq<Incoming>, i: nat) returns (frame: Result<Frame, PreludeError>)
    ensures frame == match FrameAt(stream, i) case Some(f) => Ok(f) case None => Err(Unreadable)
  {
    if i < |stream| {
      match stream[i] {
        case Received(f) => return Ok(f);
        case Broken =>
      }
    }
    frame := Err(Unreadable);
  }

  function FrameAt(stream: seq<Incoming>, i: nat): Option<Frame> {
    if i < |stream| && stream[i].Received? then Some(stream[i].frame) else None
  }

  // The first check that a stream fails, in the order in which the frames are read.
  function PreludeFault(receiverId: string, lookup: TrustLookup, stream: seq<Incoming>): Option<PreludeError> {
    match FrameAt(stream, 0)
    case None => Some(Unreadable)
    case Some(HelloFrame(hello)) =>
      if hello.protocol.major != CURRENT_VERSION.major then Some(UnsupportedProtocol)
      else if lookup(hello.deviceId).None? then Some(UnknownPeer)
      else if hello.nonce.None? then Some(MissingNonce)
      else ProofFault(lookup(hello.deviceId).value, ReceiverTranscript(receiverId, hello), stream)
    case Some(_) => Some(ExpectedHello)
  }

  function ProofFault(peer: TrustedPeer, t: AuthTranscript, stream: seq<Incoming>): Option<PreludeError> {
    match FrameAt(stream, 1)
    case None => Some(Unreadable)
    case Some(AuthProofFrame(proof)) =>
      if !Verifies(peer, Initiator, t, proof) then Some(ProofRejected)
      else (
        match FrameAt(stream, 2)
        case None => Some(Unreadable)
        case Some(SessionReadyFrame(ready)) =>
          if ready.sequenceBase != 0 then Some(UnsupportedSequenceBase) else None
        case Some(_) => Some(ExpectedSessionReady))
    case Some(_) => Some(ExpectedAuthProof)
  }

  // No platform call is made before a proper prelude, and after one the session is executed; any
  // other stream fails at its first fault and leaves the platform alone.
  method ExecutePairedSession(stream: seq<Incoming>, platform: Platform, receiverId: string, lookup: TrustLookup)
    returns (result: Result<seq<Outcome>, PreludeError>)
    modifies platform
    ensures OpensPairedSession(receiverId, lookup, stream) <==> PreludeFault(receiverId, lookup, stream).None?
    ensures !OpensPairedSession(receiverId, lookup, stream) ==>
      result == Err(PreludeFault(receiverId, lookup, stream).value) && platform.ops == old(platform.ops)
    ensures OpensPairedSession(receiverId, lookup, stream) ==>
      var (ops, served) := Serve(old(platform.ops), stream[3..], platform.oracle);
      && platform.ops == ops
      && result == match served case Ok(outcomes) => Ok(outcomes) case Err(cause) => Err(SessionFailed(cause))
  {
    var first :- ReadFrame(stream, 0);
    if !first.HelloFrame? {
      return Err(ExpectedHello);
    }

    var hello := first.hello;
    if hello.protocol.major != CURRENT_VERSION.major {
      return Err(UnsupportedProtocol);
    }

    var trusted := lookup(hello.deviceId);
    if trusted.None? {
      return Err(UnknownPeer);
    }
    if hello.nonce.None? {
      return Err(MissingNonce);
    }

    var transcript := ReceiverTranscript(receiverId, hello);
    var second :- ReadFrame(stream, 1);
    if !second.AuthProofFrame? {
      return Err(ExpectedAuthProof);
    }
    if !Verifies(trusted.value, Initiator, transcript, second.proof) {
      return Err(ProofRejected);
    }

    var third :- ReadFrame(stream, 2);
    if !third.SessionReadyFrame? {
      return Err(ExpectedSessionReady);
    }
    if third.ready.sequenceBase != 0 {
      return Err(UnsupportedSequenceBase);
    }

    var served := ExecuteFramesUntilClosed(stream[3..], platform);
    match served {
      case Ok(outcomes) => result := Ok(outcomes);
      case Err(cause) => result := Err(SessionFailed(cause));
    }
  }

  function Arrive(frames: seq<Frame>): seq<Incoming> {
    seq(|frames|, i requires 0 <= i < |frames| => Received(frames[i]))
  }

  // ---- Who opens a session ---------------------------------------------------------------------

  // What an initiator is free to choose.
  datatype Choices = Choices(
    minor: u16, requested: string, nonce: Block, capabilities: CapabilityFlags,
    sessionId: string, announced: CapabilityFlags)

  // What the proof of a device covers, field by field: both ids, the nonce of the device and a zero
  // one, the version of the receiver, the capabilities of the device and those of the listener, the
  // role, and a zero channel binding.
  function Covered(deviceId: string, receiverId: string, nonce: Block, capabilities: CapabilityFlags): AuthTranscript {
    var zeros: Block := seq(32, _ => 0);
    AuthTranscript(deviceId, receiverId, nonce, zeros, ProtocolVersion(1, 5), capabilities, 3, Initiator, zeros)
  }

  // The frames with which a device opens a session at a receiver.
  function Prelude(device: TrustedPeer, receiverId: string, c: Choices): Option<seq<Frame>> {
    var proof :- Sign(device.key, device.peerId, Initiator,
                      Covered(device.peerId, receiverId, c.nonce, c.capabilities));
    Some([
      HelloFrame(Hello(ProtocolVersion(1, c.minor), device.peerId, c.requested, Some(c.nonce), c.capabilities)),
      AuthProofFrame(proof),
      SessionReadyFrame(SessionReady(c.sessionId, 0, c.announced))])
  }

  predicate StartsWithPrelude(stream: seq<Incoming>, device: TrustedPeer, receiverId: string, c: Choices) {
    var frames := Prelude(device, receiverId, c);
    frames.Some? && Arrive(frames.value) <= stream
  }

  // A stream opens a session exactly if it starts with the frames of a device that the receiver
  // trusts, signed with the key that is stored for the device.
  lemma {:induction false} OpenedByTrustedDevicesExactly(
    receiverId: string, lookup: TrustLookup, stream: seq<Incoming>)
    requires forall id :: lookup(id).Some? ==> lookup(id).value.peerId == id
    ensures OpensPairedSession(receiverId, lookup, stream) <==>
      exists device: TrustedPeer, c ::
        lookup(device.peerId) == Some(device) && StartsWithPrelude(stream, device, receiverId, c)
  {
    if OpensPairedSession(receiverId, lookup, stream) {
      var device, c := WhoOpened(receiverId, lookup, stream);
    }
    if device: TrustedPeer, c :|
      lookup(device.peerId) == Some(device) && StartsWithPrelude(stream, device, receiverId, c)
    {
      PreludesOpen(receiverId, lookup, stream, device, c);
    }
  }

  lemma {:induction false} WhoOpened(receiverId: string, lookup: TrustLookup, stream: seq<Incoming>)
    returns (device: TrustedPeer, c: Choices)
    requires forall id :: lookup(id).Some? ==> lookup(id).value.peerId == id
    requires OpensPairedSession(receiverId, lookup, stream)
    ensures lookup(device.peerId) == Some(device) && StartsWithPrelude(stream, device, receiverId, c)
  {
    AcceptedProofIsTheDevicesOwn(receiverId, lookup, stream);
    var hello, ready := stream[0].frame.hello, stream[2].frame.ready;
    device := lookup(hello.deviceId).value;
    c := Choices(hello.protocol.minor, hello.peerId, hello.nonce.value, hello.capabilities,
                 ready.sessionId, ready.capabilities);
    var frames := Prelude(device, receiverId, c).value;
    assert stream[0] == Received(frames[0]) && stream[1] == Received(frames[1]) && stream[2] == Received(frames[2]);
    assert stream[..3] == Arrive(frames);
  }

  lemma {:induction false} PreludesOpen(
    receiverId: string, lookup: TrustLookup, stream: seq<Incoming>, device: TrustedPeer, c: Choices)
    requires lookup(device.peerId) == Some(device) && StartsWithPrelude(stream, device, receiverId, c)
    ensures OpensPairedSession(receiverId, lookup, stream)
  {
    var frames := Prelude(device, receiverId, c).value;
    var arrived := Arrive(frames);
    assert stream[0] == arrived[0] && stream[1] == arrived[1] && stream[2] == arrived[2];
  }

  // The proof of a prelude that opens a session is the one that the trusted device makes for this
  // receiver and these fields; no other proof is accepted.
  lemma {:induction false} AcceptedProofIsTheDevicesOwn(
    receiverId: string, lookup: TrustLookup, stream: seq<Incoming>)
    requires OpensPairedSession(receiverId, lookup, stream)
    ensures var hello, proof := stream[0].frame.hello, stream[1].frame.proof;
      var device := lookup(hello.deviceId).value;
      var covered := Covered(hello.deviceId, receiverId, hello.nonce.value, hello.capabilities);
      && Sign(device.key, device.peerId, Initiator, covered) == Some(proof)
      && Decode(proof.signature.message) == Some((covered, []))
  {
    var hello := stream[0].frame.hello;
    var covered := ReceiverTranscript(receiverId, hello);
    assert covered == Covered(hello.deviceId, receiverId, hello.nonce.value, hello.capabilities);
    DecodeOfCanonical(covered, []);
    assert Canonical(covered) + [] == Canonical(covered);
  }

  // An honest initiator that the receiver trusts opens a session exactly when what it has stored
  // about the receiver is right: the receiver's own id and the listener's own capabilities.
  lemma {:induction false} HonestProofAcceptedExactly(
    local: LocalIdentity, stored: TrustedPeer, nonce: Block, receiverId: string, lookup: TrustLookup,
    rest: seq<Incoming>)
    requires lookup(local.deviceId).Some?
    requires lookup(local.deviceId).value.peerId == local.deviceId && lookup(local.deviceId).value.key == local.key
    requires InitiatorFrames(local, stored, stored.peerId, nonce).Some?
    ensures OpensPairedSession(
        receiverId, lookup, Arrive(InitiatorFrames(local, stored, stored.peerId, nonce).value) + rest)
      <==> stored.peerId == receiverId && stored.capabilities == PEER_SESSION_CAPABILITIES
  {
    var frames := InitiatorFrames(local, stored, stored.peerId, nonce).value;
    var stream := Arrive(frames) + rest;
    assert stream[0] == Received(frames[0]) && stream[1] == Received(frames[1]) && stream[2] == Received(frames[2]);
    var signed :=
      PreTlsTranscript(local.deviceId, stored.peerId, nonce, PEER_SESSION_CAPABILITIES, stored.capabilities);
    var expected := ReceiverTranscript(receiverId, frames[0].hello);
    if Encodable(expected) && Canonical(signed) == Canonical(expected) {
      CanonicalIsPrefixFree(signed, expected);
    }
  }

  // The receiver adds nothing of its own to the transcript, so a recorded prelude opens a session
  // again, whatever frames follow it.
  lemma {:induction false} RecordedPreludeOpensAgain(
    receiverId: string, lookup: TrustLookup, stream: seq<Incoming>, rest: seq<Incoming>)
    ensures OpensPairedSession(receiverId, lookup, stream) ==>
      OpensPairedSession(receiverId, lookup, stream[..3] + rest)
  {
    if OpensPairedSession(receiverId, lookup, stream) {
      var again := stream[..3] + rest;
      assert again[0] == stream[0] && again[1] == stream[1] && again[2] == stream[2];
    }
  }

  // A proof fixes who opens a session with whom: whenever the same signature is accepted, the device,
  // its nonce and capabilities, and the receiver it was meant for are the same.
  lemma {:induction false} ProofBindsTheSession(
    receiver1: string, lookup1: TrustLookup, stream1: seq<Incoming>,
    receiver2: string, lookup2: TrustLookup, stream2: seq<Incoming>)
    requires OpensPairedSession(receiver1, lookup1, stream1) && OpensPairedSession(receiver2, lookup2, stream2)
    requires stream1[1].frame.proof.signature == stream2[1].frame.proof.signature
    ensures receiver1 == receiver2
    ensures var h1, h2 := stream1[0].frame.hello, stream2[0].frame.hello;
      && h1.deviceId == h2.deviceId && h1.nonce == h2.nonce && h1.capabilities == h2.capabilities
      && lookup1(h1.deviceId).value.key == lookup2(h2.deviceId).value.key
  {
    CanonicalIsPrefixFree(
      ReceiverTranscript(receiver1, stream1[0].frame.hello), ReceiverTranscript(receiver2, stream2[0].frame.hello));
  }
}
