// The frames of a persistent peer session (crates/akraz-daemon/src/lib.rs,
// crates/akraz-protocol/src/lib.rs).
module Frames {
  import opened Wrappers
  import opened Ints
  import opened Capabilities
  import opened Transcript
  import opened WireCommands

  // An ideal signature: it names the key that made it and the bytes it covers.
  type PublicKey = seq<byte>

  datatype Signature = Signature(signer: PublicKey, message: seq<byte>)

  datatype AuthProof = AuthProof(deviceId: string, role: PeerRole, signature: Signature)

  datatype SessionReady = SessionReady(sessionId: string, sequenceBase: u64, capabilities: CapabilityFlags)

  datatype Hello = Hello(
    protocol: ProtocolVersion, deviceId: string, peerId: string, nonce: Option<Block>, capabilities: CapabilityFlags)

  datatype Frame =
    | IdentityProbeFrame(probeProtocol: ProtocolVersion)
    | IdentityDocumentFrame(documentProtocol: ProtocolVersion, document: string, build: string)
    | HelloFrame(hello: Hello)
    | AuthProofFrame(proof: AuthProof)
    | SessionReadyFrame(ready: SessionReady)
    | CommandFrame(sequence: u64, payload: CommandPayload)
    | HeartbeatFrame(beat: u64)

  // One attempt to read a line: a decoded frame, or a read, timeout or decoding failure. The end of
  // a sequence of these is the end of the stream.
  datatype Incoming = Received(frame: Frame) | Broken
}
