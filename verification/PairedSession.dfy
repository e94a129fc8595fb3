// From pairing to a session: what two devices that trust each other can do
// (crates/akraz-daemon/src/lib.rs, crates/akraz-identity/src/lib.rs).
module PairedSession {
  import opened Wrappers
  import opened Ints
  import opened Capabilities
  import opened IdentityStore
  import opened Transcript
  import opened Frames
  import Handshake
  import Pairing
  import Text

  // A stored peer as the handshake sees it.
  function ToTrusted(p: TrustedPeerIdentity): Handshake.TrustedPeer {
    Handshake.TrustedPeer(p.peerId, p.publicKey, p.capabilities)
  }

  // A trusted peer loaded from the store.
  function Load(lib: Library, file: Option<StoredFile>, id: string): Option<Handshake.TrustedPeer> {
    var stored :- file;
    var entry :- Lookup(stored.trusted, id);
    match IntoTrustedPeer(lib, entry)
    case Ok(peer) => Some(ToTrusted(peer))
    case Err(_) => None
  }

  function LocalOf(d: DeviceIdentity): Handshake.LocalIdentity { Handshake.LocalIdentity(d.deviceId, d.publicKey) }

  // A device starts a pairing from a document and accepts it with the code that it shows.
  function Paired(lib: Library, generated: DeviceIdentity, s: Pairing.PairingState, document: string)
    : Pairing.PairingState
  {
    var (started, result) := Pairing.StartStep(lib, generated, s, document);
    match result
    case Err(_) => started
    case Ok(pairing) => Pairing.AcceptStep(lib, generated, started, pairing.peer.peerId, pairing.code).0
  }

  // The document a device exports, as text.
  predicate Exports(lib: Library, document: string, d: DeviceIdentity, capabilities: u32) {
    && Text.Trim(document) != ""
    && lib.parseDocument(Text.Trim(document)) == Some(DocumentOf(lib, d, capabilities))
  }

  // After pairing with the document of another genuine device, the store loads that device, with the
  // capabilities its document exported.
  lemma {:induction false} PairingStoresThePeer(
    lib: Library, generated: DeviceIdentity, s: Pairing.PairingState, document: string, peer: DeviceIdentity,
    capabilities: u32)
    requires Exports(lib, document, peer, capabilities)
    requires Genuine(lib, peer) && KeyRoundTrips(lib, peer.publicKey)
    requires Opened(s.file, generated).local.deviceId != peer.deviceId
    ensures Load(lib, Paired(lib, generated, s, document).file, peer.deviceId)
         == Some(Handshake.TrustedPeer(peer.deviceId, peer.publicKey, FromWireBits(capabilities)))
  {
    OwnDocumentReadsBackExactly(lib, peer, capabilities);
    var stored := PeerOfDevice(peer, capabilities);
    assert Pairing.PeerOf(lib, Opened(s.file, generated).local, Text.Trim(document)) == Ok(stored);
    var (started, result) := Pairing.StartStep(lib, generated, s, document);
    assert result.Ok? && result.value.peer == stored;
    Pairing.StartThenAcceptTrustsThePeer(lib, generated, s, document);
    var after := Paired(lib, generated, s, document);
    MapIsLookup(after.file.value.trusted, peer.deviceId);
    assert Lookup(after.file.value.trusted, peer.deviceId) == Some(FromIdentity(lib, stored));
  }

  // Two genuine devices that have paired with each other's documents open a session, whichever of
  // them connects, exactly when the document of the one that is connected to exported the
  // capabilities of the listener.
  lemma {:induction false} PairedDevicesOpenSessionsExactly(
    lib: Library, a: DeviceIdentity, b: DeviceIdentity, sA: Pairing.PairingState, sB: Pairing.PairingState,
    fromA: string, fromB: string, capsA: u32, capsB: u32, nonce: Block, rest: seq<Incoming>)
    requires Genuine(lib, a) && Genuine(lib, b) && a.deviceId != b.deviceId
    requires KeyRoundTrips(lib, a.publicKey) && KeyRoundTrips(lib, b.publicKey)
    requires Opened(sA.file, a).local == a && Opened(sB.file, b).local == b
    requires Exports(lib, fromA, a, capsA) && Exports(lib, fromB, b, capsB)
    ensures var stored := Load(lib, Paired(lib, a, sA, fromB).file, b.deviceId);
      var lookup := (id: string) => Load(lib, Paired(lib, b, sB, fromA).file, id);
      && stored.Some?
      && var frames := Handshake.InitiatorFrames(LocalOf(a), stored.value, b.deviceId, nonce);
         && (frames.Some? <==> FieldFits(a.deviceId) && FieldFits(b.deviceId))
         && (frames.Some? ==>
               var stream := Handshake.Arrive(frames.value) + rest;
               Handshake.OpensPairedSession(b.deviceId, lookup, stream)
               <==> FromWireBits(capsB) == PEER_SESSION_CAPABILITIES)
  {
    PairingStoresThePeer(lib, a, sA, fromB, b, capsB);
    PairingStoresThePeer(lib, b, sB, fromA, a, capsA);
    var stored := Load(lib, Paired(lib, a, sA, fromB).file, b.deviceId).value;
    var lookup := (id: string) => Load(lib, Paired(lib, b, sB, fromA).file, id);
    if Handshake.InitiatorFrames(LocalOf(a), stored, b.deviceId, nonce).Some? {
      Handshake.HonestProofAcceptedExactly(LocalOf(a), stored, nonce, b.deviceId, lookup, rest);
    }
  }
}
