// The trust store kept in the identity file, and the public identity documents that peers exchange
// (crates/akraz-identity/src/lib.rs). The file is a field holding the decoded record.
module IdentityStore {
  import opened Wrappers
  import opened Ints
  import opened Capabilities
  import Text

  const DEFAULT_DISPLAY_NAME: string := "Akraz Device"
  const DOCUMENT_KIND: string := "akraz.peerIdentity"
  const DOCUMENT_VERSION: u32 := 1
  const PUBLIC_KEY_LEN := 32

  datatype DeviceIdentity = DeviceIdentity(
    deviceId: string, displayName: string, publicKey: seq<byte>, fingerprint: string)

  datatype TrustedPeerIdentity = TrustedPeerIdentity(
    peerId: string, displayName: string, publicKey: seq<byte>, fingerprint: string, capabilities: CapabilityFlags)

  datatype PairingDocument = PairingDocument(
    kind: string, version: u32, deviceId: string, displayName: string, encodedKey: string, fingerprint: string,
    capabilities: u32)

  datatype StoredTrustedPeer = StoredTrustedPeer(
    peerId: string, displayName: string, encodedKey: string, fingerprint: string, capabilities: CapabilityFlags)

  datatype StoredFile = StoredFile(local: DeviceIdentity, trusted: seq<StoredTrustedPeer>)

  // The library code the store calls: JSON and base64, the fingerprint of a key, whether bytes are
  // an Ed25519 key, and the leading 32 bits of a BLAKE3 digest.
  datatype Library = Library(
    parseDocument: string -> Option<PairingDocument>,
    encodeKey: seq<byte> -> string, decodeKey: string -> Option<seq<byte>>,
    fingerprint: seq<byte> -> string, isKey: seq<byte> -> bool, digest: seq<byte> -> u32)

  // base64 decoding undoes base64 encoding.
  predicate KeyRoundTrips(lib: Library, key: seq<byte>) { lib.decodeKey(lib.encodeKey(key)) == Some(key) }

  function NormalizeDisplayName(name: string): string {
    var trimmed := Text.Trim(name);
    if trimmed == "" then DEFAULT_DISPLAY_NAME else trimmed
  }

  lemma {:induction false} NormalizedNamesAreStable(name: string)
    ensures NormalizeDisplayName(NormalizeDisplayName(name)) == NormalizeDisplayName(name)
    ensures NormalizeDisplayName(name) != ""
  {
    Text.TrimTrims(name);
    Text.TrimOfTrimmed(Text.Trim(name));
    assert DEFAULT_DISPLAY_NAME[0] == 'A' && DEFAULT_DISPLAY_NAME[11] == 'e';
    Text.TrimOfTrimmed(DEFAULT_DISPLAY_NAME);
  }

  predicate IsBlank(s: string) { forall i :: 0 <= i < |s| ==> Text.IsWhitespace(s[i]) }

  // A name keeps everything but the white space around it; one that is nothing else becomes the
  // default.
  lemma {:induction false} NormalizedNamesExactly(name: string) returns (lead: string, trail: string)
    ensures forall i :: 0 <= i < |lead| ==> Text.IsWhitespace(lead[i])
    ensures forall i :: 0 <= i < |trail| ==> Text.IsWhitespace(trail[i])
    ensures
      if IsBlank(name) then NormalizeDisplayName(name) == "Akraz Device"
      else lead + NormalizeDisplayName(name) + trail == name && Text.Trimmed(NormalizeDisplayName(name))
  {
    lead, trail := Text.TrimExactly(name, Text.IsWhitespace);
    var trimmed := Text.Trim(name);
    if trimmed != "" {
      assert name[|lead|] == trimmed[0];
    } else {
      assert lead + trail == name;
    }
  }

  // ---- Documents -------------------------------------------------------------------------------

  datatype DocumentError =
    | InvalidKind
    | UnsupportedVersion(version: u32)
    | EmptyDeviceId
    | InvalidPublicKeyEncoding
    | InvalidPublicKeyLength(length: nat)
    | FingerprintMismatch(expected: string, actual: string)
    | InvalidPublicKey

  function DocumentOf(lib: Library, identity: DeviceIdentity, capabilities: CapabilityFlags): PairingDocument {
    PairingDocument(DOCUMENT_KIND, DOCUMENT_VERSION, identity.deviceId, identity.displayName,
                    lib.encodeKey(identity.publicKey), identity.fingerprint, capabilities)
  }

  function IntoTrusted(lib: Library, d: PairingDocument): Result<TrustedPeerIdentity, DocumentError> {
    if d.kind != DOCUMENT_KIND then Err(InvalidKind)
    else if d.version != DOCUMENT_VERSION then Err(UnsupportedVersion(d.version))
    else
      var deviceId := Text.Trim(d.deviceId);
      if deviceId == "" then Err(EmptyDeviceId)
      else
        match lib.decodeKey(d.encodedKey)
        case None => Err(InvalidPublicKeyEncoding)
        case Some(key) =>
          if |key| != PUBLIC_KEY_LEN then Err(InvalidPublicKeyLength(|key|))
          else if d.fingerprint != lib.fingerprint(key) then
            Err(FingerprintMismatch(lib.fingerprint(key), d.fingerprint))
          else if !lib.isKey(key) then Err(InvalidPublicKey)
          else
            Ok(TrustedPeerIdentity(
              deviceId, NormalizeDisplayName(d.displayName), key, lib.fingerprint(key), FromWireBits(d.capabilities)))
  }

  // What a device knows about itself: a non-empty id without surrounding whitespace, a valid key
  // and the fingerprint of that key.
  predicate Genuine(lib: Library, identity: DeviceIdentity) {
    && identity.deviceId != "" && Text.Trim(identity.deviceId) == identity.deviceId
    && |identity.publicKey| == PUBLIC_KEY_LEN && lib.isKey(identity.publicKey)
    && identity.fingerprint == lib.fingerprint(identity.publicKey)
  }

  function PeerOfDevice(identity: DeviceIdentity, capabilities: CapabilityFlags): TrustedPeerIdentity {
    TrustedPeerIdentity(identity.deviceId, NormalizeDisplayName(identity.displayName), identity.publicKey,
                        identity.fingerprint, FromWireBits(capabilities))
  }

  // The document a genuine device exports is accepted by every other device as that device. One
  // whose id, key or fingerprint is not genuine is refused, or read back under its trimmed id.
  lemma {:induction false} OwnDocumentReadsBackExactly(
    lib: Library, identity: DeviceIdentity, capabilities: CapabilityFlags)
    requires KeyRoundTrips(lib, identity.publicKey)
    ensures IntoTrusted(lib, DocumentOf(lib, identity, capabilities)) == Ok(PeerOfDevice(identity, capabilities))
       <==> Genuine(lib, identity)
  {
  }

  // The document describes the device, up to white space around the id.
  predicate DescribesDevice(lib: Library, d: PairingDocument, device: DeviceIdentity) {
    && d.kind == "akraz.peerIdentity" && d.version == 1
    && Text.Trim(d.deviceId) == device.deviceId && d.displayName == device.displayName
    && lib.decodeKey(d.encodedKey) == Some(device.publicKey) && d.fingerprint == device.fingerprint
  }

  // A document is accepted exactly if it describes a genuine device, and then as that device.
  lemma {:induction false} AcceptedDocumentsExactly(lib: Library, d: PairingDocument)
    ensures IntoTrusted(lib, d).Ok? <==>
      exists device: DeviceIdentity :: Genuine(lib, device) && DescribesDevice(lib, d, device)
    ensures forall device: DeviceIdentity :: Genuine(lib, device) && DescribesDevice(lib, d, device) ==>
      IntoTrusted(lib, d) == Ok(PeerOfDevice(device, d.capabilities))
  {
    if IntoTrusted(lib, d).Ok? {
      var peer := IntoTrusted(lib, d).value;
      Text.TrimTrims(d.deviceId);
      Text.TrimOfTrimmed(Text.Trim(d.deviceId));
      var device := DeviceIdentity(peer.peerId, d.displayName, peer.publicKey, peer.fingerprint);
      assert Genuine(lib, device) && DescribesDevice(lib, d, device);
    }
  }

  // A refusal names something that is wrong with the document, and nothing that is checked before it
  // is wrong.
  lemma {:induction false} DocumentErrorsAreTrue(lib: Library, d: PairingDocument)
    ensures var rightKind := d.kind == "akraz.peerIdentity";
      var named := rightKind && d.version == 1 && !IsBlank(d.deviceId);
      var decoded := lib.decodeKey(d.encodedKey);
      match IntoTrusted(lib, d)
      case Ok(_) => named && decoded.Some?
      case Err(InvalidKind) => !rightKind
      case Err(UnsupportedVersion(version)) => rightKind && d.version == version != 1
      case Err(EmptyDeviceId) => rightKind && d.version == 1 && IsBlank(d.deviceId)
      case Err(InvalidPublicKeyEncoding) => named && decoded == None
      case Err(InvalidPublicKeyLength(length)) => named && decoded.Some? && |decoded.value| == length != 32
      case Err(FingerprintMismatch(expected, actual)) =>
        && named && decoded.Some? && |decoded.value| == 32
        && expected == lib.fingerprint(decoded.value) && actual == d.fingerprint != expected
      case Err(InvalidPublicKey) =>
        && named && decoded.Some? && |decoded.value| == 32
        && d.fingerprint == lib.fingerprint(decoded.value) && !lib.isKey(decoded.value)
  {
    var lead, trail := Text.TrimExactly(d.deviceId, Text.IsWhitespace);
    if Text.Trim(d.deviceId) == "" {
      assert d.deviceId == lead + trail;
    } else {
      assert d.deviceId[|lead|] == Text.Trim(d.deviceId)[0];
    }
  }

  // ---- Stored entries --------------------------------------------------------------------------

  datatype StoreError =
    | MissingIdentityFile
    | TrustedPeerNotFound(peerId: string)
    | CorruptKeyEncoding
    | CorruptFingerprint
    | InvalidTrustedPeerPublicKey(peerId: string)

  function FromIdentity(lib: Library, p: TrustedPeerIdentity): StoredTrustedPeer {
    StoredTrustedPeer(p.peerId, p.displayName, lib.encodeKey(p.publicKey), p.fingerprint, p.capabilities)
  }

  function IntoTrustedPeer(lib: Library, s: StoredTrustedPeer): Result<TrustedPeerIdentity, StoreError> {
    match lib.decodeKey(s.encodedKey)
    case None => Err(CorruptKeyEncoding)
    case Some(key) =>
      if s.fingerprint != lib.fingerprint(key) then Err(CorruptFingerprint)
      else if !lib.isKey(key) then Err(InvalidTrustedPeerPublicKey(s.peerId))
      else Ok(TrustedPeerIdentity(
        s.peerId, NormalizeDisplayName(s.displayName), key, lib.fingerprint(key), s.capabilities))
  }

  // An identity read from a document survives being stored and loaded unchanged.
  lemma {:induction false} DocumentIdentitiesSurviveStorage(lib: Library, d: PairingDocument)
    requires IntoTrusted(lib, d).Ok? && KeyRoundTrips(lib, IntoTrusted(lib, d).value.publicKey)
    ensures IntoTrustedPeer(lib, FromIdentity(lib, IntoTrusted(lib, d).value)) == Ok(IntoTrusted(lib, d).value)
  {
    NormalizedNamesAreStable(d.displayName);
  }

  // An entry loads exactly if its key decodes to a valid key with the stored fingerprint. The peer is
  // the entry with that key and a normalized name; an error names what is wrong.
  lemma {:induction false} EntriesLoadExactly(lib: Library, s: StoredTrustedPeer)
    ensures match IntoTrustedPeer(lib, s)
      case Ok(p) =>
        && lib.decodeKey(s.encodedKey) == Some(p.publicKey) && lib.isKey(p.publicKey)
        && s.fingerprint == p.fingerprint == lib.fingerprint(p.publicKey)
        && p.peerId == s.peerId && p.capabilities == s.capabilities
        && p.displayName == NormalizeDisplayName(s.displayName)
      case Err(CorruptKeyEncoding) => lib.decodeKey(s.encodedKey) == None
      case Err(CorruptFingerprint) =>
        lib.decodeKey(s.encodedKey).Some? && s.fingerprint != lib.fingerprint(lib.decodeKey(s.encodedKey).value)
      case Err(InvalidTrustedPeerPublicKey(id)) =>
        && id == s.peerId && lib.decodeKey(s.encodedKey).Some? && !lib.isKey(lib.decodeKey(s.encodedKey).value)
        && s.fingerprint == lib.fingerprint(lib.decodeKey(s.encodedKey).value)
      case Err(_) => false
  {
  }

  // ---- The list of trusted peers ---------------------------------------------------------------

  function Position(peers: seq<StoredTrustedPeer>, id: string): (index: Option<nat>)
    ensures index.Some? ==> index.value < |peers| && peers[index.value].peerId == id
    ensures index.Some? ==> forall k :: 0 <= k < index.value ==> peers[k].peerId != id
    ensures index.None? ==> forall k :: 0 <= k < |peers| ==> peers[k].peerId != id
  {
    if peers == [] then None
    else if peers[0].peerId == id then Some(0)
    else
      var rest :- Position(peers[1..], id);
      Some(rest + 1)
  }

  function Lookup(peers: seq<StoredTrustedPeer>, id: string): Option<StoredTrustedPeer> {
    var index :- Position(peers, id);
    Some(peers[index])
  }

  function Saved(peers: seq<StoredTrustedPeer>, entry: StoredTrustedPeer): seq<StoredTrustedPeer> {
    match Position(peers, entry.peerId)
    case Some(index) => peers[index := entry]
    case None => peers + [entry]
  }

  function Removed(peers: seq<StoredTrustedPeer>, id: string): Option<seq<StoredTrustedPeer>> {
    var index :- Position(peers, id);
    Some(peers[..index] + peers[index + 1..])
  }

  predicate UniqueIds(peers: seq<StoredTrustedPeer>) {
    forall i, j :: 0 <= i < j < |peers| ==> peers[i].peerId != peers[j].peerId
  }

  // The map from ids to entries that the list stands for.
  function AsMap(peers: seq<StoredTrustedPeer>): map<string, StoredTrustedPeer> {
    map i | 0 <= i < |peers| :: peers[i].peerId := Lookup(peers, peers[i].peerId).Extract()
  }

  lemma {:induction false} MapIsLookup(peers: seq<StoredTrustedPeer>, id: string)
    ensures id in AsMap(peers) <==> Lookup(peers, id).Some?
    ensures id in AsMap(peers) ==> Lookup(peers, id) == Some(AsMap(peers)[id])
  {
  }

  lemma {:induction false} PositionIsUnique(peers: seq<StoredTrustedPeer>, id: string, i: nat)
    requires i < |peers| && peers[i].peerId == id && forall k :: 0 <= k < i ==> peers[k].peerId != id
    ensures Position(peers, id) == Some(i)
  {
  }

  // The lookups determine the map.
  lemma {:induction false} LookupsDetermineTheMap(peers: seq<StoredTrustedPeer>, m: map<string, StoredTrustedPeer>)
    requires forall id :: id in m <==> Lookup(peers, id).Some?
    requires forall id :: id in m ==> Lookup(peers, id) == Some(m[id])
    ensures AsMap(peers) == m
  {
    forall id ensures id in AsMap(peers) <==> id in m {
      MapIsLookup(peers, id);
    }
    forall id | id in m ensures AsMap(peers)[id] == m[id] {
      MapIsLookup(peers, id);
    }
  }

  // Saving is a map update; it keeps the ids unique and leaves every other entry in its place.
  lemma {:induction false} SavingUpdatesTheMap(peers: seq<StoredTrustedPeer>, entry: StoredTrustedPeer)
    ensures AsMap(Saved(peers, entry)) == AsMap(peers)[entry.peerId := entry]
    ensures UniqueIds(peers) ==> UniqueIds(Saved(peers, entry))
    ensures forall i :: 0 <= i < |peers| && peers[i].peerId != entry.peerId ==> Saved(peers, entry)[i] == peers[i]
    ensures |Saved(peers, entry)| == if entry.peerId in AsMap(peers) then |peers| else |peers| + 1
  {
    SavingKeepsPlaces(peers, entry);
    var after, m := Saved(peers, entry), AsMap(peers)[entry.peerId := entry];
    forall id ensures id in m <==> Lookup(after, id).Some? {
      LookupAfterSaving(peers, entry, id);
      MapIsLookup(peers, id);
    }
    forall id | id in m ensures Lookup(after, id) == Some(m[id]) {
      LookupAfterSaving(peers, entry, id);
      MapIsLookup(peers, id);
    }
    LookupsDetermineTheMap(after, m);
  }

  lemma {:induction false} SavingKeepsPlaces(peers: seq<StoredTrustedPeer>, entry: StoredTrustedPeer)
    ensures UniqueIds(peers) ==> UniqueIds(Saved(peers, entry))
    ensures forall i :: 0 <= i < |peers| && peers[i].peerId != entry.peerId ==> Saved(peers, entry)[i] == peers[i]
    ensures |Saved(peers, entry)| == if entry.peerId in AsMap(peers) then |peers| else |peers| + 1
  {
  }

  lemma {:induction false} LookupAfterSaving(peers: seq<StoredTrustedPeer>, entry: StoredTrustedPeer, id: string)
    ensures Lookup(Saved(peers, entry), id) == if id == entry.peerId then Some(entry) else Lookup(peers, id)
  {
    var after := Saved(peers, entry);
    match Position(peers, id) {
      case Some(i) => PositionIsUnique(after, id, i);
      case None => if id == entry.peerId { PositionIsUnique(after, id, |peers|); }
    }
  }

  // Removing fails exactly for an unknown id. Otherwise it deletes the entry from the map, exactly
  // when the list held that id once: a second entry with the id would surface.
  lemma {:induction false} RemovingDeletesFromTheMap(peers: seq<StoredTrustedPeer>, id: string)
    ensures Removed(peers, id).Some? <==> id in AsMap(peers)
    ensures Removed(peers, id).Some? ==>
      var after := Removed(peers, id).value;
      && (UniqueIds(peers) ==> UniqueIds(after))
      && (forall other :: other != id ==> Lookup(after, other) == Lookup(peers, other))
      && (AsMap(after) == AsMap(peers) - {id} <==> OccursOnce(peers, id))
  {
    MapIsLookup(peers, id);
    if Removed(peers, id).Some? {
      var after := Removed(peers, id).value;
      RemovingKeepsIdsUnique(peers, id);
      forall other | other != id ensures Lookup(after, other) == Lookup(peers, other) {
        LookupAfterRemoving(peers, id, other);
      }
      if OccursOnce(peers, id) {
        RemovedOnceIsGone(peers, id);
      } else {
        RemovedTwiceSurfaces(peers, id);
      }
    }
  }

  lemma {:induction false} RemovingKeepsIdsUnique(peers: seq<StoredTrustedPeer>, id: string)
    requires Removed(peers, id).Some?
    ensures UniqueIds(peers) ==> UniqueIds(Removed(peers, id).value) && OccursOnce(peers, id)
  {
  }

  lemma {:induction false} RemovedOnceIsGone(peers: seq<StoredTrustedPeer>, id: string)
    requires Removed(peers, id).Some? && OccursOnce(peers, id)
    ensures AsMap(Removed(peers, id).value) == AsMap(peers) - {id}
  {
    var index := Position(peers, id).value;
    var after := Removed(peers, id).value;
    forall k | 0 <= k < |after| ensures after[k].peerId != id {
      assert after[k] == peers[if k < index then k else k + 1];
    }

    var m := AsMap(peers) - {id};
    forall other ensures other in m <==> Lookup(after, other).Some? {
      MapIsLookup(peers, other);
      if other != id { LookupAfterRemoving(peers, id, other); }
    }
    forall other | other in m ensures Lookup(after, other) == Some(m[other]) {
      MapIsLookup(peers, other);
      LookupAfterRemoving(peers, id, other);
    }
    LookupsDetermineTheMap(after, m);
  }

  lemma {:induction false} RemovedTwiceSurfaces(peers: seq<StoredTrustedPeer>, id: string)
    requires Removed(peers, id).Some? && !OccursOnce(peers, id)
    ensures id in AsMap(Removed(peers, id).value)
  {
    var index := Position(peers, id).value;
    var again := SecondOccurrence(peers, id, index);
    assert Removed(peers, id).value[again - 1] == peers[again];
  }

  predicate OccursOnce(peers: seq<StoredTrustedPeer>, id: string) {
    forall i, j :: 0 <= i < j < |peers| && peers[i].peerId == id ==> peers[j].peerId != id
  }

  lemma {:induction false} SecondOccurrence(peers: seq<StoredTrustedPeer>, id: string, index: nat) returns (again: nat)
    requires !OccursOnce(peers, id) && Position(peers, id) == Some(index)
    ensures index < again < |peers| && peers[again].peerId == id
  {
    var i, j :| 0 <= i < j < |peers| && peers[i].peerId == id && peers[j].peerId == id;
    again := j;
  }

  lemma {:induction false} LookupAfterRemoving(peers: seq<StoredTrustedPeer>, id: string, other: string)
    requires Removed(peers, id).Some? && other != id
    ensures Lookup(Removed(peers, id).value, other) == Lookup(peers, other)
  {
    var index := Position(peers, id).value;
    var after := Removed(peers, id).value;
    assert forall k :: 0 <= k < |after| ==> after[k] == peers[if k < index then k else k + 1];
    match Position(peers, other) {
      case Some(i) => PositionIsUnique(after, other, if i < index then i else i - 1);
      case None =>
    }
  }

  // ---- The store -------------------------------------------------------------------------------

  // The file after opening it: created with a fresh identity when it was missing.
  function Opened(file: Option<StoredFile>, generated: DeviceIdentity): StoredFile {
    if file.None? then StoredFile(generated, []) else file.value
  }

  function Listed(lib: Library, peers: seq<StoredTrustedPeer>): Result<seq<TrustedPeerIdentity>, StoreError> {
    if peers == [] then Ok([])
    else
      var init :- Listed(lib, peers[..|peers| - 1]);
      var last :- IntoTrustedPeer(lib, peers[|peers| - 1]);
      Ok(init + [last])
  }

  predicate AllLoadable(lib: Library, peers: seq<StoredTrustedPeer>) {
    forall i :: 0 <= i < |peers| ==> IntoTrustedPeer(lib, peers[i]).Ok?
  }

  // Listing succeeds exactly when every entry loads, and returns them in order.
  lemma {:induction false} ListsEveryEntryInOrder(lib: Library, peers: seq<StoredTrustedPeer>)
    ensures Listed(lib, peers).Ok? <==> AllLoadable(lib, peers)
    ensures Listed(lib, peers).Ok? ==>
      && |Listed(lib, peers).value| == |peers|
      && forall i :: 0 <= i < |peers| ==> IntoTrustedPeer(lib, peers[i]) == Ok(Listed(lib, peers).value[i])
  {
    if peers == [] {
    } else {
      var init := peers[..|peers| - 1];
      ListsEveryEntryInOrder(lib, init);
      assert forall i :: 0 <= i < |init| ==> init[i] == peers[i];
    }
  }

  class FileIdentityStore {
    var file: Option<StoredFile>

    constructor ()
      ensures file == None
    {
      file := None;
    }

    method LoadOrCreate(generated: DeviceIdentity) returns (local: DeviceIdentity)
      modifies this
      ensures file == Some(Opened(old(file), generated)) && local == file.value.local
    {
      if file.None? {
        file := Some(StoredFile(generated, []));
      }
      local := file.value.local;
    }

    method SaveTrustedPeer(lib: Library, peer: TrustedPeerIdentity) returns (r: Result<(), StoreError>)
      modifies this
      ensures old(file).None? ==> r == Err(MissingIdentityFile) && file == old(file)
      ensures old(file).Some? ==>
        && r == Ok(())
        && file == Some(old(file).value.(trusted := Saved(old(file).value.trusted, FromIdentity(lib, peer))))
        && AsMap(file.value.trusted) == AsMap(old(file).value.trusted)[peer.peerId := FromIdentity(lib, peer)]
    {
      if file.None? {
        return Err(MissingIdentityFile);
      }
      var trusted := file.value.trusted;
      var entry := FromIdentity(lib, peer);
      SavingUpdatesTheMap(trusted, entry);
      var index := 0;
      while index < |trusted| && trusted[index].peerId != entry.peerId
        invariant index <= |trusted|
        invariant forall k :: 0 <= k < index ==> trusted[k].peerId != entry.peerId
      {
        index := index + 1;
      }
      if index < |trusted| {
        PositionIsUnique(trusted, entry.peerId, index);
        trusted := trusted[index := entry];
      } else {
        trusted := trusted + [entry];
      }
      file := Some(file.value.(trusted := trusted));
      r := Ok(());
    }

    method ListTrustedPeers(lib: Library) returns (r: Result<seq<TrustedPeerIdentity>, StoreError>)
      ensures r == if file.None? then Err(MissingIdentityFile) else Listed(lib, file.value.trusted)
    {
      if file.None? {
        return Err(MissingIdentityFile);
      }
      var trusted := file.value.trusted;
      var listed: seq<TrustedPeerIdentity> := [];
      for k := 0 to |trusted|
        invariant Listed(lib, trusted[..k]) == Ok(listed)
      {
        assert trusted[..k + 1][..k] == trusted[..k];
        match IntoTrustedPeer(lib, trusted[k]) {
          case Ok(peer) => listed := listed + [peer];
          case Err(error) =>
            FirstFailureIsReported(lib, trusted, k + 1, error);
            return Err(error);
        }
      }
      assert trusted[..|trusted|] == trusted;
      r := Ok(listed);
    }

    method LoadTrustedPeer(lib: Library, id: string) returns (r: Result<TrustedPeerIdentity, StoreError>)
      ensures r ==
        if file.None? then Err(MissingIdentityFile)
        else if id !in AsMap(file.value.trusted) then Err(TrustedPeerNotFound(id))
        else IntoTrustedPeer(lib, AsMap(file.value.trusted)[id])
    {
      if file.None? {
        return Err(MissingIdentityFile);
      }
      MapIsLookup(file.value.trusted, id);
      match Position(file.value.trusted, id) {
        case None => r := Err(TrustedPeerNotFound(id));
        case Some(index) => r := IntoTrustedPeer(lib, file.value.trusted[index]);
      }
    }

    method RemoveTrustedPeer(id: string) returns (r: Result<(), StoreError>)
      modifies this
      ensures old(file).None? ==> r == Err(MissingIdentityFile) && file == old(file)
      ensures old(file).Some? && id !in AsMap(old(file).value.trusted) ==>
        r == Err(TrustedPeerNotFound(id)) && file == old(file)
      ensures old(file).Some? && id in AsMap(old(file).value.trusted) ==>
        && r == Ok(()) && file.Some? && file.value.local == old(file).value.local
        && Removed(old(file).value.trusted, id) == Some(file.value.trusted)
        && (UniqueIds(old(file).value.trusted) ==>
              AsMap(file.value.trusted) == AsMap(old(file).value.trusted) - {id})
    {
      if file.None? {
        return Err(MissingIdentityFile);
      }
      var trusted := file.value.trusted;
      RemovingDeletesFromTheMap(trusted, id);
      match Position(trusted, id) {
        case None => r := Err(TrustedPeerNotFound(id));
        case Some(index) =>
          file := Some(file.value.(trusted := trusted[..index] + trusted[index + 1..]));
          r := Ok(());
      }
    }
  }

  // The error of the first entry that does not load decides the whole listing.
  lemma {:induction false} FirstFailureIsReported(
    lib: Library, peers: seq<StoredTrustedPeer>, n: nat, error: StoreError)
    requires 0 < n <= |peers| && Listed(lib, peers[..n]) == Err(error)
    ensures Listed(lib, peers) == Err(error)
    decreases |peers|
  {
    if n == |peers| {
      assert peers[..n] == peers;
    } else {
      var init := peers[..|peers| - 1];
      assert init[..n] == peers[..n];
      FirstFailureIsReported(lib, init, n, error);
    }
  }
}
