// The confirmation flow that turns a peer's public document into a trusted peer
// (crates/akraz-daemon/src/lib.rs). One runtime handles the requests one after another.
module Pairing {
  import opened Wrappers
  import opened Ints
  import opened IdentityStore
  import opened PairingCode
  import Decimal
  import Text
  import Utf8

  datatype PendingPairing = PendingPairing(peer: TrustedPeerIdentity, code: string)

  datatype PairingState = PairingState(file: Option<StoredFile>, pending: map<string, PendingPairing>)

  datatype PairingError =
    | EmptyDocument
    | UndecodableDocument
    | InvalidDocument(document: DocumentError)
    | OwnIdentity
    | EmptyPeerId
    | MalformedCode
    | NotPending(peerId: string)
    | CodeMismatch

  datatype Request =
    | Start(document: string)
    | Accept(peerId: string, code: string)
    | Reject(peerId: string)
    | Forget(peerId: string)

  // ---- One request -----------------------------------------------------------------------------

  function NormalizeCode(value: string): Result<string, PairingError> {
    var trimmed := Text.Trim(value);
    if |Utf8.Encode(trimmed)| != CODE_LENGTH || !Decimal.AllDigits(trimmed) then Err(MalformedCode) else Ok(trimmed)
  }

  // The peer a trimmed, non-empty document names, as seen by the local device.
  function PeerOf(lib: Library, local: DeviceIdentity, document: string): Result<TrustedPeerIdentity, PairingError> {
    match lib.parseDocument(document)
    case None => Err(UndecodableDocument)
    case Some(decoded) =>
      match IntoTrusted(lib, decoded)
      case Err(error) => Err(InvalidDocument(error))
      case Ok(peer) => if peer.peerId == local.deviceId then Err(OwnIdentity) else Ok(peer)
  }

  function StartStep(lib: Library, generated: DeviceIdentity, s: PairingState, document: string)
    : (PairingState, Result<PendingPairing, PairingError>)
  {
    var trimmed := Text.Trim(document);
    if trimmed == "" then (s, Err(EmptyDocument))
    else
      var onDisk := Opened(s.file, generated);
      match PeerOf(lib, onDisk.local, trimmed)
      case Err(error) => (s.(file := Some(onDisk)), Err(error))
      case Ok(peer) =>
        var pairing := PendingPairing(peer, Code(lib, onDisk.local, peer));
        (PairingState(Some(onDisk), s.pending[peer.peerId := pairing]), Ok(pairing))
  }

  function AcceptStep(lib: Library, generated: DeviceIdentity, s: PairingState, peerId: string, code: string)
    : (PairingState, Result<TrustedPeerIdentity, PairingError>)
  {
    var id := Text.Trim(peerId);
    if id == "" then (s, Err(EmptyPeerId))
    else
      match NormalizeCode(code)
      case Err(error) => (s, Err(error))
      case Ok(digits) =>
        if id !in s.pending then (s, Err(NotPending(id)))
        else if s.pending[id].code != digits then (s, Err(CodeMismatch))
        else
          var onDisk := Opened(s.file, generated);
          var trusted := Saved(onDisk.trusted, FromIdentity(lib, s.pending[id].peer));
          (PairingState(Some(onDisk.(trusted := trusted)), s.pending - {id}), Ok(s.pending[id].peer))
  }

  function RejectStep(s: PairingState, peerId: string): (PairingState, Result<string, PairingError>) {
    var id := Text.Trim(peerId);
    if id == "" then (s, Err(EmptyPeerId))
    else if id !in s.pending then (s, Err(NotPending(id)))
    else (s.(pending := s.pending - {id}), Ok(id))
  }

  // Removal by the command-line tool, which uses the id as given.
  function ForgetStep(s: PairingState, id: string): (PairingState, Result<(), StoreError>) {
    match s.file
    case None => (s, Err(MissingIdentityFile))
    case Some(stored) =>
      match Removed(stored.trusted, id)
      case None => (s, Err(TrustedPeerNotFound(id)))
      case Some(trusted) => (s.(file := Some(stored.(trusted := trusted))), Ok(()))
  }

  class PairingManager {
    const store: FileIdentityStore
    var pending: map<string, PendingPairing>

    constructor (store: FileIdentityStore)
      ensures this.store == store && pending == map[]
    {
      this.store := store;
      pending := map[];
    }

    function Abstract(): PairingState
      reads this, store
    {
      PairingState(store.file, pending)
    }

    method StartPairing(lib: Library, generated: DeviceIdentity, document: string)
      returns (r: Result<PendingPairing, PairingError>)
      modifies this, store
      ensures (Abstract(), r) == StartStep(lib, generated, old(Abstract()), document)
    {
      var trimmed := Text.Trim(document);
      if trimmed == "" {
        return Err(EmptyDocument);
      }
      var local := store.LoadOrCreate(generated);
      match PeerOf(lib, local, trimmed) {
        case Err(error) => r := Err(error);
        case Ok(peer) =>
          var code := PairingVerificationCode(lib, local, peer);
          pending := pending[peer.peerId := PendingPairing(peer, code)];
          r := Ok(PendingPairing(peer, code));
      }
    }

    method AcceptPairing(lib: Library, generated: DeviceIdentity, peerId: string, code: string)
      returns (r: Result<TrustedPeerIdentity, PairingError>)
      modifies this, store
      ensures (Abstract(), r) == AcceptStep(lib, generated, old(Abstract()), peerId, code)
    {
      var id := Text.Trim(peerId);
      if id == "" {
        return Err(EmptyPeerId);
      }
      var digits :- NormalizeCode(code);
      if id !in pending {
        return Err(NotPending(id));
      }
      var pairing := pending[id];
      if pairing.code != digits {
        return Err(CodeMismatch);
      }
      var _ := store.LoadOrCreate(generated);
      var _ := store.SaveTrustedPeer(lib, pairing.peer);
      RemovePendingPairingIfCodeMatches(id, digits);
      r := Ok(pairing.peer);
    }

    method RemovePendingPairingIfCodeMatches(id: string, code: string)
      modifies this
      ensures pending ==
        if id in old(pending) && old(pending)[id].code == code then old(pending) - {id} else old(pending)
    {
      if id in pending && pending[id].code == code {
        pending := pending - {id};
      }
    }

    method RejectPairing(peerId: string) returns (r: Result<string, PairingError>)
      modifies this
      ensures (Abstract(), r) == RejectStep(old(Abstract()), peerId)
    {
      var id := Text.Trim(peerId);
      if id == "" {
        return Err(EmptyPeerId);
      }
      if id !in pending {
        return Err(NotPending(id));
      }
      pending := pending - {id};
      r := Ok(id);
    }
  }

  // ---- Runs ------------------------------------------------------------------------------------

  function Next(lib: Library, generated: DeviceIdentity, s: PairingState, r: Request): PairingState {
    match r
    case Start(document) => StartStep(lib, generated, s, document).0
    case Accept(peerId, code) => AcceptStep(lib, generated, s, peerId, code).0
    case Reject(peerId) => RejectStep(s, peerId).0
    case Forget(peerId) => ForgetStep(s, peerId).0
  }

  function Run(lib: Library, generated: DeviceIdentity, s: PairingState, requests: seq<Request>): PairingState {
    if requests == [] then s
    else
      var n := |requests| - 1;
      Next(lib, generated, Run(lib, generated, s, requests[..n]), requests[n])
  }

  // What the requests alone say, without any table of pending pairings: the request starts a
  // pairing with `peer`, and the peer of the latest start for `id` that was not yet rejected or
  // confirmed with its code.

  function StartedPeer(lib: Library, local: DeviceIdentity, r: Request): Option<TrustedPeerIdentity> {
    if r.Start? && Text.Trim(r.document) != "" && PeerOf(lib, local, Text.Trim(r.document)).Ok?
    then Some(PeerOf(lib, local, Text.Trim(r.document)).value)
    else None
  }

  function OpenPairing(lib: Library, local: DeviceIdentity, requests: seq<Request>, id: string)
    : Option<TrustedPeerIdentity>
    decreases |requests|, 0
  {
    if requests == [] then None
    else
      var earlier, r := requests[..|requests| - 1], requests[|requests| - 1];
      var started := StartedPeer(lib, local, r);
      if started.Some? && started.value.peerId == id then started
      else if r.Reject? && Text.Trim(r.peerId) == id then None
      else if Confirms(lib, local, earlier, r, id) then None
      else OpenPairing(lib, local, earlier, id)
  }

  // The request accepts the open pairing of `id` with the right code.
  predicate Confirms(lib: Library, local: DeviceIdentity, earlier: seq<Request>, r: Request, id: string)
    decreases |earlier|, 1
  {
    && r.Accept? && Text.Trim(r.peerId) == id
    && var open := OpenPairing(lib, local, earlier, id);
       open.Some? && Text.Trim(r.code) == Code(lib, local, open.value)
  }

  // The trust list entry of `id` after the requests.
  function TrustedAfter(
    lib: Library, local: DeviceIdentity, initial: seq<StoredTrustedPeer>, requests: seq<Request>, id: string)
    : Option<StoredTrustedPeer>
  {
    if requests == [] then Lookup(initial, id)
    else
      var earlier, r := requests[..|requests| - 1], requests[|requests| - 1];
      if Confirms(lib, local, earlier, r, id) then
        Some(FromIdentity(lib, OpenPairing(lib, local, earlier, id).value))
      else if r.Forget? && r.peerId == id then None
      else TrustedAfter(lib, local, initial, earlier, id)
  }

  lemma {:induction false} OpenPairingNamesThePeer(
    lib: Library, local: DeviceIdentity, requests: seq<Request>, id: string)
    requires OpenPairing(lib, local, requests, id).Some?
    ensures OpenPairing(lib, local, requests, id).value.peerId == id
    ensures id != "" && Text.Trim(id) == id && id != local.deviceId
  {
    var earlier, r := requests[..|requests| - 1], requests[|requests| - 1];
    var started := StartedPeer(lib, local, r);
    if started.Some? && started.value.peerId == id {
      StartedPeerIsForeign(lib, local, r);
    } else {
      OpenPairingNamesThePeer(lib, local, earlier, id);
    }
  }

  // A code made by a start is always well formed, and accepting trims nothing off it.
  lemma {:induction false} CodesPassTheFormatCheck(lib: Library, local: DeviceIdentity, peer: TrustedPeerIdentity)
    ensures NormalizeCode(Code(lib, local, peer)) == Ok(Code(lib, local, peer))
  {
    var code := Code(lib, local, peer);
    CodesAreSixDigits(lib.digest(Message(LocalParty(local), PeerParty(peer))) % CODE_MODULUS);
    assert Decimal.IsDigit(code[0]) && Decimal.IsDigit(code[5]);
    Text.TrimOfTrimmed(code);
    DigitsAreOneByteEach(code);
  }

  lemma {:induction false} DigitsAreOneByteEach(s: string)
    requires Decimal.AllDigits(s)
    ensures |Utf8.Encode(s)| == |s|
  {
    assert forall i :: 0 <= i < |s| ==> Decimal.IsDigit(s[i]);
    Utf8.EncodeOfAscii(s);
  }

  // Pending pairings are filed under the peer's id with the code the local device computes for it,
  // and the trust list holds an id once.
  ghost predicate Consistent(lib: Library, generated: DeviceIdentity, s: PairingState) {
    var local := Opened(s.file, generated).local;
    && UniqueIds(Opened(s.file, generated).trusted)
    && forall id :: id in s.pending ==>
         && s.pending[id].peer.peerId == id && s.pending[id].code == Code(lib, local, s.pending[id].peer)
         && id != "" && Text.Trim(id) == id && id != local.deviceId
  }

  function PendingOf(s: PairingState, id: string): Option<PendingPairing> {
    if id in s.pending then Some(s.pending[id]) else None
  }

  function EntryOf(generated: DeviceIdentity, s: PairingState, id: string): Option<StoredTrustedPeer> {
    Lookup(Opened(s.file, generated).trusted, id)
  }

  predicate Matches(s: PairingState, r: Request, id: string) {
    r.Accept? && Text.Trim(r.peerId) == id && id in s.pending && Text.Trim(r.code) == s.pending[id].code
  }

  // What one request does to the two tables at one id.
  ghost predicate StepAt(
    lib: Library, generated: DeviceIdentity, s: PairingState, r: Request, s': PairingState, id: string)
  {
    var local := Opened(s.file, generated).local;
    var started := StartedPeer(lib, local, r);
    && Opened(s'.file, generated).local == local
    && PendingOf(s', id) == (
         if started.Some? && started.value.peerId == id then
           Some(PendingPairing(started.value, Code(lib, local, started.value)))
         else if (r.Reject? && Text.Trim(r.peerId) == id) || Matches(s, r, id) then None
         else PendingOf(s, id))
    && EntryOf(generated, s', id) == (
         if Matches(s, r, id) then Some(FromIdentity(lib, s.pending[id].peer))
         else if r.Forget? && r.peerId == id then None
         else EntryOf(generated, s, id))
  }

  lemma {:induction false} StartAt(
    lib: Library, generated: DeviceIdentity, s: PairingState, document: string, id: string)
    requires Consistent(lib, generated, s)
    ensures StepAt(lib, generated, s, Start(document), StartStep(lib, generated, s, document).0, id)
    ensures Consistent(lib, generated, StartStep(lib, generated, s, document).0)
  {
    var local := Opened(s.file, generated).local;
    var started := StartedPeer(lib, local, Start(document));
    var s' := StartStep(lib, generated, s, document).0;
    StartActsExactlyOnAPeer(lib, generated, s, document);
    assert Opened(s'.file, generated) == Opened(s.file, generated);
    if started.Some? {
      StartedPeerIsForeign(lib, local, Start(document));
      FiledAt(lib, generated, s, started.value, s', id);
    } else {
      PendingShrinks(lib, generated, s, s');
    }
  }

  lemma {:induction false} FiledAt(
    lib: Library, generated: DeviceIdentity, s: PairingState, peer: TrustedPeerIdentity, s': PairingState, id: string)
    requires Consistent(lib, generated, s)
    requires peer.peerId != "" && Text.Trim(peer.peerId) == peer.peerId
    requires peer.peerId != Opened(s.file, generated).local.deviceId
    requires Opened(s'.file, generated) == Opened(s.file, generated)
    requires var pairing := PendingPairing(peer, Code(lib, Opened(s.file, generated).local, peer));
      s'.pending == s.pending[peer.peerId := pairing]
    ensures Consistent(lib, generated, s')
    ensures PendingOf(s', id) ==
      if peer.peerId == id then Some(PendingPairing(peer, Code(lib, Opened(s.file, generated).local, peer)))
      else PendingOf(s, id)
  {
  }

  lemma {:induction false} StartedPeerIsForeign(lib: Library, local: DeviceIdentity, r: Request)
    requires StartedPeer(lib, local, r).Some?
    ensures var id := StartedPeer(lib, local, r).value.peerId;
      id != "" && Text.Trim(id) == id && id != local.deviceId
  {
    var decoded := lib.parseDocument(Text.Trim(r.document)).value;
    Text.TrimTrims(decoded.deviceId);
    Text.TrimOfTrimmed(StartedPeer(lib, local, r).value.peerId);
  }

  // A start files the peer of its document, and at most creates the identity file otherwise.
  lemma {:induction false} StartActsExactlyOnAPeer(
    lib: Library, generated: DeviceIdentity, s: PairingState, document: string)
    ensures var onDisk := Opened(s.file, generated);
      var started := StartedPeer(lib, onDisk.local, Start(document));
      var (s', result) := StartStep(lib, generated, s, document);
      && s'.file == (if Text.Trim(document) == "" then s.file else Some(onDisk)) && Opened(s'.file, generated) == onDisk
      && match started
         case None => result.Err? && s'.pending == s.pending
         case Some(peer) =>
           && result == Ok(PendingPairing(peer, Code(lib, onDisk.local, peer)))
           && s'.pending == s.pending[peer.peerId := result.value]
  {
  }

  function WithPeer(lib: Library, file: StoredFile, peer: TrustedPeerIdentity): StoredFile {
    file.(trusted := Saved(file.trusted, FromIdentity(lib, peer)))
  }

  function Confirmed(lib: Library, generated: DeviceIdentity, s: PairingState, named: string): PairingState
    requires named in s.pending
  {
    PairingState(Some(WithPeer(lib, Opened(s.file, generated), s.pending[named].peer)), s.pending - {named})
  }

  // Accepting does something exactly when the trimmed code is the one on file.
  lemma {:induction false} AcceptActsExactlyOnAMatch(
    lib: Library, generated: DeviceIdentity, s: PairingState, peerId: string, code: string)
    requires Consistent(lib, generated, s)
    ensures var id := Text.Trim(peerId);
      AcceptStep(lib, generated, s, peerId, code).0 ==
        if Matches(s, Accept(peerId, code), id) then Confirmed(lib, generated, s, id) else s
    ensures Matches(s, Accept(peerId, code), Text.Trim(peerId)) <==> AcceptStep(lib, generated, s, peerId, code).1.Ok?
  {
    var named := Text.Trim(peerId);
    if Matches(s, Accept(peerId, code), named) {
      CodesPassTheFormatCheck(lib, Opened(s.file, generated).local, s.pending[named].peer);
      Text.TrimTrims(code);
      Text.TrimOfTrimmed(Text.Trim(code));
    }
  }

  lemma {:induction false} AcceptAt(
    lib: Library, generated: DeviceIdentity, s: PairingState, peerId: string, code: string, id: string)
    requires Consistent(lib, generated, s)
    ensures StepAt(lib, generated, s, Accept(peerId, code), AcceptStep(lib, generated, s, peerId, code).0, id)
    ensures Consistent(lib, generated, AcceptStep(lib, generated, s, peerId, code).0)
  {
    var named := Text.Trim(peerId);
    var s' := AcceptStep(lib, generated, s, peerId, code).0;
    AcceptActsExactlyOnAMatch(lib, generated, s, peerId, code);
    if Matches(s, Accept(peerId, code), named) {
      assert s' == Confirmed(lib, generated, s, named);
      ConfirmedAt(lib, generated, s, named, id);
    }
  }

  lemma {:induction false} ConfirmedAt(
    lib: Library, generated: DeviceIdentity, s: PairingState, named: string, id: string)
    requires Consistent(lib, generated, s)
    ensures named in s.pending ==>
      var s' := Confirmed(lib, generated, s, named);
      && Consistent(lib, generated, s') && Opened(s'.file, generated).local == Opened(s.file, generated).local
      && PendingOf(s', id) == (if id == named then None else PendingOf(s, id))
      && EntryOf(generated, s', id)
         == if id == named then Some(FromIdentity(lib, s.pending[named].peer)) else EntryOf(generated, s, id)
  {
    if named in s.pending {
      var trusted, entry := Opened(s.file, generated).trusted, FromIdentity(lib, s.pending[named].peer);
      var s' := Confirmed(lib, generated, s, named);
      assert entry.peerId == named;
      LookupAfterSaving(trusted, entry, id);
      assert UniqueIds(Saved(trusted, entry)) by { SavingUpdatesTheMap(trusted, entry); }
      assert Consistent(lib, generated, s') by { PendingShrinks(lib, generated, s, s'); }
    }
  }

  lemma {:induction false} RejectAt(
    lib: Library, generated: DeviceIdentity, s: PairingState, peerId: string, id: string)
    requires Consistent(lib, generated, s)
    ensures StepAt(lib, generated, s, Reject(peerId), RejectStep(s, peerId).0, id)
    ensures Consistent(lib, generated, RejectStep(s, peerId).0)
  {
    var s' := RejectStep(s, peerId).0;
    RejectedAt(s, peerId, id);
    assert StartedPeer(lib, Opened(s.file, generated).local, Reject(peerId)) == None;
    assert Opened(s'.file, generated) == Opened(s.file, generated);
    assert EntryOf(generated, s', id) == EntryOf(generated, s, id);
    assert Consistent(lib, generated, s') by { PendingShrinks(lib, generated, s, s'); }
  }

  lemma {:induction false} RejectedAt(s: PairingState, peerId: string, id: string)
    requires "" !in s.pending
    ensures var s' := RejectStep(s, peerId).0;
      && s'.file == s.file && s'.pending.Keys <= s.pending.Keys
      && PendingOf(s', id) == (if Text.Trim(peerId) == id then None else PendingOf(s, id))
  {
  }

  lemma {:induction false} PendingShrinks(lib: Library, generated: DeviceIdentity, s: PairingState, s': PairingState)
    requires Consistent(lib, generated, s)
    requires s'.pending.Keys <= s.pending.Keys && forall id :: id in s'.pending ==> s'.pending[id] == s.pending[id]
    requires Opened(s'.file, generated).local == Opened(s.file, generated).local
    requires UniqueIds(Opened(s'.file, generated).trusted)
    ensures Consistent(lib, generated, s')
  {
  }

  lemma {:induction false} ForgetAt(
    lib: Library, generated: DeviceIdentity, s: PairingState, peerId: string, id: string)
    requires Consistent(lib, generated, s)
    ensures StepAt(lib, generated, s, Forget(peerId), ForgetStep(s, peerId).0, id)
    ensures Consistent(lib, generated, ForgetStep(s, peerId).0)
  {
    var s' := ForgetStep(s, peerId).0;
    ForgottenAt(generated, s, peerId, id);
    assert StartedPeer(lib, Opened(s.file, generated).local, Forget(peerId)) == None;
    assert Consistent(lib, generated, s') by { PendingShrinks(lib, generated, s, s'); }
  }

  lemma {:induction false} ForgottenAt(generated: DeviceIdentity, s: PairingState, peerId: string, id: string)
    requires UniqueIds(Opened(s.file, generated).trusted)
    ensures var s' := ForgetStep(s, peerId).0;
      && s'.pending == s.pending && Opened(s'.file, generated).local == Opened(s.file, generated).local
      && UniqueIds(Opened(s'.file, generated).trusted)
      && EntryOf(generated, s', id) == (if peerId == id then None else EntryOf(generated, s, id))
  {
    var trusted := Opened(s.file, generated).trusted;
    if Removed(trusted, peerId).Some? {
      RemovedOnceIsGone(trusted, peerId);
      RemovingKeepsIdsUnique(trusted, peerId);
      MapIsLookup(Removed(trusted, peerId).value, peerId);
      if id != peerId {
        LookupAfterRemoving(trusted, peerId, id);
      }
    }
  }

  lemma {:induction false} NextAt(lib: Library, generated: DeviceIdentity, s: PairingState, r: Request, id: string)
    requires Consistent(lib, generated, s)
    ensures StepAt(lib, generated, s, r, Next(lib, generated, s, r), id)
    ensures Consistent(lib, generated, Next(lib, generated, s, r))
  {
    match r
    case Start(document) => StartAt(lib, generated, s, document, id);
    case Accept(peerId, code) => AcceptAt(lib, generated, s, peerId, code, id);
    case Reject(peerId) => RejectAt(lib, generated, s, peerId, id);
    case Forget(peerId) => ForgetAt(lib, generated, s, peerId, id);
  }

  // Over every run from a state without pending pairings, both tables are determined, id by id, by
  // the requests: starts, rejections, matching confirmations and removals of that id.
  lemma {:induction false} RunsFollowTheRequests(
    lib: Library, generated: DeviceIdentity, s0: PairingState, requests: seq<Request>, id: string)
    requires s0.pending == map[] && UniqueIds(Opened(s0.file, generated).trusted)
    ensures var s, local := Run(lib, generated, s0, requests), Opened(s0.file, generated).local;
      && Consistent(lib, generated, s) && Opened(s.file, generated).local == local
      && (match OpenPairing(lib, local, requests, id)
          case None => id !in s.pending
          case Some(peer) => id in s.pending && s.pending[id] == PendingPairing(peer, Code(lib, local, peer)))
      && EntryOf(generated, s, id) == TrustedAfter(lib, local, Opened(s0.file, generated).trusted, requests, id)
  {
    if requests == [] {
    } else {
      var n := |requests| - 1;
      var s := Run(lib, generated, s0, requests[..n]);
      RunsFollowTheRequests(lib, generated, s0, requests[..n], id);
      NextAt(lib, generated, s, requests[n], id);
      var local := Opened(s0.file, generated).local;
      assert Matches(s, requests[n], id) == Confirms(lib, local, requests[..n], requests[n], id);
    }
  }

  // ---- Who gets trusted ------------------------------------------------------------------------

  // The latest request either opened the pairing or did not concern it.
  lemma {:induction false} OpenNowOrBefore(lib: Library, local: DeviceIdentity, requests: seq<Request>, id: string)
    requires OpenPairing(lib, local, requests, id).Some?
    ensures var r, open := requests[|requests| - 1], OpenPairing(lib, local, requests, id);
      if ConcernsId(lib, local, r, id) then open == StartedPeer(lib, local, r)
      else open == OpenPairing(lib, local, requests[..|requests| - 1], id)
  {
  }

  // An open pairing goes back to a start that produced exactly this peer, with no later start or
  // rejection for its id.
  lemma {:induction false} OpenPairingWasStarted(
    lib: Library, local: DeviceIdentity, requests: seq<Request>, id: string) returns (j: nat)
    requires OpenPairing(lib, local, requests, id).Some?
    ensures j < |requests|
    ensures StartedPeer(lib, local, requests[j]) == OpenPairing(lib, local, requests, id)
    ensures forall k :: j < k < |requests| ==> !ConcernsId(lib, local, requests[k], id)
  {
    var n := |requests| - 1;
    OpenNowOrBefore(lib, local, requests, id);
    if ConcernsId(lib, local, requests[n], id) {
      j := n;
    } else {
      j := OpenPairingWasStarted(lib, local, requests[..n], id);
      assert requests[..n][j] == requests[j];
      forall k | j < k < |requests| ensures !ConcernsId(lib, local, requests[k], id) {
        if k < n { assert requests[k] == requests[..n][k]; }
      }
    }
  }

  predicate ConcernsId(lib: Library, local: DeviceIdentity, r: Request, id: string) {
    || (StartedPeer(lib, local, r).Some? && StartedPeer(lib, local, r).value.peerId == id)
    || (r.Reject? && Text.Trim(r.peerId) == id)
  }

  // Every entry that a run adds to the trust list, or changes, was confirmed with the code of the
  // latest start for its id, which no rejection followed, and is the identity of that start's
  // document. It is never the local device.
  lemma {:induction false} TrustNeedsTheMatchingCode(
    lib: Library, generated: DeviceIdentity, s0: PairingState, requests: seq<Request>, id: string)
    returns (start: nat, accept: nat)
    requires s0.pending == map[] && UniqueIds(Opened(s0.file, generated).trusted)
    requires var entry := EntryOf(generated, Run(lib, generated, s0, requests), id);
      entry.Some? && entry != EntryOf(generated, s0, id)
    ensures start < accept < |requests| && requests[accept].Accept?
    ensures var local := Opened(s0.file, generated).local;
      var peer := StartedPeer(lib, local, requests[start]);
      && peer.Some? && peer.value.peerId == id == Text.Trim(requests[accept].peerId) != local.deviceId
      && (forall k :: start < k < accept ==> !ConcernsId(lib, local, requests[k], id))
      && Text.Trim(requests[accept].code) == Code(lib, local, peer.value)
      && Spells(Text.Trim(requests[accept].code), lib, local, peer.value)
      && EntryOf(generated, Run(lib, generated, s0, requests), id)
         == Some(FromIdentity(lib, peer.value))
  {
    var local := Opened(s0.file, generated).local;
    RunsFollowTheRequests(lib, generated, s0, requests, id);
    accept := EntryWasConfirmed(lib, local, Opened(s0.file, generated).trusted, requests, id);
    start := OpenPairingWasStarted(lib, local, requests[..accept], id);
    OpenPairingNamesThePeer(lib, local, requests[..accept], id);
    CodeSpellsTheDigest(lib, local, StartedPeer(lib, local, requests[start]).value);
    forall k | start < k < accept ensures !ConcernsId(lib, local, requests[k], id) {
      assert requests[k] == requests[..accept][k];
    }
  }

  lemma {:induction false} EntryWasConfirmed(
    lib: Library, local: DeviceIdentity, initial: seq<StoredTrustedPeer>, requests: seq<Request>, id: string)
    returns (accept: nat)
    requires var entry := TrustedAfter(lib, local, initial, requests, id);
      entry.Some? && entry != Lookup(initial, id)
    ensures accept < |requests| && Confirms(lib, local, requests[..accept], requests[accept], id)
    ensures TrustedAfter(lib, local, initial, requests, id)
         == Some(FromIdentity(lib, OpenPairing(lib, local, requests[..accept], id).value))
  {
    var n := |requests| - 1;
    if Confirms(lib, local, requests[..n], requests[n], id) {
      accept := n;
    } else {
      accept := EntryWasConfirmed(lib, local, initial, requests[..n], id);
      assert requests[..n][..accept] == requests[..accept];
    }
  }

  // The local device never becomes its own trusted peer.
  lemma {:induction false} LocalDeviceIsNeverTrusted(
    lib: Library, generated: DeviceIdentity, s0: PairingState, requests: seq<Request>)
    requires s0.pending == map[] && UniqueIds(Opened(s0.file, generated).trusted)
    requires Lookup(Opened(s0.file, generated).trusted, Opened(s0.file, generated).local.deviceId).None?
    ensures var final := Opened(Run(lib, generated, s0, requests).file, generated);
      final.local == Opened(s0.file, generated).local && Lookup(final.trusted, final.local.deviceId).None?
  {
    var local := Opened(s0.file, generated).local;
    RunsFollowTheRequests(lib, generated, s0, requests, local.deviceId);
    if Lookup(Opened(Run(lib, generated, s0, requests).file, generated).trusted, local.deviceId).Some? {
      var _, _ := TrustNeedsTheMatchingCode(lib, generated, s0, requests, local.deviceId);
    }
  }

  // Feeding the result of a start back to accept always succeeds: the peer is trusted, loads back
  // as the identity of the document, and is no longer pending.
  lemma {:induction false} StartThenAcceptTrustsThePeer(
    lib: Library, generated: DeviceIdentity, s: PairingState, document: string)
    requires StartStep(lib, generated, s, document).1.Ok?
    requires KeyRoundTrips(lib, StartStep(lib, generated, s, document).1.value.peer.publicKey)
    ensures var (started, pairing) := StartStep(lib, generated, s, document);
      var peer := pairing.value.peer;
      var (accepted, result) := AcceptStep(lib, generated, started, peer.peerId, pairing.value.code);
      && result == Ok(peer)
      && accepted.pending == s.pending - {peer.peerId}
      && accepted.file.Some?
      && AsMap(accepted.file.value.trusted)
         == AsMap(Opened(s.file, generated).trusted)[peer.peerId := FromIdentity(lib, peer)]
    ensures var peer := StartStep(lib, generated, s, document).1.value.peer;
      IntoTrustedPeer(lib, FromIdentity(lib, peer)) == Ok(peer)
  {
    var (started, pairing) := StartStep(lib, generated, s, document);
    var peer := pairing.value.peer;
    var onDisk := Opened(s.file, generated);
    assert StartedPeer(lib, onDisk.local, Start(document)) == Some(peer);
    StartedPeerIsForeign(lib, onDisk.local, Start(document));
    DocumentIdentitiesSurviveStorage(lib, lib.parseDocument(Text.Trim(document)).value);
    StartActsExactlyOnAPeer(lib, generated, s, document);
    AcceptingTheCode(lib, generated, started, peer);
    SavingUpdatesTheMap(onDisk.trusted, FromIdentity(lib, peer));
    Unfiled(s.pending, peer.peerId, pairing.value);
  }

  lemma {:induction false} Unfiled(pending: map<string, PendingPairing>, id: string, pairing: PendingPairing)
    ensures pending[id := pairing] - {id} == pending - {id}
  {
  }

  lemma {:induction false} AcceptingTheCode(
    lib: Library, generated: DeviceIdentity, s: PairingState, peer: TrustedPeerIdentity)
    requires var onDisk := Opened(s.file, generated);
      peer.peerId in s.pending && s.pending[peer.peerId] == PendingPairing(peer, Code(lib, onDisk.local, peer))
    requires peer.peerId != "" && Text.Trim(peer.peerId) == peer.peerId
    ensures var onDisk := Opened(s.file, generated);
      AcceptStep(lib, generated, s, peer.peerId, Code(lib, onDisk.local, peer)) ==
      (PairingState(
         Some(onDisk.(trusted := Saved(onDisk.trusted, FromIdentity(lib, peer)))), s.pending - {peer.peerId}),
       Ok(peer))
  {
    CodesPassTheFormatCheck(lib, Opened(s.file, generated).local, peer);
  }

  // A request that fails trusts nobody and leaves the pending pairings as they were.
  lemma {:induction false} FailedRequestsChangeNothing(
    lib: Library, generated: DeviceIdentity, s: PairingState, document: string, peerId: string, code: string)
    ensures var (after, result) := StartStep(lib, generated, s, document);
      result.Err? ==> after.pending == s.pending && Opened(after.file, generated) == Opened(s.file, generated)
    ensures AcceptStep(lib, generated, s, peerId, code).1.Err? ==> AcceptStep(lib, generated, s, peerId, code).0 == s
    ensures RejectStep(s, peerId).1.Err? ==> RejectStep(s, peerId).0 == s
    ensures RejectStep(s, peerId).0.file == s.file
  {
  }

  // Two genuine devices that start a pairing from each other's documents show the same code when
  // their keys differ, and then only do they hash the same message.
  lemma {:induction false} BothDevicesShowTheSameCode(
    lib: Library, a: DeviceIdentity, b: DeviceIdentity, fromA: string, fromB: string, capsA: u32, capsB: u32)
    requires Genuine(lib, a) && Genuine(lib, b) && a.deviceId != b.deviceId
    requires KeyRoundTrips(lib, a.publicKey) && KeyRoundTrips(lib, b.publicKey)
    requires lib.parseDocument(fromA) == Some(DocumentOf(lib, a, capsA))
    requires lib.parseDocument(fromB) == Some(DocumentOf(lib, b, capsB))
    requires Fits(LocalParty(a)) && Fits(LocalParty(b))
    ensures PeerOf(lib, a, fromB) == Ok(PeerOfDevice(b, capsB)) && PeerOf(lib, b, fromA) == Ok(PeerOfDevice(a, capsA))
    ensures a.publicKey != b.publicKey ==>
      Code(lib, a, PeerOfDevice(b, capsB)) == Code(lib, b, PeerOfDevice(a, capsA))
    ensures Spells(Code(lib, a, PeerOfDevice(b, capsB)), lib, a, PeerOfDevice(b, capsB))
    ensures AlwaysAgree(lib, a, PeerOfDevice(b, capsB), b, PeerOfDevice(a, capsA)) <==> a.publicKey != b.publicKey
    ensures (Message(LocalParty(a), PeerParty(PeerOfDevice(b, capsB)))
             == Message(LocalParty(b), PeerParty(PeerOfDevice(a, capsA)))) <==> a.publicKey != b.publicKey
  {
    OwnDocumentReadsBackExactly(lib, a, capsA);
    OwnDocumentReadsBackExactly(lib, b, capsB);
    MessageIsSymmetricExactly(LocalParty(a), LocalParty(b));
    MessageBindsBothParties(LocalParty(a), LocalParty(b), LocalParty(b), LocalParty(a));
    CodeSpellsTheDigest(lib, a, PeerOfDevice(b, capsB));
    AlwaysAgreeExactly(lib, a, PeerOfDevice(b, capsB), b, PeerOfDevice(a, capsA));
  }

  predicate IsSixDigits(s: string) { |s| == 6 && Decimal.AllDigits(s) }

  // A refusal names what is wrong with the request.
  lemma {:induction false} RefusalsAreTrue(
    lib: Library, generated: DeviceIdentity, s: PairingState, document: string, peerId: string, code: string)
    ensures var local, text := Opened(s.file, generated).local, Text.Trim(document);
      match StartStep(lib, generated, s, document).1
      case Ok(_) => true
      case Err(EmptyDocument) => text == ""
      case Err(UndecodableDocument) => text != "" && lib.parseDocument(text) == None
      case Err(InvalidDocument(error)) =>
        text != "" && lib.parseDocument(text).Some? && IntoTrusted(lib, lib.parseDocument(text).value) == Err(error)
      case Err(OwnIdentity) =>
        && text != "" && lib.parseDocument(text).Some?
        && Text.Trim(lib.parseDocument(text).value.deviceId) == local.deviceId
      case Err(_) => false
    ensures var id, digits := Text.Trim(peerId), Text.Trim(code);
      match AcceptStep(lib, generated, s, peerId, code).1
      case Ok(_) => true
      case Err(EmptyPeerId) => id == ""
      case Err(MalformedCode) => id != "" && !IsSixDigits(digits)
      case Err(NotPending(name)) => id == name != "" && IsSixDigits(digits) && id !in s.pending
      case Err(CodeMismatch) => id in s.pending && IsSixDigits(digits) && s.pending[id].code != digits
      case Err(_) => false
    ensures var id := Text.Trim(peerId);
      match RejectStep(s, peerId).1
      case Ok(name) => name == id && id in s.pending
      case Err(EmptyPeerId) => id == ""
      case Err(NotPending(name)) => id == name != "" && id !in s.pending
      case Err(_) => false
  {
    var digits := Text.Trim(code);
    if Decimal.AllDigits(digits) {
      DigitsAreOneByteEach(digits);
    }
  }
}
