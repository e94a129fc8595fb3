// The canonical byte form of the signed authentication transcript (crates/akraz-protocol/src/lib.rs).
module Transcript {
  import opened Wrappers
  import opened Ints
  import opened Capabilities
  import Utf8

  // The UTF-8 bytes of "akraz-auth-v1".
  const LABEL: seq<byte> := [97, 107, 114, 97, 122, 45, 97, 117, 116, 104, 45, 118, 49]

  const CANONICAL_VERSION: byte := 1
  const STRING_FIELD_MAX: nat := U16_MAX

  // Nonces and the TLS exporter are 32 bytes.
  type Block = s: seq<byte> | |s| == 32 witness seq(32, _ => 0)

  datatype ProtocolVersion = ProtocolVersion(major: u16, minor: u16)

  const CURRENT_VERSION := ProtocolVersion(1, 5)

  datatype PeerRole = Initiator | Responder {
    function CanonicalByte(): byte { if Initiator? then 1 else 2 }
  }

  datatype AuthTranscript = AuthTranscript(
    localDeviceId: string, remoteDeviceId: string, localNonce: Block, remoteNonce: Block,
    protocol: ProtocolVersion, localCapabilities: CapabilityFlags, remoteCapabilities: CapabilityFlags,
    role: PeerRole, tlsExporter: Block)

  datatype EncodeError = StringFieldTooLong(field: string, max: nat, actual: nat)

  // ---- Encoding --------------------------------------------------------------------------------

  function U16Bytes(v: u16): seq<byte> { [v / 0x100, v % 0x100] }

  function U32Bytes(v: u32): seq<byte> { [v / 0x100_0000, v / 0x1_0000 % 0x100, v / 0x100 % 0x100, v % 0x100] }

  predicate FieldFits(s: string) { |Utf8.Encode(s)| <= STRING_FIELD_MAX }

  function FieldBytes(bytes: seq<byte>): seq<byte>
    requires |bytes| <= STRING_FIELD_MAX
  {
    U16Bytes(|bytes|) + bytes
  }

  predicate Encodable(t: AuthTranscript) { FieldFits(t.localDeviceId) && FieldFits(t.remoteDeviceId) }

  function Head(t: AuthTranscript): seq<byte>
    requires Encodable(t)
  {
    [CANONICAL_VERSION] + FieldBytes(LABEL)
    + FieldBytes(Utf8.Encode(t.localDeviceId)) + FieldBytes(Utf8.Encode(t.remoteDeviceId))
  }

  function Tail(t: AuthTranscript): seq<byte> {
    t.localNonce + t.remoteNonce + U16Bytes(t.protocol.major) + U16Bytes(t.protocol.minor)
    + U32Bytes(t.localCapabilities) + U32Bytes(t.remoteCapabilities) + [t.role.CanonicalByte()] + t.tlsExporter
  }

  // The bytes that are signed.
  function Canonical(t: AuthTranscript): seq<byte>
    requires Encodable(t)
  {
    Head(t) + Tail(t)
  }

  function CapacityHint(t: AuthTranscript): nat {
    1 + 2 + |LABEL| + 2 + |Utf8.Encode(t.localDeviceId)| + 2 + |Utf8.Encode(t.remoteDeviceId)|
    + 32 + 32 + 2 + 2 + 4 + 4 + 1 + 32
  }

  // The allocation estimate of the encoder is the exact length.
  lemma {:induction false} LengthIsTheCapacityHint(t: AuthTranscript)
    requires Encodable(t)
    ensures |Canonical(t)| == CapacityHint(t) == 129 + |Utf8.Encode(t.localDeviceId)| + |Utf8.Encode(t.remoteDeviceId)|
  {
  }

  // The output buffer that the encoder appends to.
  class ByteBuffer {
    var data: seq<byte>

    constructor ()
      ensures data == []
    {
      data := [];
    }

    method Append(bytes: seq<byte>)
      modifies this
      ensures data == old(data) + bytes
    {
      data := data + bytes;
    }

    method WriteLenPrefixedStr(field: string, bytes: seq<byte>) returns (r: Result<(), EncodeError>)
      modifies this
      ensures |bytes| <= STRING_FIELD_MAX ==> r.Ok? && data == old(data) + FieldBytes(bytes)
      ensures |bytes| > STRING_FIELD_MAX ==>
        r == Err(StringFieldTooLong(field, STRING_FIELD_MAX, |bytes|)) && data == old(data)
    {
      if |bytes| > STRING_FIELD_MAX {
        return Err(StringFieldTooLong(field, STRING_FIELD_MAX, |bytes|));
      }
      Append(U16Bytes(|bytes|));
      Append(bytes);
      assert data == old(data) + FieldBytes(bytes);
      r := Ok(());
    }

    // Append the canonical bytes; a device id that is too long fails, the local one first.
    method WriteCanonical(t: AuthTranscript) returns (r: Result<(), EncodeError>)
      modifies this
      ensures r.Ok? <==> Encodable(t)
      ensures r.Ok? ==> data == old(data) + Canonical(t)
      ensures !FieldFits(t.localDeviceId) ==>
        r == Err(StringFieldTooLong("local device id", STRING_FIELD_MAX, |Utf8.Encode(t.localDeviceId)|))
      ensures FieldFits(t.localDeviceId) && !FieldFits(t.remoteDeviceId) ==>
        r == Err(StringFieldTooLong("remote device id", STRING_FIELD_MAX, |Utf8.Encode(t.remoteDeviceId)|))
    {
      Append([CANONICAL_VERSION]);
      var labelled := WriteLenPrefixedStr("label", LABEL);
      assert labelled.Ok?;
      var _ :- WriteLenPrefixedStr("local device id", Utf8.Encode(t.localDeviceId));
      var _ :- WriteLenPrefixedStr("remote device id", Utf8.Encode(t.remoteDeviceId));
      ghost var v, l := [CANONICAL_VERSION], FieldBytes(LABEL);
      ghost var a, c := FieldBytes(Utf8.Encode(t.localDeviceId)), FieldBytes(Utf8.Encode(t.remoteDeviceId));
      assert data == old(data) + Head(t) by {
        Reassociate(old(data), v, l);
        Reassociate(old(data), v + l, a);
        Reassociate(old(data), v + l + a, c);
      }
      WriteTail(t);
      Reassociate(old(data), Head(t), Tail(t));
      r := Ok(());
    }

    method WriteTail(t: AuthTranscript)
      modifies this
      ensures data == old(data) + Tail(t)
    {
      Append(t.localNonce);
      Append(t.remoteNonce);
      Append(U16Bytes(t.protocol.major));
      Append(U16Bytes(t.protocol.minor));
      Append(U32Bytes(t.localCapabilities));
      Append(U32Bytes(t.remoteCapabilities));
      Append([t.role.CanonicalByte()]);
      Append(t.tlsExporter);
    }
  }

  // The domain label of the signed bytes, which come right after the version and are length-prefixed.
  lemma {:induction false} SignedBytesAreLabelled(t: AuthTranscript)
    requires Encodable(t)
    ensures [1, 0, 13] + Utf8.Ascii("akraz-auth-v1") <= Canonical(t)
  {
    assert LABEL == Utf8.Ascii("akraz-auth-v1");
    assert [CANONICAL_VERSION] + FieldBytes(LABEL) == [1, 0, 13] + LABEL;
  }

  // ---- Decoding --------------------------------------------------------------------------------

  function Take(b: seq<byte>, n: nat): Option<(seq<byte>, seq<byte>)> {
    if |b| < n then None else Some((b[..n], b[n..]))
  }

  function TakeField(b: seq<byte>): Option<(seq<byte>, seq<byte>)> {
    var length :- Take(b, 2);
    Take(length.1, U16At(length.0, 0))
  }

  function RoleOf(b: byte): Option<PeerRole> {
    if b == 1 then Some(Initiator) else if b == 2 then Some(Responder) else None
  }

  function U16At(b: seq<byte>, i: nat): u16
    requires i + 2 <= |b|
  {
    b[i] as int * 0x100 + b[i + 1] as int
  }

  function U32At(b: seq<byte>, i: nat): u32
    requires i + 4 <= |b|
  {
    b[i] as int * 0x100_0000 + b[i + 1] as int * 0x1_0000 + b[i + 2] as int * 0x100 + b[i + 3] as int
  }

  // Read one transcript off the front of a byte sequence; the rest is returned untouched.
  function Decode(b: seq<byte>): Option<(AuthTranscript, seq<byte>)> {
    var version :- Take(b, 1);
    var name :- TakeField(version.1);
    var local :- TakeField(name.1);
    var localId :- Utf8.Decode(local.0);
    var remote :- TakeField(local.1);
    var remoteId :- Utf8.Decode(remote.0);
    var tail :- Take(remote.1, TAIL_LENGTH);
    var t :- DecodeTail(localId, remoteId, tail.0);
    if version.0 != [CANONICAL_VERSION] || name.0 != LABEL then None else Some((t, tail.1))
  }

  const TAIL_LENGTH := 109

  function DecodeTail(localId: string, remoteId: string, f: seq<byte>): Option<AuthTranscript>
    requires |f| == TAIL_LENGTH
  {
    var role :- RoleOf(f[76]);
    Some(AuthTranscript(localId, remoteId, f[..32], f[32..64], ProtocolVersion(U16At(f, 64), U16At(f, 66)),
                        U32At(f, 68), U32At(f, 72), role, f[77..]))
  }

  lemma {:induction false} TakeFieldOfFieldBytes(bytes: seq<byte>, rest: seq<byte>)
    requires |bytes| <= STRING_FIELD_MAX
    ensures TakeField(FieldBytes(bytes) + rest) == Some((bytes, rest))
  {
    var b := FieldBytes(bytes) + rest;
    assert b[..2] == U16Bytes(|bytes|) && b[2..] == bytes + rest;
    assert (bytes + rest)[..|bytes|] == bytes && (bytes + rest)[|bytes|..] == rest;
  }

  lemma {:induction false} TailSlices(t: AuthTranscript)
    ensures var f := Tail(t);
      && |f| == TAIL_LENGTH
      && f[..32] == t.localNonce && f[32..64] == t.remoteNonce
      && f[64..66] == U16Bytes(t.protocol.major) && f[66..68] == U16Bytes(t.protocol.minor)
      && f[68..72] == U32Bytes(t.localCapabilities) && f[72..76] == U32Bytes(t.remoteCapabilities)
      && f[76..77] == [t.role.CanonicalByte()] && f[77..] == t.tlsExporter
  {
  }

  lemma {:induction false} U16AtU16Bytes(f: seq<byte>, i: nat, v: u16)
    requires i + 2 <= |f| && f[i..i + 2] == U16Bytes(v)
    ensures U16At(f, i) == v
  {
  }

  lemma {:induction false} U32AtU32Bytes(f: seq<byte>, i: nat, v: u32)
    requires i + 4 <= |f| && f[i..i + 4] == U32Bytes(v)
    ensures U32At(f, i) == v
  {
    var four := f[i..i + 4];
    assert f[i] == four[0] && f[i + 1] == four[1] && f[i + 2] == four[2] && f[i + 3] == four[3];
    assert v / 0x1_0000 == v / 0x100_0000 * 0x100 + four[1];
    assert v / 0x100 == v / 0x1_0000 * 0x100 + four[2];
  }

  lemma {:induction false} DecodeOfTail(t: AuthTranscript)
    ensures |Tail(t)| == TAIL_LENGTH && DecodeTail(t.localDeviceId, t.remoteDeviceId, Tail(t)) == Some(t)
  {
    var f := Tail(t);
    TailSlices(t);
    U16AtU16Bytes(f, 64, t.protocol.major);
    U16AtU16Bytes(f, 66, t.protocol.minor);
    U32AtU32Bytes(f, 68, t.localCapabilities);
    U32AtU32Bytes(f, 72, t.remoteCapabilities);
    assert f[76] == f[76..77][0];
  }

  lemma {:induction false} Reassociate(a: seq<byte>, b: seq<byte>, c: seq<byte>)
    ensures (a + b) + c == a + (b + c)
  {
  }

  // The pieces of an encoding, nested the way they are read.
  lemma {:induction false} CanonicalPieces(t: AuthTranscript, rest: seq<byte>)
    requires Encodable(t)
    ensures Canonical(t) + rest ==
      [CANONICAL_VERSION] + (FieldBytes(LABEL) + (FieldBytes(Utf8.Encode(t.localDeviceId))
        + (FieldBytes(Utf8.Encode(t.remoteDeviceId)) + (Tail(t) + rest))))
  {
    var v, l := [CANONICAL_VERSION], FieldBytes(LABEL);
    var a, c := FieldBytes(Utf8.Encode(t.localDeviceId)), FieldBytes(Utf8.Encode(t.remoteDeviceId));
    Reassociate(Head(t), Tail(t), rest);
    Reassociate(v + l + a, c, Tail(t) + rest);
    Reassociate(v + l, a, c + (Tail(t) + rest));
    Reassociate(v, l, a + (c + (Tail(t) + rest)));
  }

  lemma {:induction false} TakeOf(a: seq<byte>, rest: seq<byte>)
    ensures Take(a + rest, |a|) == Some((a, rest))
  {
  }

  // The decoder recovers every field of an encoded transcript, whatever follows it.
  lemma {:induction false} DecodeOfCanonical(t: AuthTranscript, rest: seq<byte>)
    requires Encodable(t)
    ensures Decode(Canonical(t) + rest) == Some((t, rest))
  {
    var local, remote := Utf8.Encode(t.localDeviceId), Utf8.Encode(t.remoteDeviceId);
    var r3 := Tail(t) + rest;
    var r2 := FieldBytes(remote) + r3;
    var r1 := FieldBytes(local) + r2;
    CanonicalPieces(t, rest);
    TakeOf([CANONICAL_VERSION], FieldBytes(LABEL) + r1);
    TakeFieldOfFieldBytes(LABEL, r1);
    TakeFieldOfFieldBytes(local, r2);
    TakeFieldOfFieldBytes(remote, r3);
    Utf8.DecodeOfEncode(t.localDeviceId);
    Utf8.DecodeOfEncode(t.remoteDeviceId);
    DecodeOfTail(t);
    TakeOf(Tail(t), rest);
  }

  // No encoding is a prefix of another one; in particular the encoding is injective.
  lemma {:induction false} CanonicalIsPrefixFree(t: AuthTranscript, u: AuthTranscript)
    requires Encodable(t) && Encodable(u)
    ensures Canonical(t) <= Canonical(u) ==> t == u
  {
    if Canonical(t) <= Canonical(u) {
      var rest := Canonical(u)[|Canonical(t)|..];
      assert Canonical(u) == Canonical(t) + rest && Canonical(u) == Canonical(u) + [];
      DecodeOfCanonical(t, rest);
      DecodeOfCanonical(u, []);
    }
  }
}
