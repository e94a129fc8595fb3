// The six-digit code that two devices compare before trusting each other
// (crates/akraz-identity/src/lib.rs).
module PairingCode {
  import opened Ints
  import opened IdentityStore
  import Decimal
  import Transcript
  import Utf8

  // The UTF-8 bytes of "akraz.pairing.verificationCode.v1".
  const LABEL: seq<byte> := [
    97, 107, 114, 97, 122, 46, 112, 97, 105, 114, 105, 110, 103, 46, 118, 101, 114, 105, 102, 105, 99, 97, 116,
    105, 111, 110, 67, 111, 100, 101, 46, 118, 49]
  const CODE_MODULUS := 1_000_000
  const CODE_LENGTH := 6

  datatype Party = Party(id: string, key: seq<byte>, fingerprint: string)

  function LocalParty(d: DeviceIdentity): Party { Party(d.deviceId, d.publicKey, d.fingerprint) }

  function PeerParty(p: TrustedPeerIdentity): Party { Party(p.peerId, p.publicKey, p.fingerprint) }

  // The order of Rust byte slices.
  predicate LexLe(a: seq<byte>, b: seq<byte>) {
    a == [] || (b != [] && (a[0] < b[0] || (a[0] == b[0] && LexLe(a[1..], b[1..]))))
  }

  lemma {:induction false} LexLeIsATotalOrder(a: seq<byte>, b: seq<byte>)
    ensures LexLe(a, b) || LexLe(b, a)
    ensures LexLe(a, b) && LexLe(b, a) <==> a == b
  {
    if a == [] || b == [] {
    } else {
      LexLeIsATotalOrder(a[1..], b[1..]);
      assert a == [a[0]] + a[1..] && b == [b[0]] + b[1..];
    }
  }

  // The party with the smaller key comes first.
  function Ordered(a: Party, b: Party): (Party, Party) { if LexLe(a.key, b.key) then (a, b) else (b, a) }

  // A component is preceded by its length as a big-endian u32, which saturates.
  function Component(bytes: seq<byte>): seq<byte> {
    Transcript.U32Bytes(if |bytes| <= U32_MAX then |bytes| else U32_MAX) + bytes
  }

  function PartyBytes(p: Party): seq<byte> {
    Component(Utf8.Encode(p.id)) + (Component(p.key) + Component(Utf8.Encode(p.fingerprint)))
  }

  // What is hashed.
  function Message(a: Party, b: Party): seq<byte> {
    LABEL + (PartyBytes(Ordered(a, b).0) + PartyBytes(Ordered(a, b).1))
  }

  function Padded(value: nat): string {
    var digits := Decimal.Print(value);
    if |digits| < CODE_LENGTH then Decimal.Zeros(CODE_LENGTH - |digits|) + digits else digits
  }

  function Code(lib: Library, local: DeviceIdentity, peer: TrustedPeerIdentity): string {
    Padded(lib.digest(Message(LocalParty(local), PeerParty(peer))) % CODE_MODULUS)
  }

  // The hasher the components are fed to.
  class Hasher {
    var input: seq<byte>

    constructor ()
      ensures input == []
    {
      input := [];
    }

    method Update(bytes: seq<byte>)
      modifies this
      ensures input == old(input) + bytes
    {
      input := input + bytes;
    }

    method UpdateComponent(value: seq<byte>)
      modifies this
      ensures input == old(input) + Component(value)
    {
      var length: u32 := if |value| <= U32_MAX then |value| else U32_MAX;
      Update(Transcript.U32Bytes(length));
      Update(value);
    }

    method UpdateParty(p: Party)
      modifies this
      ensures input == old(input) + PartyBytes(p)
    {
      UpdateComponent(Utf8.Encode(p.id));
      UpdateComponent(p.key);
      UpdateComponent(Utf8.Encode(p.fingerprint));
    }
  }

  method PairingVerificationCode(lib: Library, local: DeviceIdentity, peer: TrustedPeerIdentity)
    returns (code: string)
    ensures code == Code(lib, local, peer)
  {
    var first, second := LocalParty(local), PeerParty(peer);
    if !LexLe(local.publicKey, peer.publicKey) {
      first, second := second, first;
    }

    var input := HashInput(first, second);
    code := Padded(lib.digest(input) % CODE_MODULUS);
  }

  method HashInput(first: Party, second: Party) returns (input: seq<byte>)
    ensures input == LABEL + (PartyBytes(first) + PartyBytes(second))
  {
    var hasher := new Hasher();
    hasher.Update(LABEL);
    hasher.UpdateParty(first);
    hasher.UpdateParty(second);
    Associate(LABEL, PartyBytes(first), PartyBytes(second));
    input := hasher.input;
  }

  lemma {:induction false} Associate(a: seq<byte>, b: seq<byte>, c: seq<byte>)
    ensures [] + a + b + c == a + (b + c)
  {
  }

  // ---- What the code stands for ----------------------------------------------------------------

  predicate Fits(p: Party) {
    |Utf8.Encode(p.id)| <= U32_MAX && |p.key| <= U32_MAX && |Utf8.Encode(p.fingerprint)| <= U32_MAX
  }

  lemma {:induction false} ComponentIsPrefixFree(x: seq<byte>, restX: seq<byte>, y: seq<byte>, restY: seq<byte>)
    requires |x| <= U32_MAX && |y| <= U32_MAX
    requires Component(x) + restX == Component(y) + restY
    ensures x == y && restX == restY
  {
    var m := Component(x) + restX;
    assert m[0..4] == Transcript.U32Bytes(|x|) && m[4..] == x + restX;
    assert m == Component(y) + restY;
    assert m[0..4] == Transcript.U32Bytes(|y|) && m[4..] == y + restY;
    Transcript.U32AtU32Bytes(m, 0, |x|);
    Transcript.U32AtU32Bytes(m, 0, |y|);
    assert x == (x + restX)[..|x|] && y == (y + restY)[..|y|];
    assert restX == (x + restX)[|x|..] && restY == (y + restY)[|y|..];
  }

  lemma {:induction false} Regroup(a: seq<byte>, b: seq<byte>, c: seq<byte>, rest: seq<byte>)
    ensures a + (b + c) + rest == a + (b + (c + rest))
  {
  }

  lemma {:induction false} EncodingIsInjective(s: string, t: string)
    requires Utf8.Encode(s) == Utf8.Encode(t)
    ensures s == t
  {
    Utf8.DecodeOfEncode(s);
    Utf8.DecodeOfEncode(t);
  }

  lemma {:induction false} PartyIsPrefixFree(p: Party, restP: seq<byte>, q: Party, restQ: seq<byte>)
    requires Fits(p) && Fits(q)
    requires PartyBytes(p) + restP == PartyBytes(q) + restQ
    ensures p == q && restP == restQ
  {
    var pi, pk, pf := Utf8.Encode(p.id), p.key, Utf8.Encode(p.fingerprint);
    var qi, qk, qf := Utf8.Encode(q.id), q.key, Utf8.Encode(q.fingerprint);
    Regroup(Component(pi), Component(pk), Component(pf), restP);
    Regroup(Component(qi), Component(qk), Component(qf), restQ);
    var p1, q1 := Component(pf) + restP, Component(qf) + restQ;
    ComponentIsPrefixFree(pi, Component(pk) + p1, qi, Component(qk) + q1);
    ComponentIsPrefixFree(pk, p1, qk, q1);
    ComponentIsPrefixFree(pf, restP, qf, restQ);
    EncodingIsInjective(p.id, q.id);
    EncodingIsInjective(p.fingerprint, q.fingerprint);
  }

  // The hashed message determines both identities, up to the order given by the keys.
  lemma {:induction false} MessageBindsBothParties(a: Party, b: Party, c: Party, d: Party)
    requires Fits(a) && Fits(b) && Fits(c) && Fits(d)
    ensures Message(a, b) == Message(c, d) <==> Ordered(a, b) == Ordered(c, d)
  {
    if Message(a, b) == Message(c, d) {
      var (a1, b1) := Ordered(a, b);
      var (c1, d1) := Ordered(c, d);
      var left, right := PartyBytes(a1) + PartyBytes(b1), PartyBytes(c1) + PartyBytes(d1);
      assert left == Message(a, b)[|LABEL|..] && right == Message(c, d)[|LABEL|..];
      PartyIsPrefixFree(a1, PartyBytes(b1), c1, PartyBytes(d1));
      assert PartyBytes(b1) + [] == PartyBytes(b1) && PartyBytes(d1) + [] == PartyBytes(d1);
      PartyIsPrefixFree(b1, [], d1, []);
    }
  }

  // Every hashed message starts with the domain label.
  lemma {:induction false} MessagesAreLabelled(a: Party, b: Party)
    ensures Utf8.Ascii("akraz.pairing.verificationCode.v1") <= Message(a, b)
  {
    assert LABEL == Utf8.Ascii("akraz.pairing.verificationCode.v1");
  }

  // The two devices hash the same message exactly when their keys differ or they are one party.
  lemma {:induction false} MessageIsSymmetricExactly(a: Party, b: Party)
    requires Fits(a) && Fits(b)
    ensures Message(a, b) == Message(b, a) <==> a.key != b.key || a == b
  {
    LexLeIsATotalOrder(a.key, b.key);
    MessageBindsBothParties(a, b, b, a);
  }

  // ---- The printed form ------------------------------------------------------------------------

  function Pow10(k: nat): nat { if k == 0 then 1 else 10 * Pow10(k - 1) }

  lemma {:induction false} PrintLength(n: nat, k: nat)
    requires k > 0 && n < Pow10(k)
    ensures |Decimal.Print(n)| <= k
  {
    if n < 10 {
    } else {
      assert Pow10(1) == 10;
      PrintLength(n / 10, k - 1);
    }
  }

  // A code has six digits, leading zeros included, and spells the value it was made from.
  lemma {:induction false} CodesAreSixDigits(value: nat)
    requires value < CODE_MODULUS
    ensures |Padded(value)| == CODE_LENGTH && Decimal.AllDigits(Padded(value))
    ensures Decimal.Value(Padded(value)) == value
  {
    assert Pow10(6) == CODE_MODULUS by {
      assert Pow10(2) == 100 && Pow10(4) == 100 * Pow10(2);
    }
    PrintLength(value, 6);
    var zeros := CODE_LENGTH - |Decimal.Print(value)|;
    Decimal.ValueOfPaddedPrint(zeros, value);
    assert Decimal.Zeros(0) + Decimal.Print(value) == Decimal.Print(value);
  }

  // ---- What two equal codes mean ---------------------------------------------------------------

  // Six digits that spell the reduced digest of the message that stands for the two parties.
  predicate Spells(code: string, lib: Library, local: DeviceIdentity, peer: TrustedPeerIdentity) {
    && |code| == 6 && Decimal.AllDigits(code)
    && Decimal.Value(code) == lib.digest(Message(LocalParty(local), PeerParty(peer))) % 1_000_000
  }

  lemma {:induction false} CodeSpellsTheDigest(lib: Library, local: DeviceIdentity, peer: TrustedPeerIdentity)
    ensures Spells(Code(lib, local, peer), lib, local, peer)
  {
    CodesAreSixDigits(lib.digest(Message(LocalParty(local), PeerParty(peer))) % CODE_MODULUS);
  }

  // The codes agree whatever the digest function is.
  ghost predicate AlwaysAgree(
    lib: Library, local: DeviceIdentity, peer: TrustedPeerIdentity,
    local': DeviceIdentity, peer': TrustedPeerIdentity)
  {
    forall digest: seq<byte> -> u32 ::
      Code(lib.(digest := digest), local, peer) == Code(lib.(digest := digest), local', peer')
  }

  // Two codes agree under every digest exactly when they stand for the same ordered pair of id, key
  // and fingerprint.
  lemma {:induction false} AlwaysAgreeExactly(
    lib: Library, local: DeviceIdentity, peer: TrustedPeerIdentity,
    local': DeviceIdentity, peer': TrustedPeerIdentity)
    requires Fits(LocalParty(local)) && Fits(PeerParty(peer))
    requires Fits(LocalParty(local')) && Fits(PeerParty(peer'))
    ensures AlwaysAgree(lib, local, peer, local', peer') <==>
      Ordered(LocalParty(local), PeerParty(peer)) == Ordered(LocalParty(local'), PeerParty(peer'))
  {
    var m, m' := Message(LocalParty(local), PeerParty(peer)), Message(LocalParty(local'), PeerParty(peer'));
    MessageBindsBothParties(LocalParty(local), PeerParty(peer), LocalParty(local'), PeerParty(peer'));
    if m != m' {
      DigestThatTellsApart(lib, local, peer, local', peer');
    } else {
      forall digest: seq<byte> -> u32
        ensures Code(lib.(digest := digest), local, peer) == Code(lib.(digest := digest), local', peer')
      {
        CodeOfTheMessage(lib.(digest := digest), local, peer, local', peer');
      }
    }
  }

  lemma {:induction false} DigestThatTellsApart(
    lib: Library, local: DeviceIdentity, peer: TrustedPeerIdentity,
    local': DeviceIdentity, peer': TrustedPeerIdentity)
    requires Message(LocalParty(local), PeerParty(peer)) != Message(LocalParty(local'), PeerParty(peer'))
    ensures !AlwaysAgree(lib, local, peer, local', peer')
  {
    var m, m' := Message(LocalParty(local), PeerParty(peer)), Message(LocalParty(local'), PeerParty(peer'));
    var digest: seq<byte> -> u32 := x => if x == m then 0 else 1;
    assert digest(m) == 0 && digest(m') == 1;
    CodesTellApart(lib.(digest := digest), local, peer, local', peer');
  }

  lemma {:induction false} CodesTellApart(
    lib: Library, local: DeviceIdentity, peer: TrustedPeerIdentity,
    local': DeviceIdentity, peer': TrustedPeerIdentity)
    requires lib.digest(Message(LocalParty(local), PeerParty(peer))) == 0
    requires lib.digest(Message(LocalParty(local'), PeerParty(peer'))) == 1
    ensures Code(lib, local, peer) != Code(lib, local', peer')
  {
    CodeSpellsTheDigest(lib, local, peer);
    CodeSpellsTheDigest(lib, local', peer');
  }

  lemma {:induction false} CodeOfTheMessage(
    lib: Library, local: DeviceIdentity, peer: TrustedPeerIdentity,
    local': DeviceIdentity, peer': TrustedPeerIdentity)
    requires Message(LocalParty(local), PeerParty(peer)) == Message(LocalParty(local'), PeerParty(peer'))
    ensures Code(lib, local, peer) == Code(lib, local', peer')
  {
  }

  // Two devices compare codes, each computed with what it was told about the other. With different
  // ids and keys the codes agree under every digest exactly when both were told the truth.
  lemma {:induction false} SubstitutionIsNoticedExactly(
    lib: Library, a: DeviceIdentity, toldA: TrustedPeerIdentity, b: DeviceIdentity, toldB: TrustedPeerIdentity)
    requires Fits(LocalParty(a)) && Fits(PeerParty(toldA)) && Fits(LocalParty(b)) && Fits(PeerParty(toldB))
    requires toldA.peerId == b.deviceId != a.deviceId == toldB.peerId && a.publicKey != b.publicKey
    ensures AlwaysAgree(lib, a, toldA, b, toldB) <==>
      PeerParty(toldA) == LocalParty(b) && PeerParty(toldB) == LocalParty(a)
  {
    AlwaysAgreeExactly(lib, a, toldA, b, toldB);
    LexLeIsATotalOrder(a.publicKey, b.publicKey);
  }
}
