// Capability flags: a u32 of bits, four of them known (crates/akraz-protocol/src/lib.rs). The bit
// operations of the source on these four bits are written as arithmetic.
module Capabilities {
  import opened Ints

  type CapabilityFlags = u32

  datatype Capability = Pointer | Keyboard | Clipboard | ScreenArrangement {
    function Bit(): u32 {
      match this case Pointer => 1 case Keyboard => 2 case Clipboard => 4 case ScreenArrangement => 8
    }
  }

  predicate Has(flags: CapabilityFlags, c: Capability) {
    match c
    case Pointer => flags % 2 == 1
    case Keyboard => flags / 2 % 2 == 1
    case Clipboard => flags / 4 % 2 == 1
    case ScreenArrangement => flags / 8 % 2 == 1
  }

  // flags |= c
  function With(flags: CapabilityFlags, c: Capability): CapabilityFlags {
    if Has(flags, c) then flags else flags + c.Bit()
  }

  // Only known flags are set.
  predicate IsKnown(flags: CapabilityFlags) { flags < 16 }

  // Wire bits outside the four known ones are dropped: a bitwise and with 0b1111.
  function FromWireBits(bits: u32): CapabilityFlags { bits % 16 }

  // What the peer-session listener supports: Pointer | Keyboard.
  const PEER_SESSION_CAPABILITIES: CapabilityFlags := 3

  // The bitwise and of the listener's flags with another set.
  function SharedWithPeerSession(flags: CapabilityFlags): CapabilityFlags { flags % 4 }

  lemma {:induction false} WithSetsOneFlag(flags: CapabilityFlags, c: Capability, other: Capability)
    ensures Has(With(flags, c), other) == (other == c || Has(flags, other))
    ensures IsKnown(flags) ==> IsKnown(With(flags, c))
  {
    var b0, b1, b2, b3, rest := flags % 2, flags / 2 % 2, flags / 4 % 2, flags / 8 % 2, flags / 16;
    BitsSum(flags);
    if !Has(flags, c) {
      match c
      case Pointer => BitsOf(flags + 1, 1, b1, b2, b3, rest);
      case Keyboard => BitsOf(flags + 2, b0, 1, b2, b3, rest);
      case Clipboard => BitsOf(flags + 4, b0, b1, 1, b3, rest);
      case ScreenArrangement => BitsOf(flags + 8, b0, b1, b2, 1, rest);
    }
  }

  lemma {:induction false} BitsSum(flags: nat)
    ensures flags == flags % 2 + 2 * (flags / 2 % 2) + 4 * (flags / 4 % 2) + 8 * (flags / 8 % 2) + 16 * (flags / 16)
  {
    assert flags / 4 == flags / 2 / 2 && flags / 8 == flags / 4 / 2 && flags / 16 == flags / 8 / 2;
  }

  lemma {:induction false} BitsOf(flags: int, b0: int, b1: int, b2: int, b3: int, rest: int)
    requires 0 <= b0 < 2 && 0 <= b1 < 2 && 0 <= b2 < 2 && 0 <= b3 < 2
    requires flags == b0 + 2 * b1 + 4 * b2 + 8 * b3 + 16 * rest
    ensures flags % 2 == b0 && flags / 2 % 2 == b1 && flags / 4 % 2 == b2 && flags / 8 % 2 == b3 && flags / 16 == rest
  {
    var h1 := b1 + 2 * b2 + 4 * b3 + 8 * rest;
    var h2 := b2 + 2 * b3 + 4 * rest;
    var h3 := b3 + 2 * rest;
    Halve(flags, b0, h1);
    Halve(h1, b1, h2);
    Halve(h2, b2, h3);
    Halve(h3, b3, rest);
    Quarter(flags);
  }

  lemma {:induction false} Halve(n: int, low: int, high: int)
    requires 0 <= low < 2 && n == low + 2 * high
    ensures n % 2 == low && n / 2 == high
  {
  }

  lemma {:induction false} Quarter(n: int)
    ensures n / 4 == n / 2 / 2 && n / 8 == n / 2 / 2 / 2 && n / 16 == n / 2 / 2 / 2 / 2
  {
  }

  lemma {:induction false} FlagsDetermineKnownSets(a: CapabilityFlags, b: CapabilityFlags)
    requires IsKnown(a) && IsKnown(b)
    requires forall c: Capability :: Has(a, c) == Has(b, c)
    ensures a == b
  {
    assert Has(a, Pointer) == Has(b, Pointer);
    assert Has(a, Keyboard) == Has(b, Keyboard);
    assert Has(a, Clipboard) == Has(b, Clipboard);
    assert Has(a, ScreenArrangement) == Has(b, ScreenArrangement);
  }

  // Dropping unknown wire bits keeps every known flag.
  lemma {:induction false} WireBitsKeepKnownFlags(bits: u32, c: Capability)
    ensures IsKnown(FromWireBits(bits)) && Has(FromWireBits(bits), c) == Has(bits, c)
    ensures IsKnown(bits) ==> FromWireBits(bits) == bits
  {
    BitsSum(bits);
    var b0, b1, b2, b3 := bits % 2, bits / 2 % 2, bits / 4 % 2, bits / 8 % 2;
    LowFourBits(bits, b0 + 2 * b1 + 4 * b2 + 8 * b3, bits / 16);
    BitsOf(FromWireBits(bits), b0, b1, b2, b3, 0);
  }

  // What both sides support is what each of them supports.
  lemma {:induction false} SharedFlagsAreCommon(flags: CapabilityFlags, c: Capability)
    ensures Has(SharedWithPeerSession(flags), c) == (Has(flags, c) && Has(PEER_SESSION_CAPABILITIES, c))
    ensures Has(PEER_SESSION_CAPABILITIES, c) <==> c.Pointer? || c.Keyboard?
  {
    BitsSum(flags);
    var b0, b1 := flags % 2, flags / 2 % 2;
    LowTwoBits(flags, b0 + 2 * b1, flags / 4 % 2 + 2 * (flags / 8 % 2) + 4 * (flags / 16));
    BitsOf(SharedWithPeerSession(flags), b0, b1, 0, 0, 0);
    BitsOf(PEER_SESSION_CAPABILITIES, 1, 1, 0, 0, 0);
  }

  lemma {:induction false} LowTwoBits(n: nat, low: nat, high: nat)
    requires low < 4 && n == low + 4 * high
    ensures n % 4 == low
  {
  }

  lemma {:induction false} LowFourBits(n: nat, low: nat, high: nat)
    requires low < 16 && n == low + 16 * high
    ensures n % 16 == low
  {
  }
}
