// The DNS-SD TXT record that a device advertises (crates/akraz-discovery/src/lib.rs); the
// key=value form is section 6 of RFC 6763.
module Discovery {
  import opened Wrappers
  import opened Ints
  import opened Capabilities
  import opened Decimal
  import opened Text

  const TXT_VERSION: u16 := 1

  const VERSION_KEY := "v"
  const DEVICE_ID_KEY := "device_id"
  const DISPLAY_NAME_KEY := "display_name"
  const PUBLIC_KEY_KEY := "identity_public_key"
  const FINGERPRINT_KEY := "fingerprint"
  const CAPABILITIES_KEY := "caps"
  const BUILD_KEY := "build"

  datatype TxtRecord = TxtRecord(
    version: u16, deviceId: string, displayName: Option<string>, identityPublicKey: Option<string>,
    fingerprint: Option<string>, capabilities: CapabilityFlags, buildVersion: string)

  datatype TxtError =
    | MissingField(key: string) | DuplicateField(key: string)
    | MalformedEntry(entry: string) | EmptyKey(entry: string)
    | InvalidVersion(value: string) | UnsupportedVersion(version: u16)
    | InvalidToken(value: string) | InvalidDisplayName(value: string)
    | InvalidCapability(value: string)

  type Fields = map<string, string>

  // ---- Building --------------------------------------------------------------------------------

  datatype Field = Field(key: string, value: string)

  function Entry(f: Field): string { f.key + "=" + f.value }

  function CapabilityName(c: Capability): string {
    match c
    case Pointer => "pointer"
    case Keyboard => "keyboard"
    case Clipboard => "clipboard"
    case ScreenArrangement => "screen-layout"
  }

  const CAPABILITY_ORDER: seq<Capability> := [Pointer, Keyboard, Clipboard, ScreenArrangement]

  function NameIf(flags: CapabilityFlags, c: Capability): seq<string> {
    if Has(flags, c) then [CapabilityName(c)] else []
  }

  function NamesOf(flags: CapabilityFlags, order: seq<Capability>): seq<string> {
    if order == [] then []
    else NameIf(flags, order[0]) + NamesOf(flags, order[1..])
  }

  function Optional(key: string, value: Option<string>): seq<Field> {
    match value case None => [] case Some(v) => [Field(key, v)]
  }

  // The fields of a record, in the order they are advertised.
  function FieldsOf(r: TxtRecord): seq<Field> {
    [Field(VERSION_KEY, Print(r.version)), Field(DEVICE_ID_KEY, r.deviceId),
     Field(CAPABILITIES_KEY, Join(NamesOf(r.capabilities, CAPABILITY_ORDER), ',')), Field(BUILD_KEY, r.buildVersion)]
    + Optional(DISPLAY_NAME_KEY, r.displayName)
    + Optional(PUBLIC_KEY_KEY, r.identityPublicKey)
    + Optional(FINGERPRINT_KEY, r.fingerprint)
  }

  function Entries(fields: seq<Field>): seq<string> {
    seq(|fields|, i requires 0 <= i < |fields| => Entry(fields[i]))
  }

  function Build(r: TxtRecord): seq<string> { Entries(FieldsOf(r)) }

  method CapabilityNames(flags: CapabilityFlags) returns (names: seq<string>)
    ensures names == NamesOf(flags, CAPABILITY_ORDER)
  {
    names := [];
    if Has(flags, Pointer) { names := names + ["pointer"]; }
    if Has(flags, Keyboard) { names := names + ["keyboard"]; }
    if Has(flags, Clipboard) { names := names + ["clipboard"]; }
    if Has(flags, ScreenArrangement) { names := names + ["screen-layout"]; }
    NamesUnfold(flags);
  }

  method BuildDiscoveryTxtRecord(r: TxtRecord) returns (entries: seq<string>)
    ensures entries == Build(r)
  {
    var names := CapabilityNames(r.capabilities);
    entries := [
      VERSION_KEY + "=" + Print(r.version), DEVICE_ID_KEY + "=" + r.deviceId,
      CAPABILITIES_KEY + "=" + Join(names, ','), BUILD_KEY + "=" + r.buildVersion];
    if r.displayName.Some? { entries := entries + [DISPLAY_NAME_KEY + "=" + r.displayName.value]; }
    if r.identityPublicKey.Some? { entries := entries + [PUBLIC_KEY_KEY + "=" + r.identityPublicKey.value]; }
    if r.fingerprint.Some? { entries := entries + [FINGERPRINT_KEY + "=" + r.fingerprint.value]; }
  }

  // ---- Parsing ---------------------------------------------------------------------------------

  function ParseEntry(entry: string): Result<Field, TxtError> {
    match SplitOnce(entry, '=')
    case None => Err(MalformedEntry(entry))
    case Some((key, value)) =>
      if Trim(key) == "" then Err(EmptyKey(entry)) else Ok(Field(Lower(Trim(key)), Trim(value)))
  }

  function Collect(entries: seq<string>, fields: Fields): Result<Fields, TxtError> {
    if entries == [] then Ok(fields)
    else
      var f :- ParseEntry(entries[0]);
      if f.key in fields then Err(DuplicateField(f.key)) else Collect(entries[1..], fields[f.key := f.value])
  }

  method CollectTxtFields(entries: seq<string>) returns (r: Result<Fields, TxtError>)
    ensures r == Collect(entries, map[])
  {
    var fields: Fields := map[];
    var i := 0;
    assert entries[0..] == entries;
    while i < |entries|
      invariant 0 <= i <= |entries|
      invariant Collect(entries, map[]) == Collect(entries[i..], fields)
    {
      assert entries[i..][0] == entries[i] && entries[i..][1..] == entries[i + 1..];
      var split := SplitOnce(entries[i], '=');
      if split.None? {
        return Err(MalformedEntry(entries[i]));
      }
      var key := Trim(split.value.0);
      if key == "" {
        return Err(EmptyKey(entries[i]));
      }
      var normalizedKey := Lower(key);
      if normalizedKey in fields {
        return Err(DuplicateField(normalizedKey));
      }
      fields := fields[normalizedKey := Trim(split.value.1)];
      i := i + 1;
    }
    r := Ok(fields);
  }

  function Required(fields: Fields, key: string): Result<string, TxtError> {
    if key in fields then Ok(fields[key]) else Err(MissingField(key))
  }

  function NormalizeToken(value: string): Result<string, TxtError> {
    var v := Trim(value);
    if v == "" || (exists c :: c in v && IsWhitespace(c)) || (exists c :: c in v && IsControl(c))
    then Err(InvalidToken(v)) else Ok(v)
  }

  function NormalizeDeviceId(value: string): Result<string, TxtError> {
    var id :- NormalizeToken(value);
    if ':' in id || '@' in id then Err(InvalidToken(id)) else Ok(id)
  }

  function NormalizeDisplayName(value: string): Result<string, TxtError> {
    var v := Trim(value);
    if exists c :: c in v && IsControl(c) then Err(InvalidDisplayName(v)) else Ok(v)
  }

  function OptionalToken(fields: Fields, key: string): Result<Option<string>, TxtError> {
    if key !in fields then Ok(None)
    else
      var v :- NormalizeToken(fields[key]);
      Ok(Some(v))
  }

  function OptionalDisplayName(fields: Fields): Result<Option<string>, TxtError> {
    if DISPLAY_NAME_KEY !in fields then Ok(None)
    else
      var v :- NormalizeDisplayName(fields[DISPLAY_NAME_KEY]);
      Ok(if v == "" then None else Some(v))
  }

  function CapabilityOf(name: string): Option<Capability> {
    if name == "pointer" then Some(Pointer)
    else if name == "keyboard" then Some(Keyboard)
    else if name == "clipboard" then Some(Clipboard)
    else if name == "screen-layout" || name == "screen_layout" then Some(ScreenArrangement)
    else None
  }

  function AddCapabilities(pieces: seq<string>, flags: CapabilityFlags): Result<CapabilityFlags, TxtError> {
    if pieces == [] then Ok(flags)
    else
      match CapabilityOf(Trim(pieces[0]))
      case None => Err(InvalidCapability(if Trim(pieces[0]) == "" then pieces[0] else Trim(pieces[0])))
      case Some(c) => AddCapabilities(pieces[1..], With(flags, c))
  }

  function ParseCapabilities(value: string): Result<CapabilityFlags, TxtError> {
    AddCapabilities(Split(value, ','), 0)
  }

  method ParseCapabilityList(value: string) returns (r: Result<CapabilityFlags, TxtError>)
    ensures r == ParseCapabilities(value)
  {
    var capabilities: CapabilityFlags := 0;
    var sawCapability := false;
    var pieces := Split(value, ',');
    var i := 0;
    assert pieces[0..] == pieces;
    while i < |pieces|
      invariant 0 <= i <= |pieces|
      invariant ParseCapabilities(value) == AddCapabilities(pieces[i..], capabilities)
      invariant sawCapability == (i > 0)
    {
      assert pieces[i..][0] == pieces[i] && pieces[i..][1..] == pieces[i + 1..];
      var capability := Trim(pieces[i]);
      if capability == "" {
        return Err(InvalidCapability(pieces[i]));
      }
      sawCapability := true;
      match CapabilityOf(capability) {
        case None => return Err(InvalidCapability(capability));
        case Some(c) => capabilities := With(capabilities, c);
      }
      i := i + 1;
    }

    // Splitting always yields a piece, so the source's empty-list error cannot be reached.
    assert sawCapability;
    r := Ok(capabilities);
  }

  function VersionOf(fields: Fields): Result<u16, TxtError> {
    var text :- Required(fields, VERSION_KEY);
    match ParseU16(text)
    case None => Err(InvalidVersion(text))
    case Some(version) => if version != TXT_VERSION then Err(UnsupportedVersion(version)) else Ok(version)
  }

  function DeviceIdOf(fields: Fields): Result<string, TxtError> {
    var text :- Required(fields, DEVICE_ID_KEY);
    NormalizeDeviceId(text)
  }

  function CapabilitiesOf(fields: Fields): Result<CapabilityFlags, TxtError> {
    var text :- Required(fields, CAPABILITIES_KEY);
    ParseCapabilities(text)
  }

  function BuildOf(fields: Fields): Result<string, TxtError> {
    var text :- Required(fields, BUILD_KEY);
    NormalizeToken(text)
  }

  function ParseFields(fields: Fields): Result<TxtRecord, TxtError> {
    var version :- VersionOf(fields);
    var deviceId :- DeviceIdOf(fields);
    var displayName :- OptionalDisplayName(fields);
    var publicKey :- OptionalToken(fields, PUBLIC_KEY_KEY);
    var fingerprint :- OptionalToken(fields, FINGERPRINT_KEY);
    var capabilities :- CapabilitiesOf(fields);
    var build :- BuildOf(fields);
    Ok(TxtRecord(version, deviceId, displayName, publicKey, fingerprint, capabilities, build))
  }

  function Parse(entries: seq<string>): Result<TxtRecord, TxtError> {
    var fields :- Collect(entries, map[]);
    ParseFields(fields)
  }

  method ParseDiscoveryTxtRecord(entries: seq<string>) returns (r: Result<TxtRecord, TxtError>)
    ensures r == Parse(entries)
  {
    var fields :- CollectTxtFields(entries);
    r := ParseFields(fields);
  }

  function WrittenIf(text: string, value: Option<string>): seq<string> {
    match value case None => [] case Some(v) => [text + v]
  }

  // The entries as they are advertised: the required ones in this order, then those that are given.
  lemma {:induction false} BuiltInOrder(r: TxtRecord)
    ensures Build(r) ==
      ["v=" + Print(r.version), "device_id=" + r.deviceId,
       "caps=" + Join(NamesOf(r.capabilities, CAPABILITY_ORDER), ','), "build=" + r.buildVersion]
      + WrittenIf("display_name=", r.displayName) + WrittenIf("identity_public_key=", r.identityPublicKey)
      + WrittenIf("fingerprint=", r.fingerprint)
  {
    var first := FieldsOf(r)[..4];
    var o1, o2 := Optional(DISPLAY_NAME_KEY, r.displayName), Optional(PUBLIC_KEY_KEY, r.identityPublicKey);
    var o3 := Optional(FINGERPRINT_KEY, r.fingerprint);
    assert FieldsOf(r) == first + o1 + o2 + o3;
    EntriesConcat(first + o1 + o2, o3);
    EntriesConcat(first + o1, o2);
    EntriesConcat(first, o1);
    RequiredEntries(r);
    OptionalEntry(DISPLAY_NAME_KEY, "display_name=", r.displayName);
    OptionalEntry(PUBLIC_KEY_KEY, "identity_public_key=", r.identityPublicKey);
    OptionalEntry(FINGERPRINT_KEY, "fingerprint=", r.fingerprint);
  }

  lemma {:induction false} RequiredEntries(r: TxtRecord)
    ensures Entries(FieldsOf(r)[..4]) == [
      "v=" + Print(r.version), "device_id=" + r.deviceId,
      "caps=" + Join(NamesOf(r.capabilities, CAPABILITY_ORDER), ','), "build=" + r.buildVersion]
  {
    assert VERSION_KEY + "=" == "v=" && DEVICE_ID_KEY + "=" == "device_id=";
    assert CAPABILITIES_KEY + "=" == "caps=" && BUILD_KEY + "=" == "build=";
  }

  lemma {:induction false} OptionalEntry(key: string, text: string, value: Option<string>)
    requires key + "=" == text
    ensures Entries(Optional(key, value)) == WrittenIf(text, value)
  {
  }

  lemma {:induction false} EntriesConcat(a: seq<Field>, b: seq<Field>)
    ensures Entries(a + b) == Entries(a) + Entries(b)
  {
  }

  // ---- Capabilities ----------------------------------------------------------------------------

  lemma {:induction false} NamesUnfold(flags: CapabilityFlags)
    ensures NamesOf(flags, CAPABILITY_ORDER) ==
      NameIf(flags, Pointer) + NameIf(flags, Keyboard) + NameIf(flags, Clipboard) + NameIf(flags, ScreenArrangement)
  {
    var last, third := [ScreenArrangement], [Clipboard, ScreenArrangement];
    var second := [Keyboard, Clipboard, ScreenArrangement];
    NamesOfFirst(flags, ScreenArrangement, []);
    NamesOfFirst(flags, Clipboard, last);
    NamesOfFirst(flags, Keyboard, third);
    NamesOfFirst(flags, Pointer, second);
    assert [ScreenArrangement] + [] == last && [Clipboard] + last == third && [Keyboard] + third == second;
    assert [Pointer] + second == CAPABILITY_ORDER;
    NestFour(NameIf(flags, Pointer), NameIf(flags, Keyboard), NameIf(flags, Clipboard),
             NameIf(flags, ScreenArrangement));
  }

  lemma {:induction false} NestFour(a: seq<string>, b: seq<string>, c: seq<string>, d: seq<string>)
    ensures a + (b + (c + (d + []))) == a + b + c + d
  {
  }

  lemma {:induction false} NamesOfFirst(flags: CapabilityFlags, c: Capability, rest: seq<Capability>)
    ensures NamesOf(flags, [c] + rest) == NameIf(flags, c) + NamesOf(flags, rest)
  {
    assert ([c] + rest)[1..] == rest;
  }

  lemma {:induction false} EveryCapabilityIsListed(c: Capability)
    ensures c in CAPABILITY_ORDER
  {
  }

  lemma {:induction false} CapabilityNameIsPlain(c: Capability)
    ensures CapabilityOf(Trim(CapabilityName(c))) == Some(c) && ',' !in CapabilityName(c)
  {
    TrimOfTrimmed(CapabilityName(c));
  }

  function WithAll(flags: CapabilityFlags, from: CapabilityFlags, order: seq<Capability>): CapabilityFlags
    decreases |order|
  {
    if order == [] then flags
    else WithAll(if Has(from, order[0]) then With(flags, order[0]) else flags, from, order[1..])
  }

  lemma {:induction false} AddingNames(flags: CapabilityFlags, from: CapabilityFlags, order: seq<Capability>)
    ensures AddCapabilities(NamesOf(from, order), flags) == Ok(WithAll(flags, from, order))
    decreases |order|
  {
    if order == [] {
    } else {
      var names := NamesOf(from, order);
      if Has(from, order[0]) {
        CapabilityNameIsPlain(order[0]);
        assert names[0] == CapabilityName(order[0]) && names[1..] == NamesOf(from, order[1..]);
        AddingNames(With(flags, order[0]), from, order[1..]);
      } else {
        assert names == NamesOf(from, order[1..]);
        AddingNames(flags, from, order[1..]);
      }
    }
  }

  lemma {:induction false} WithAllHas(
    flags: CapabilityFlags, from: CapabilityFlags, order: seq<Capability>, c: Capability)
    ensures Has(WithAll(flags, from, order), c) <==> Has(flags, c) || (c in order && Has(from, c))
    ensures IsKnown(flags) ==> IsKnown(WithAll(flags, from, order))
    decreases |order|
  {
    if order == [] {
    } else {
      WithSetsOneFlag(flags, order[0], c);
      WithAllHas(if Has(from, order[0]) then With(flags, order[0]) else flags, from, order[1..], c);
      assert c in order <==> c == order[0] || c in order[1..];
    }
  }

  lemma {:induction false} NamesAreSplittable(flags: CapabilityFlags, order: seq<Capability>)
    ensures forall i :: 0 <= i < |NamesOf(flags, order)| ==> ',' !in NamesOf(flags, order)[i]
    ensures NamesOf(flags, order) == [] <==> forall c :: c in order ==> !Has(flags, c)
  {
    if order == [] {
    } else {
      CapabilityNameIsPlain(order[0]);
      NamesAreSplittable(flags, order[1..]);
      assert forall c :: c in order <==> c == order[0] || c in order[1..];
    }
  }

  // The advertised list of a non-empty set of known capabilities parses to that set.
  lemma {:induction false} CapabilitiesRoundTrip(flags: CapabilityFlags)
    requires IsKnown(flags) && flags != 0
    ensures ParseCapabilities(Join(NamesOf(flags, CAPABILITY_ORDER), ',')) == Ok(flags)
  {
    var names := NamesOf(flags, CAPABILITY_ORDER);
    NamesAreSplittable(flags, CAPABILITY_ORDER);
    if names == [] {
      forall c: Capability ensures Has(flags, c) == Has(0, c) {
        EveryCapabilityIsListed(c);
      }
      FlagsDetermineKnownSets(flags, 0);
    }
    SplitOfJoin(names, ',');
    AddingNames(0, flags, CAPABILITY_ORDER);
    var parsed := WithAll(0, flags, CAPABILITY_ORDER);
    forall c: Capability ensures Has(parsed, c) == Has(flags, c) {
      EveryCapabilityIsListed(c);
      WithAllHas(0, flags, CAPABILITY_ORDER, c);
    }
    WithAllHas(0, flags, CAPABILITY_ORDER, Pointer);
    FlagsDetermineKnownSets(parsed, flags);
  }

  lemma {:induction false} AddedCapabilitiesAreKnown(pieces: seq<string>, flags: CapabilityFlags)
    requires IsKnown(flags)
    ensures var r := AddCapabilities(pieces, flags);
      r.Ok? ==> IsKnown(r.value) && r.value >= flags && (pieces != [] ==> r.value != 0)
    decreases |pieces|
  {
    if pieces == [] || CapabilityOf(Trim(pieces[0])).None? {
    } else {
      var c := CapabilityOf(Trim(pieces[0])).value;
      WithSetsOneFlag(flags, c, c);
      AddedCapabilitiesAreKnown(pieces[1..], With(flags, c));
    }
  }
}
