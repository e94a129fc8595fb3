// Which discovery records are accepted, and that every refusal names what is wrong with the entries.
module DiscoveryErrors {
  import opened Wrappers
  import opened Capabilities
  import opened Decimal
  import opened Text
  import opened Discovery
  import opened DiscoveryRoundTrip

  // ---- Capability lists ------------------------------------------------------------------------

  // The accepted names; the last capability has two.
  predicate NamesCapability(piece: string, c: Capability) {
    match c
    case Pointer => Trim(piece) == "pointer"
    case Keyboard => Trim(piece) == "keyboard"
    case Clipboard => Trim(piece) == "clipboard"
    case ScreenArrangement => Trim(piece) == "screen-layout" || Trim(piece) == "screen_layout"
  }

  predicate IsCapabilityName(piece: string) {
    || NamesCapability(piece, Pointer) || NamesCapability(piece, Keyboard)
    || NamesCapability(piece, Clipboard) || NamesCapability(piece, ScreenArrangement)
  }

  predicate IsCapabilityList(pieces: seq<string>) {
    forall i :: 0 <= i < |pieces| ==> IsCapabilityName(pieces[i])
  }

  predicate SomeNames(pieces: seq<string>, c: Capability) {
    exists i :: 0 <= i < |pieces| && NamesCapability(pieces[i], c)
  }

  // The first piece that names no capability, as it is reported.
  predicate IsFirstBadPiece(pieces: seq<string>, reported: string) {
    exists i :: 0 <= i < |pieces| && !IsCapabilityName(pieces[i])
             && (forall j :: 0 <= j < i ==> IsCapabilityName(pieces[j]))
             && reported == if Trim(pieces[i]) == "" then pieces[i] else Trim(pieces[i])
  }

  // A list is accepted exactly if every piece between its commas is a name; it stands for the set of
  // the capabilities that are named.
  lemma {:induction false} CapabilityListsExactly(value: string)
    ensures var pieces, parsed := Split(value, ','), ParseCapabilities(value);
      && (parsed.Ok? <==> IsCapabilityList(pieces))
      && (parsed.Ok? ==>
            && IsKnown(parsed.value) && parsed.value != 0
            && forall c: Capability :: Has(parsed.value, c) <==> SomeNames(pieces, c))
      && (parsed.Err? ==> parsed.error.InvalidCapability? && IsFirstBadPiece(pieces, parsed.error.value))
  {
    AddsNamedCapabilities(Split(value, ','), 0);
    assert forall c: Capability :: !Has(0, c);
    if ParseCapabilities(value).Ok? {
      AddedCapabilitiesAreKnown(Split(value, ','), 0);
    }
  }

  lemma {:induction false} AddsNamedCapabilities(pieces: seq<string>, flags: CapabilityFlags)
    ensures var all := AddCapabilities(pieces, flags);
      && (all.Ok? ==> IsCapabilityList(pieces))
      && (all.Ok? ==> forall c: Capability :: Has(all.value, c) <==> Has(flags, c) || SomeNames(pieces, c))
      && (all.Err? ==> all.error.InvalidCapability? && IsFirstBadPiece(pieces, all.error.value))
    decreases |pieces|
  {
    if pieces == [] {
    } else {
      OneCapabilityName(pieces[0]);
      match CapabilityOf(Trim(pieces[0])) {
        case None =>
        case Some(named) =>
          var rest := pieces[1..];
          AddsNamedCapabilities(rest, With(flags, named));
          assert forall i :: 0 < i < |pieces| ==> pieces[i] == rest[i - 1];
          assert forall i :: 0 <= i < |rest| ==> rest[i] == pieces[i + 1];
          forall c: Capability ensures Has(With(flags, named), c) <==> c == named || Has(flags, c) {
            WithSetsOneFlag(flags, named, c);
          }
      }
    }
  }

  lemma {:induction false} OneCapabilityName(piece: string)
    ensures forall c: Capability :: NamesCapability(piece, c) <==> CapabilityOf(Trim(piece)) == Some(c)
  {
  }

  // ---- Records ---------------------------------------------------------------------------------

  predicate IsDeviceId(s: string) { IsToken(s) && ':' !in s && '@' !in s }

  predicate HasNoControl(s: string) { forall i :: 0 <= i < |s| ==> !IsControl(s[i]) }

  // What a map of fields has to hold.
  predicate Acceptable(m: Fields) {
    && VERSION_KEY in m && ParseU16(m[VERSION_KEY]) == Some(1)
    && DEVICE_ID_KEY in m && IsDeviceId(Trim(m[DEVICE_ID_KEY]))
    && (DISPLAY_NAME_KEY in m ==> HasNoControl(Trim(m[DISPLAY_NAME_KEY])))
    && (PUBLIC_KEY_KEY in m ==> IsToken(Trim(m[PUBLIC_KEY_KEY])))
    && (FINGERPRINT_KEY in m ==> IsToken(Trim(m[FINGERPRINT_KEY])))
    && CAPABILITIES_KEY in m && IsCapabilityList(Split(m[CAPABILITIES_KEY], ','))
    && BUILD_KEY in m && IsToken(Trim(m[BUILD_KEY]))
  }

  // A field that may be missing.
  function Given(m: Fields, key: string): Option<string> { if key in m then Some(Trim(m[key])) else None }

  // Fields are accepted exactly if they are acceptable, and each ends up in its place.
  lemma {:induction false} ParsesExactly(m: Fields)
    ensures ParseFields(m).Ok? <==> Acceptable(m)
    ensures ParseFields(m).Ok? ==>
      var r := ParseFields(m).value;
      && r.version == 1 && r.deviceId == Trim(m[DEVICE_ID_KEY]) && r.buildVersion == Trim(m[BUILD_KEY])
      && r.displayName == (if Given(m, DISPLAY_NAME_KEY) == Some("") then None else Given(m, DISPLAY_NAME_KEY))
      && r.identityPublicKey == Given(m, PUBLIC_KEY_KEY) && r.fingerprint == Given(m, FINGERPRINT_KEY)
      && Ok(r.capabilities) == ParseCapabilities(m[CAPABILITIES_KEY])
  {
    RequiredExactly(m);
    OptionalExactly(m);
    CapabilitiesExactly(m);
  }

  lemma {:induction false} RequiredExactly(m: Fields)
    ensures match VersionOf(m)
      case Ok(version) => VERSION_KEY in m && version == 1 && ParseU16(m[VERSION_KEY]) == Some(1)
      case Err(error) => TrueOfFields(m, error) && !(VERSION_KEY in m && ParseU16(m[VERSION_KEY]) == Some(1))
    ensures match DeviceIdOf(m)
      case Ok(id) => DEVICE_ID_KEY in m && IsDeviceId(id) && id == Trim(m[DEVICE_ID_KEY])
      case Err(error) => TrueOfFields(m, error) && !(DEVICE_ID_KEY in m && IsDeviceId(Trim(m[DEVICE_ID_KEY])))
    ensures match BuildOf(m)
      case Ok(build) => BUILD_KEY in m && IsToken(build) && build == Trim(m[BUILD_KEY])
      case Err(error) => TrueOfFields(m, error) && !(BUILD_KEY in m && IsToken(Trim(m[BUILD_KEY])))
  {
    if DEVICE_ID_KEY in m { TokensExactly(m[DEVICE_ID_KEY]); }
    if BUILD_KEY in m { TokensExactly(m[BUILD_KEY]); }
  }

  lemma {:induction false} OptionalExactly(m: Fields)
    ensures OptionalTokenIsRight(m, PUBLIC_KEY_KEY) && OptionalTokenIsRight(m, FINGERPRINT_KEY)
    ensures match OptionalDisplayName(m)
      case Ok(name) =>
        && (DISPLAY_NAME_KEY in m ==> HasNoControl(Trim(m[DISPLAY_NAME_KEY])))
        && name == if Given(m, DISPLAY_NAME_KEY) == Some("") then None else Given(m, DISPLAY_NAME_KEY)
      case Err(error) =>
        TrueOfFields(m, error) && DISPLAY_NAME_KEY in m && !HasNoControl(Trim(m[DISPLAY_NAME_KEY]))
  {
    if PUBLIC_KEY_KEY in m { TokensExactly(m[PUBLIC_KEY_KEY]); }
    if FINGERPRINT_KEY in m { TokensExactly(m[FINGERPRINT_KEY]); }
    if DISPLAY_NAME_KEY in m { DisplayNamesExactly(m[DISPLAY_NAME_KEY]); }
  }

  predicate OptionalTokenIsRight(m: Fields, key: string) {
    match OptionalToken(m, key)
    case Ok(token) => token == Given(m, key) && (key in m ==> IsToken(Trim(m[key])))
    case Err(error) => TrueOfFields(m, error) && key in m && !IsToken(Trim(m[key]))
  }

  lemma {:induction false} CapabilitiesExactly(m: Fields)
    ensures match CapabilitiesOf(m)
      case Ok(flags) => CAPABILITIES_KEY in m && ParseCapabilities(m[CAPABILITIES_KEY]) == Ok(flags)
      case Err(error) => TrueOfFields(m, error)
    ensures CapabilitiesOf(m).Ok? <==> CAPABILITIES_KEY in m && IsCapabilityList(Split(m[CAPABILITIES_KEY], ','))
  {
    if CAPABILITIES_KEY in m { CapabilityListsExactly(m[CAPABILITIES_KEY]); }
  }

  lemma {:induction false} TokensExactly(value: string)
    ensures NormalizeToken(value) == if IsToken(Trim(value)) then Ok(Trim(value)) else Err(InvalidToken(Trim(value)))
  {
    var v := Trim(value);
    if IsToken(v) {
      assert forall c :: c in v ==> !IsWhitespace(c) && !IsControl(c);
    } else if v != "" {
      var i :| 0 <= i < |v| && (IsWhitespace(v[i]) || IsControl(v[i]));
      assert v[i] in v;
    }
  }

  lemma {:induction false} DisplayNamesExactly(value: string)
    ensures NormalizeDisplayName(value) ==
      if HasNoControl(Trim(value)) then Ok(Trim(value)) else Err(InvalidDisplayName(Trim(value)))
  {
    var v := Trim(value);
    if !HasNoControl(v) {
      var i :| 0 <= i < |v| && IsControl(v[i]);
      assert v[i] in v;
    }
  }

  // ---- Refusals --------------------------------------------------------------------------------

  // What an error says about the fields.
  predicate TrueOfFields(m: Fields, error: TxtError) {
    match error
    case MissingField(key) =>
      key !in m && (key == VERSION_KEY || key == DEVICE_ID_KEY || key == CAPABILITIES_KEY || key == BUILD_KEY)
    case InvalidVersion(value) => VERSION_KEY in m && value == m[VERSION_KEY] && ParseU16(value).None?
    case UnsupportedVersion(version) =>
      VERSION_KEY in m && ParseU16(m[VERSION_KEY]) == Some(version) && version != 1
    case InvalidToken(value) =>
      || (DEVICE_ID_KEY in m && value == Trim(m[DEVICE_ID_KEY]) && !IsDeviceId(value))
      || (!IsToken(value) && (|| Given(m, PUBLIC_KEY_KEY) == Some(value) || Given(m, FINGERPRINT_KEY) == Some(value)
                              || Given(m, BUILD_KEY) == Some(value)))
    case InvalidDisplayName(value) => Given(m, DISPLAY_NAME_KEY) == Some(value) && !HasNoControl(value)
    case InvalidCapability(value) =>
      CAPABILITIES_KEY in m && IsFirstBadPiece(Split(m[CAPABILITIES_KEY], ','), value)
    case _ => false
  }

  lemma {:induction false} FieldErrorsAreTrue(m: Fields)
    ensures ParseFields(m).Err? ==> TrueOfFields(m, ParseFields(m).error)
  {
    RequiredExactly(m);
    OptionalExactly(m);
    CapabilitiesExactly(m);
  }

  // Nothing but white space before the first '='.
  predicate HasBlankKey(entry: string) {
    exists i :: 0 <= i < |entry| && entry[i] == '=' && forall j :: 0 <= j < i ==> IsWhitespace(entry[j])
  }

  // What an error says about the entries.
  predicate TrueOfEntries(entries: seq<string>, error: TxtError) {
    match error
    case MalformedEntry(entry) => entry in entries && '=' !in entry
    case EmptyKey(entry) => entry in entries && HasBlankKey(entry)
    case DuplicateField(key) =>
      exists i, j :: 0 <= i < j < |entries| && KeyOf(entries[i]) == KeyOf(entries[j]) == Some(key)
    case _ => Collect(entries, map[]).Ok? && TrueOfFields(Collect(entries, map[]).value, error)
  }

  // Every refusal names something that is wrong.
  lemma {:induction false} RefusalsAreTrue(entries: seq<string>)
    ensures Parse(entries).Err? ==> TrueOfEntries(entries, Parse(entries).error)
  {
    match Collect(entries, map[])
    case Ok(m) => FieldErrorsAreTrue(m);
    case Err(error) => CollectErrorsAreTrue(entries, map[]);
  }

  lemma {:induction false} CollectErrorsAreTrue(entries: seq<string>, into: Fields)
    requires Collect(entries, into).Err?
    ensures match Collect(entries, into).error
      case DuplicateField(key) =>
        || (key in into && exists j :: 0 <= j < |entries| && KeyOf(entries[j]) == Some(key))
        || TrueOfEntries(entries, DuplicateField(key))
      case MalformedEntry(entry) => TrueOfEntries(entries, MalformedEntry(entry))
      case EmptyKey(entry) => TrueOfEntries(entries, EmptyKey(entry))
      case _ => false
    decreases |entries|
  {
    var first, rest := entries[0], entries[1..];
    EntryErrorsAreTrue(first);
    if ParseEntry(first).Ok? && ParseEntry(first).value.key !in into {
      var f := ParseEntry(first).value;
      CollectErrorsAreTrue(rest, into[f.key := f.value]);
      assert forall j :: 0 <= j < |rest| ==> rest[j] == entries[j + 1];
      match Collect(entries, into).error {
        case DuplicateField(key) =>
          if key == f.key && exists j :: 0 <= j < |rest| && KeyOf(rest[j]) == Some(key) {
            var j :| 0 <= j < |rest| && KeyOf(rest[j]) == Some(key);
            assert KeyOf(entries[0]) == KeyOf(entries[j + 1]) == Some(key);
          }
        case _ =>
      }
    } else if ParseEntry(first).Ok? {
      assert KeyOf(entries[0]) == Some(ParseEntry(first).value.key);
    }
  }

  lemma {:induction false} EntryErrorsAreTrue(entry: string)
    ensures match ParseEntry(entry)
      case Err(MalformedEntry(reported)) => reported == entry && '=' !in entry
      case Err(EmptyKey(reported)) => reported == entry && HasBlankKey(entry)
      case Err(_) => false
      case Ok(_) => true
  {
    SplitOnceExactly(entry, '=');
    if SplitOnce(entry, '=').Some? {
      var (key, value) := SplitOnce(entry, '=').value;
      var lead, trail := TrimExactly(key, IsWhitespace);
      if Trim(key) == "" {
        assert key == lead + trail;
        assert entry[|key|] == '=';
      }
    }
  }

  // ---- The first fault -------------------------------------------------------------------------

  function ErrorOf<T>(r: Result<T, TxtError>): Option<TxtError> { match r case Ok(_) => None case Err(e) => Some(e) }

  // What is wrong with each field, in the order in which they are read.
  function FaultsOf(m: Fields): seq<Option<TxtError>> {
    [ErrorOf(VersionOf(m)), ErrorOf(DeviceIdOf(m)), ErrorOf(OptionalDisplayName(m)),
     ErrorOf(OptionalToken(m, PUBLIC_KEY_KEY)), ErrorOf(OptionalToken(m, FINGERPRINT_KEY)),
     ErrorOf(CapabilitiesOf(m)), ErrorOf(BuildOf(m))]
  }

  // The error of the first field with a fault is reported, and there is none without a fault.
  lemma {:induction false} FirstFaultyFieldIsReported(m: Fields)
    ensures ErrorOf(ParseFields(m)) == FirstOf(FaultsOf(m), 0)
  {
    var faults := FaultsOf(m);
    FirstOfSeven(faults);
    assert ErrorOf(ParseFields(m)) ==
      if faults[0].Some? then faults[0] else if faults[1].Some? then faults[1] else if faults[2].Some? then faults[2]
      else if faults[3].Some? then faults[3] else if faults[4].Some? then faults[4]
      else if faults[5].Some? then faults[5] else faults[6];
  }

  function FirstOf(faults: seq<Option<TxtError>>, i: nat): Option<TxtError>
    requires i <= |faults|
    decreases |faults| - i
  {
    if i == |faults| then None else if faults[i].Some? then faults[i] else FirstOf(faults, i + 1)
  }

  lemma {:induction false} FirstOfSeven(f: seq<Option<TxtError>>)
    requires |f| == 7
    ensures FirstOf(f, 0) ==
      if f[0].Some? then f[0] else if f[1].Some? then f[1] else if f[2].Some? then f[2]
      else if f[3].Some? then f[3] else if f[4].Some? then f[4] else if f[5].Some? then f[5] else f[6]
  {
    assert FirstOf(f, 7) == None && FirstOf(f, 6) == f[6];
    assert FirstOf(f, 5) == if f[5].Some? then f[5] else f[6];
    assert FirstOf(f, 3) == if f[3].Some? then f[3] else if f[4].Some? then f[4] else FirstOf(f, 5);
    assert FirstOf(f, 1) == if f[1].Some? then f[1] else if f[2].Some? then f[2] else FirstOf(f, 3);
  }

  // The error of the first entry that is malformed or repeats a key is reported, whatever follows it.
  lemma {:induction false} FirstFaultyEntryIsReported(entries: seq<string>, into: Fields) returns (n: nat)
    requires Collect(entries, into).Err?
    ensures n < |entries| && Collect(entries[..n], into).Ok?
    ensures var before, entry := Collect(entries[..n], into).value, ParseEntry(entries[n]);
      Collect(entries, into).error == match entry case Err(e) => e case Ok(f) => DuplicateField(f.key)
    ensures ParseEntry(entries[n]).Ok? ==> ParseEntry(entries[n]).value.key in Collect(entries[..n], into).value
    decreases |entries|
  {
    var first := ParseEntry(entries[0]);
    if first.Err? || first.value.key in into {
      n := 0;
    } else {
      var more := into[first.value.key := first.value.value];
      var rest := FirstFaultyEntryIsReported(entries[1..], more);
      n := rest + 1;
      assert entries[..n][0] == entries[0] && entries[..n][1..] == entries[1..][..rest];
    }
  }
}
