// Building and parsing discovery records are inverse to each other, whatever the order of the
// entries and the letter case of their keys.
module DiscoveryRoundTrip {
  import opened Wrappers
  import opened Capabilities
  import opened Decimal
  import opened Text
  import opened Discovery

  // ---- Normalized records ----------------------------------------------------------------------

  predicate IsToken(s: string) {
    s != "" && forall i :: 0 <= i < |s| ==> !IsWhitespace(s[i]) && !IsControl(s[i])
  }

  predicate IsDisplayName(s: string) {
    s != "" && Trimmed(s) && forall i :: 0 <= i < |s| ==> !IsControl(s[i])
  }

  // What a caller has to hand to the builder.
  predicate Normalized(r: TxtRecord) {
    && r.version == TXT_VERSION
    && IsToken(r.deviceId) && ':' !in r.deviceId && '@' !in r.deviceId
    && (r.displayName.Some? ==> IsDisplayName(r.displayName.value))
    && (r.identityPublicKey.Some? ==> IsToken(r.identityPublicKey.value))
    && (r.fingerprint.Some? ==> IsToken(r.fingerprint.value))
    && IsKnown(r.capabilities) && r.capabilities != 0
    && IsToken(r.buildVersion)
  }

  lemma {:induction false} NormalizeTokenExactly(v: string)
    ensures NormalizeToken(v).Ok? ==> IsToken(NormalizeToken(v).value)
    ensures IsToken(v) ==> Trimmed(v) && NormalizeToken(v) == Ok(v)
  {
  }

  lemma {:induction false} NormalizeDisplayNameExactly(v: string)
    ensures NormalizeDisplayName(v).Ok? && NormalizeDisplayName(v).value != "" ==>
      IsDisplayName(NormalizeDisplayName(v).value)
    ensures IsDisplayName(v) ==> NormalizeDisplayName(v) == Ok(v)
  {
    TrimTrims(v);
    if IsDisplayName(v) {
      TrimOfTrimmed(v);
    }
    if NormalizeDisplayName(v).Ok? {
      var t := Trim(v);
      forall i | 0 <= i < |t| ensures !IsControl(t[i]) {
        assert t[i] in t;
      }
    }
  }

  // Every record that parsing returns is normalized.
  lemma {:induction false} ParsedRecordsAreNormalized(fields: Fields)
    ensures ParseFields(fields).Ok? ==> Normalized(ParseFields(fields).value)
  {
    if ParseFields(fields).Ok? {
      NormalizeTokenExactly(fields[DEVICE_ID_KEY]);
      NormalizeTokenExactly(fields[BUILD_KEY]);
      if DISPLAY_NAME_KEY in fields { NormalizeDisplayNameExactly(fields[DISPLAY_NAME_KEY]); }
      if PUBLIC_KEY_KEY in fields { NormalizeTokenExactly(fields[PUBLIC_KEY_KEY]); }
      if FINGERPRINT_KEY in fields { NormalizeTokenExactly(fields[FINGERPRINT_KEY]); }
      AddedCapabilitiesAreKnown(Split(fields[CAPABILITIES_KEY], ','), 0);
    }
  }

  // ---- Fields of a built record ----------------------------------------------------------------

  // Keys that survive trimming, lower-casing and splitting at the first '='.
  predicate PlainKey(k: string) {
    k != "" && forall i :: 0 <= i < |k| ==> 'a' <= k[i] <= 'z' || k[i] == '_'
  }

  lemma {:induction false} ParseOfEntry(f: Field)
    requires PlainKey(f.key) && Trimmed(f.value)
    ensures ParseEntry(Entry(f)) == Ok(f)
  {
    assert '=' !in f.key;
    SplitOnceOf(f.key, '=', f.value);
    TrimOfTrimmed(f.key);
    TrimOfTrimmed(f.value);
    assert Lower(f.key) == f.key;
  }

  lemma {:induction false} KeysArePlain()
    ensures PlainKey(VERSION_KEY) && PlainKey(DEVICE_ID_KEY) && PlainKey(DISPLAY_NAME_KEY) && PlainKey(PUBLIC_KEY_KEY)
    ensures PlainKey(FINGERPRINT_KEY) && PlainKey(CAPABILITIES_KEY) && PlainKey(BUILD_KEY)
  {
  }

  lemma {:induction false} DigitsAreTrimmed(n: nat)
    ensures Trimmed(Print(n))
  {
  }

  predicate NameLike(s: string) { s != "" && Trimmed(s) }

  lemma {:induction false} NamesAreNameLike(flags: CapabilityFlags, order: seq<Capability>)
    ensures forall i :: 0 <= i < |NamesOf(flags, order)| ==> NameLike(NamesOf(flags, order)[i])
  {
    if order == [] {
    } else {
      assert NameLike(CapabilityName(order[0]));
      NamesAreNameLike(flags, order[1..]);
    }
  }

  lemma {:induction false} JoinIsTrimmed(pieces: seq<string>)
    requires forall i :: 0 <= i < |pieces| ==> NameLike(pieces[i])
    ensures Trimmed(Join(pieces, ','))
    ensures pieces != [] ==> NameLike(Join(pieces, ','))
  {
    if |pieces| <= 1 {
    } else {
      JoinIsTrimmed(pieces[1..]);
      assert NameLike(pieces[0]);
      var rest := Join(pieces[1..], ',');
      var s := pieces[0] + [','] + rest;
      assert s[0] == pieces[0][0] && s[|s| - 1] == rest[|rest| - 1];
    }
  }

  lemma {:induction false} BuiltFieldsParse(r: TxtRecord)
    requires Normalized(r)
    ensures forall f :: f in FieldsOf(r) ==> ParseEntry(Entry(f)) == Ok(f)
  {
    forall f | f in FieldsOf(r) ensures ParseEntry(Entry(f)) == Ok(f) {
      KeysArePlain();
      DigitsAreTrimmed(r.version);
      NamesAreNameLike(r.capabilities, CAPABILITY_ORDER);
      JoinIsTrimmed(NamesOf(r.capabilities, CAPABILITY_ORDER));
      ParseOfEntry(f);
    }
  }

  // ---- Collecting fields -----------------------------------------------------------------------

  function AddFields(fields: seq<Field>, into: Fields): Result<Fields, TxtError> {
    if fields == [] then Ok(into)
    else if fields[0].key in into then Err(DuplicateField(fields[0].key))
    else AddFields(fields[1..], into[fields[0].key := fields[0].value])
  }

  lemma {:induction false} CollectOfEntries(fields: seq<Field>, into: Fields)
    requires forall f :: f in fields ==> ParseEntry(Entry(f)) == Ok(f)
    ensures Collect(Entries(fields), into) == AddFields(fields, into)
    decreases |fields|
  {
    if fields == [] {
    } else {
      var es := Entries(fields);
      assert es[0] == Entry(fields[0]) && es[1..] == Entries(fields[1..]);
      assert fields[0] in fields;
      if fields[0].key !in into {
        CollectOfEntries(fields[1..], into[fields[0].key := fields[0].value]);
      }
    }
  }

  lemma {:induction false} AddFieldsConcat(a: seq<Field>, b: seq<Field>, into: Fields)
    ensures AddFields(a + b, into) ==
      match AddFields(a, into) case Err(e) => Err(e) case Ok(m) => AddFields(b, m)
    decreases |a|
  {
    if a == [] {
      assert a + b == b;
    } else {
      assert (a + b)[1..] == a[1..] + b;
      if a[0].key !in into {
        AddFieldsConcat(a[1..], b, into[a[0].key := a[0].value]);
      }
    }
  }

  lemma {:induction false} AddOne(f: Field, into: Fields)
    requires f.key !in into
    ensures AddFields([f], into) == Ok(into[f.key := f.value])
  {
  }

  function Include(key: string, value: Option<string>, into: Fields): Fields {
    match value case None => into case Some(v) => into[key := v]
  }

  lemma {:induction false} AddOptional(key: string, value: Option<string>, into: Fields)
    requires key !in into
    ensures AddFields(Optional(key, value), into) == Ok(Include(key, value, into))
  {
  }

  // The map that a built record is collected into.
  function FieldMap(r: TxtRecord): Fields {
    var base := map[
      VERSION_KEY := Print(r.version), DEVICE_ID_KEY := r.deviceId,
      CAPABILITIES_KEY := Join(NamesOf(r.capabilities, CAPABILITY_ORDER), ','), BUILD_KEY := r.buildVersion];
    Include(FINGERPRINT_KEY, r.fingerprint,
      Include(PUBLIC_KEY_KEY, r.identityPublicKey,
        Include(DISPLAY_NAME_KEY, r.displayName, base)))
  }

  lemma {:induction false} KeysDiffer()
    ensures |VERSION_KEY| == 1 && |CAPABILITIES_KEY| == 4 && |BUILD_KEY| == 5 && |DEVICE_ID_KEY| == 9
    ensures |FINGERPRINT_KEY| == 11 && |DISPLAY_NAME_KEY| == 12 && |PUBLIC_KEY_KEY| == 19
  {
  }

  lemma {:induction false} AddFour(f1: Field, f2: Field, f3: Field, f4: Field)
    requires f1.key != f2.key && f1.key != f3.key && f1.key != f4.key
    requires f2.key != f3.key && f2.key != f4.key && f3.key != f4.key
    ensures AddFields([f1, f2, f3, f4], map[]) ==
      Ok(map[f1.key := f1.value, f2.key := f2.value, f3.key := f3.value, f4.key := f4.value])
  {
    var m1 := map[f1.key := f1.value];
    var m2 := m1[f2.key := f2.value];
    var m3 := m2[f3.key := f3.value];
    assert [f1, f2, f3, f4] == [f1] + [f2] + [f3] + [f4];
    AddFieldsConcat([f1] + [f2] + [f3], [f4], map[]);
    AddFieldsConcat([f1] + [f2], [f3], map[]);
    AddFieldsConcat([f1], [f2], map[]);
    AddOne(f1, map[]);
    AddOne(f2, m1);
    AddOne(f3, m2);
    AddOne(f4, m3);
  }

  lemma {:induction false} AddFieldsOf(r: TxtRecord)
    ensures AddFields(FieldsOf(r), map[]) == Ok(FieldMap(r))
  {
    KeysDiffer();
    var f1, f2 := Field(VERSION_KEY, Print(r.version)), Field(DEVICE_ID_KEY, r.deviceId);
    var f3 := Field(CAPABILITIES_KEY, Join(NamesOf(r.capabilities, CAPABILITY_ORDER), ','));
    var f4 := Field(BUILD_KEY, r.buildVersion);
    AddFour(f1, f2, f3, f4);
    var base := AddFields([f1, f2, f3, f4], map[]).value;
    var o1, o2 := Optional(DISPLAY_NAME_KEY, r.displayName), Optional(PUBLIC_KEY_KEY, r.identityPublicKey);
    var o3 := Optional(FINGERPRINT_KEY, r.fingerprint);
    var m1 := Include(DISPLAY_NAME_KEY, r.displayName, base);
    var m2 := Include(PUBLIC_KEY_KEY, r.identityPublicKey, m1);
    AddFieldsConcat([f1, f2, f3, f4] + o1 + o2, o3, map[]);
    AddFieldsConcat([f1, f2, f3, f4] + o1, o2, map[]);
    AddFieldsConcat([f1, f2, f3, f4], o1, map[]);
    AddOptional(DISPLAY_NAME_KEY, r.displayName, base);
    AddOptional(PUBLIC_KEY_KEY, r.identityPublicKey, m1);
    AddOptional(FINGERPRINT_KEY, r.fingerprint, m2);
  }

  lemma {:induction false} ParseOfFieldMap(r: TxtRecord)
    requires Normalized(r)
    ensures ParseFields(FieldMap(r)) == Ok(r)
  {
    KeysDiffer();
    ParseInvertsPrint(r.version);
    NormalizeTokenExactly(r.deviceId);
    NormalizeTokenExactly(r.buildVersion);
    CapabilitiesRoundTrip(r.capabilities);
    if r.displayName.Some? { NormalizeDisplayNameExactly(r.displayName.value); }
    if r.identityPublicKey.Some? { NormalizeTokenExactly(r.identityPublicKey.value); }
    if r.fingerprint.Some? { NormalizeTokenExactly(r.fingerprint.value); }
  }

  // ---- Round trips -----------------------------------------------------------------------------

  // A record survives being advertised exactly when it is normalized.
  lemma {:induction false} AdvertisedRecordsParseExactly(r: TxtRecord)
    ensures Parse(Build(r)) == Ok(r) <==> Normalized(r)
  {
    if Normalized(r) {
      BuiltFieldsParse(r);
      CollectOfEntries(FieldsOf(r), map[]);
      AddFieldsOf(r);
      ParseOfFieldMap(r);
    }
    if Parse(Build(r)).Ok? {
      ParsedRecordsAreNormalized(Collect(Build(r), map[]).value);
    }
  }

  // Re-building and re-parsing whatever was parsed gives it back.
  lemma {:induction false} ParsedRecordsAreStable(entries: seq<string>)
    ensures Parse(entries).Ok? ==> Parse(Build(Parse(entries).value)) == Parse(entries)
  {
    if Parse(entries).Ok? {
      ParsedRecordsAreNormalized(Collect(entries, map[]).value);
      AdvertisedRecordsParseExactly(Parse(entries).value);
    }
  }

  // ---- Order and casing ------------------------------------------------------------------------

  // Every entry is well formed and no two have the same key.
  predicate Collectable(entries: seq<string>) {
    && (forall i :: 0 <= i < |entries| ==> ParseEntry(entries[i]).Ok?)
    && (forall i, j :: 0 <= i < j < |entries| ==> KeyOf(entries[i]) != KeyOf(entries[j]))
  }

  function KeyOf(entry: string): Option<string> {
    match ParseEntry(entry) case Ok(f) => Some(f.key) case Err(_) => None
  }

  predicate NewKeys(entries: seq<string>, into: Fields) {
    forall i :: 0 <= i < |entries| ==> KeyOf(entries[i]).Some? ==> KeyOf(entries[i]).value !in into
  }

  lemma {:induction false} CollectsExactly(entries: seq<string>, into: Fields)
    ensures Collect(entries, into).Ok? <==> Collectable(entries) && NewKeys(entries, into)
    decreases |entries|
  {
    if entries == [] || ParseEntry(entries[0]).Err? || ParseEntry(entries[0]).value.key in into {
    } else {
      var f := ParseEntry(entries[0]).value;
      var tail := entries[1..];
      CollectsExactly(tail, into[f.key := f.value]);
      assert forall i :: 1 <= i < |entries| ==> entries[i] == tail[i - 1];
      assert forall i :: 0 <= i < |tail| ==> tail[i] == entries[i + 1];
      assert KeyOf(entries[0]) == Some(f.key);
    }
  }

  // The field of an entry is in the map.
  predicate Recorded(entry: string, m: Fields) {
    match ParseEntry(entry) case Ok(f) => f.key in m && m[f.key] == f.value case Err(_) => false
  }

  lemma {:induction false} CollectedFields(entries: seq<string>, into: Fields)
    requires Collect(entries, into).Ok?
    ensures var m := Collect(entries, into).value;
      && (forall k :: k in into ==> k in m && m[k] == into[k])
      && (forall e :: e in entries ==> Recorded(e, m))
      && (forall k :: k in m ==> k in into || exists e :: e in entries && KeyOf(e) == Some(k))
    decreases |entries|
  {
    if entries == [] {
    } else {
      var f := ParseEntry(entries[0]).value;
      var into' := into[f.key := f.value];
      CollectedFields(entries[1..], into');
      var m := Collect(entries, into).value;
      assert m[f.key] == into'[f.key];
      assert KeyOf(entries[0]) == Some(f.key) && entries[0] in entries;
    }
  }

  lemma {:induction false} CountedOnce(s: seq<string>, x: string)
    requires forall i, j :: 0 <= i < j < |s| ==> s[i] != s[j]
    ensures multiset(s)[x] <= 1
  {
    if s == [] {
    } else {
      assert s == [s[0]] + s[1..];
      CountedOnce(s[1..], x);
      if s[0] == x {
        assert x !in s[1..];
      }
    }
  }

  lemma {:induction false} CountedTwice(s: seq<string>, i: nat, j: nat)
    requires i < j < |s| && s[i] == s[j]
    ensures multiset(s)[s[i]] >= 2
  {
    assert s == s[..i] + [s[i]] + s[i + 1..j] + [s[j]] + s[j + 1..];
  }

  lemma {:induction false} CollectableAnyOrder(a: seq<string>, b: seq<string>)
    requires multiset(a) == multiset(b) && Collectable(a)
    ensures Collectable(b)
  {
    forall i | 0 <= i < |b| ensures ParseEntry(b[i]).Ok? {
      assert b[i] in multiset(b);
      assert b[i] in a;
    }
    forall i, j | 0 <= i < j < |b| ensures KeyOf(b[i]) != KeyOf(b[j]) {
      if b[i] == b[j] {
        CountedTwice(b, i, j);
        CountedOnce(a, b[i]);
        assert false;
      }
      assert b[i] in multiset(b) && b[j] in multiset(b);
      var k, l :| 0 <= k < |a| && 0 <= l < |a| && a[k] == b[i] && a[l] == b[j];
    }
  }

  // Two entry lists that are permutations of each other are collected into the same map.
  lemma {:induction false} CollectAnyOrder(a: seq<string>, b: seq<string>)
    requires multiset(a) == multiset(b) && Collect(a, map[]).Ok?
    ensures Collect(b, map[]) == Collect(a, map[])
  {
    CollectsExactly(a, map[]);
    CollectsExactly(b, map[]);
    CollectableAnyOrder(a, b);
    assert forall e :: e in a <==> e in multiset(a);
    assert forall e :: e in b <==> e in multiset(b);
    CollectedIsIncluded(a, b);
    CollectedIsIncluded(b, a);
    var m, n := Collect(a, map[]).value, Collect(b, map[]).value;
    assert m.Keys == n.Keys;
    assert m == n;
  }

  lemma {:induction false} CollectedIsIncluded(a: seq<string>, b: seq<string>)
    requires Collect(a, map[]).Ok? && Collect(b, map[]).Ok? && forall e :: e in a ==> e in b
    ensures forall k :: k in Collect(a, map[]).value ==>
      k in Collect(b, map[]).value && Collect(b, map[]).value[k] == Collect(a, map[]).value[k]
  {
    var m, n := Collect(a, map[]).value, Collect(b, map[]).value;
    CollectedFields(a, map[]);
    CollectedFields(b, map[]);
    forall k | k in m ensures k in n && n[k] == m[k] {
      var e :| e in a && KeyOf(e) == Some(k);
      assert Recorded(e, m) && Recorded(e, n);
    }
  }

  // The same entry with its key written in another letter case.
  predicate Recased(original: string, recased: string) {
    && SplitOnce(original, '=').Some? && SplitOnce(recased, '=').Some?
    && SameButCase(SplitOnce(original, '=').value.0, SplitOnce(recased, '=').value.0)
    && SplitOnce(original, '=').value.1 == SplitOnce(recased, '=').value.1
  }

  predicate SameButKeyCase(originals: seq<string>, recased: seq<string>) {
    |originals| == |recased| && forall i :: 0 <= i < |originals| ==> Recased(originals[i], recased[i])
  }

  lemma {:induction false} TrimStartOfLower(s: string)
    ensures TrimStart(Lower(s), IsWhitespace) == Lower(TrimStart(s, IsWhitespace))
  {
    if s == "" || !IsWhitespace(s[0]) {
    } else {
      assert Lower(s)[1..] == Lower(s[1..]);
      TrimStartOfLower(s[1..]);
    }
  }

  lemma {:induction false} TrimEndOfLower(s: string)
    ensures TrimEnd(Lower(s), IsWhitespace) == Lower(TrimEnd(s, IsWhitespace))
  {
    if s == "" || !IsWhitespace(s[|s| - 1]) {
    } else {
      assert Lower(s)[..|s| - 1] == Lower(s[..|s| - 1]);
      TrimEndOfLower(s[..|s| - 1]);
    }
  }

  lemma {:induction false} RecasedEntriesParseAlike(original: string, recased: string)
    requires Recased(original, recased)
    ensures ParseEntry(original).Ok? ==> ParseEntry(recased) == ParseEntry(original)
  {
    var key, key' := SplitOnce(original, '=').value.0, SplitOnce(recased, '=').value.0;
    LowerDropsTheCaseExactly(key, key');
    TrimStartOfLower(key);
    TrimStartOfLower(key');
    TrimEndOfLower(TrimStart(key, IsWhitespace));
    TrimEndOfLower(TrimStart(key', IsWhitespace));
    assert Lower(Trim(key)) == Lower(Trim(key'));
    assert |Lower(Trim(key))| == |Trim(key)| && |Lower(Trim(key'))| == |Trim(key')|;
  }

  lemma {:induction false} CollectRecased(originals: seq<string>, recased: seq<string>, into: Fields)
    requires SameButKeyCase(originals, recased)
    ensures Collect(originals, into).Ok? ==> Collect(recased, into) == Collect(originals, into)
    decreases |originals|
  {
    if originals == [] {
    } else {
      RecasedEntriesParseAlike(originals[0], recased[0]);
      if ParseEntry(originals[0]).Ok? {
        var f := ParseEntry(originals[0]).value;
        CollectRecased(originals[1..], recased[1..], into[f.key := f.value]);
      }
    }
  }

  // Whatever parses still parses to the same record with its entries in any order and their keys in
  // any letter case.
  lemma {:induction false} OrderAndCaseAreIrrelevant(entries: seq<string>, recased: seq<string>, received: seq<string>)
    requires SameButKeyCase(entries, recased) && multiset(received) == multiset(recased)
    ensures Parse(entries).Ok? ==> Parse(received) == Parse(entries)
  {
    if Parse(entries).Ok? {
      CollectRecased(entries, recased, map[]);
      CollectAnyOrder(recased, received);
    }
  }

  // A normalized record is recovered from its entries in any order and with its keys in any case.
  lemma {:induction false} RoundTripInAnyOrderAndCase(r: TxtRecord, recased: seq<string>, received: seq<string>)
    requires SameButKeyCase(Build(r), recased) && multiset(received) == multiset(recased)
    ensures Normalized(r) ==> Parse(received) == Ok(r)
  {
    AdvertisedRecordsParseExactly(r);
    OrderAndCaseAreIrrelevant(Build(r), recased, received);
  }
}
