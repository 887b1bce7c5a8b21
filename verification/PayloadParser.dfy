/**
 The signer's own reading of a release payload, and its agreement with the release service: which
 manifests of the service the signer accepts.
 */
module PayloadParser {
  import opened Wrappers
  import opened Crypto
  import opened Decimal
  import opened ManifestJson
  import Base64Url
  import FileNames
  import ReleaseVisibility
  import SlugAllocator
  import Text
  import Utf8

  const MAX_INT_32 := 0x7FFF_FFFF

  /******* Reading *******/

  const NAMES: set<string> := {"schemaVersion", "software", "version", "codename", "changelog", "channel",
    "platform", "architecture", "fileName", "sizeBytes", "sha256"}

  predicate HasString(o: JsonObject, name: string) {
    name in o && o[name].JsonString?
  }

  predicate HasNumber(o: JsonObject, name: string) {
    name in o && o[name].JsonNumber?
  }

  /** A missing optional member reads like null. */
  predicate HasOptionalString(o: JsonObject, name: string) {
    name in o ==> o[name].JsonString? || o[name].JsonNull?
  }

  function OptionalString(o: JsonObject, name: string): Option<string> {
    if HasString(o, name) then Some(o[name].s) else None
  }

  predicate HasManifestTypes(o: JsonObject) {
    && HasNumber(o, "schemaVersion") && HasString(o, "software") && HasString(o, "version")
    && HasOptionalString(o, "codename") && HasOptionalString(o, "changelog") && HasString(o, "channel")
    && HasString(o, "platform") && HasString(o, "architecture") && HasString(o, "fileName")
    && HasNumber(o, "sizeBytes") && HasString(o, "sha256")
  }

  /** The schema version and the manifest that the members spell; unknown, repeated, missing and mistyped members are refused. */
  function ReadStruct(members: seq<(string, JsonValue)>): Option<(nat, Manifest)> {
    var o := Overlay(map[], members);
    if !DistinctNames(members) || (exists i | 0 <= i < |members| :: members[i].0 !in NAMES) || !HasManifestTypes(o) then None
    else Some((o["schemaVersion"].n,
               Manifest(o["software"].s, o["version"].s, OptionalString(o, "codename"), OptionalString(o, "changelog"),
                        o["channel"].s, o["platform"].s, o["architecture"].s, o["fileName"].s, o["sizeBytes"].n,
                        o["sha256"].s)))
  }

  /** The same from an array of the eleven members' values in the order of their declaration. */
  function ReadTuple(v: seq<JsonValue>): Option<(nat, Manifest)> {
    if |v| == 11
       && v[0].JsonNumber? && v[1].JsonString? && v[2].JsonString? && !v[3].JsonNumber? && !v[4].JsonNumber? && v[5].JsonString?
       && v[6].JsonString? && v[7].JsonString? && v[8].JsonString? && v[9].JsonNumber? && v[10].JsonString? then
      Some((v[0].n, Manifest(v[1].s, v[2].s, TextOf(v[3]), TextOf(v[4]), v[5].s, v[6].s, v[7].s, v[8].s, v[9].n, v[10].s)))
    else None
  }

  function TextOf(v: JsonValue): Option<string> {
    if v.JsonString? then Some(v.s) else None
  }

  /** A derived deserializer takes a struct from an object, or from an array. */
  function ReadManifest(b: Bytes): Option<(nat, Manifest)> {
    var text := Utf8.Decode(b);
    if text.None? then None
    else
      var members, elements := ReadText(text.value), ReadArray(text.value);
      if members.Some? then ReadStruct(members.value)
      else if elements.Some? then ReadTuple(elements.value)
      else None
  }

  /******* Checks *******/

  predicate IsVersionPart(p: string) {
    && p != ""
    && (|p| == 1 || p[0] != '0')
    && AllDigits(p)
    && Number(p) <= MAX_INT_32
  }

  predicate IsVersion(version: string) {
    var parts := Text.Split(version, '.');
    |parts| == 3 && forall i | 0 <= i < 3 :: IsVersionPart(parts[i])
  }

  /** A control character of Unicode. */
  predicate IsControl(c: char) {
    c < ' ' || '\U{7F}' <= c <= '\U{9F}'
  }

  predicate HasControl(s: string) {
    exists i | 0 <= i < |s| :: IsControl(s[i])
  }

  function ByteLength(s: string): nat {
    |Utf8.Encode(s)|
  }

  predicate IsTargetName(s: string) {
    s != "" && ByteLength(s) <= 100 && !HasControl(s)
  }

  predicate IsFileName(s: string) {
    && s != ""
    && ByteLength(s) <= 500
    && forall i | 0 <= i < |s| :: !(IsControl(s[i]) || s[i] == '/' || s[i] == '\\')
  }

  predicate IsChannel(s: string) {
    s == "stable" || s == "beta" || s == "dev" || s == "staging"
  }

  predicate Supported(schemaVersion: nat, m: Manifest, product: string) {
    && schemaVersion == 1
    && SlugAllocator.ValidSlug(product)
    && m.software == product
    && IsVersion(m.version)
    && IsChannel(m.channel)
    && IsTargetName(m.platform) && IsTargetName(m.architecture)
    && IsFileName(m.fileName)
    && m.sizeBytes <= MAX_SAFE_INTEGER
    && ReleaseVisibility.IsHex64(m.sha256)
    && (m.codename.Some? ==> ByteLength(m.codename.value) <= 1024)
    && (m.changelog.Some? ==> ByteLength(m.changelog.value) <= 90_000)
  }

  function ParsePayload(payload: string, product: string): Result<(Bytes, Manifest), string> {
    if payload == "" || ByteLength(payload) > Base64Url.MAX_PAYLOAD_LENGTH then Err("Invalid manifest size.")
    else
      var bytes := Base64Url.DecodeStrict(payload);
      if bytes.None? then Err("Invalid base64url payload.")
      else if Base64Url.Encode(bytes.value) != payload then Err("Noncanonical payload.")
      else
        var read := ReadManifest(bytes.value);
        if read.None? then Err("Invalid release manifest.")
        else if !Supported(read.value.0, read.value.1, product) then Err("Unsupported or mismatched release metadata.")
        else Ok((bytes.value, read.value.1))
  }

  /******* What the signer reads from a payload of the service *******/

  lemma {:induction false} AsciiLength(s: string)
    requires forall i | 0 <= i < |s| :: s[i] as int < 0x80
    ensures ByteLength(s) == |s|
  {
    if s != "" {
      assert forall i | 0 <= i < |s[1..]| :: s[1..][i] == s[i + 1];
      AsciiLength(s[1..]);
    }
  }

  predicate Holds(o: JsonObject, name: string, v: JsonValue) {
    name in o && o[name] == v
  }

  lemma MembersOf(m: Manifest)
    ensures forall i | 0 <= i < |Fields(m)| :: Fields(m)[i].0 in NAMES
    ensures
      var o := Overlay(map[], Fields(m));
      && Holds(o, "schemaVersion", JsonNumber(1)) && Holds(o, "software", JsonString(m.software))
      && Holds(o, "version", JsonString(m.version)) && Holds(o, "codename", Nullable(m.codename))
      && Holds(o, "changelog", Nullable(m.changelog)) && Holds(o, "channel", JsonString(m.channel))
      && Holds(o, "platform", JsonString(m.platform)) && Holds(o, "architecture", JsonString(m.architecture))
      && Holds(o, "fileName", JsonString(m.fileName)) && Holds(o, "sizeBytes", JsonNumber(m.sizeBytes))
      && Holds(o, "sha256", JsonString(m.sha256))
  {
    hide Overlay, DistinctNames;
    NamesAreDistinct(m);
    OverlayHolds(map[], Fields(m));
    var f, o := Fields(m), Overlay(map[], Fields(m));
    forall i | 0 <= i < |f|
      ensures Holds(o, f[i].0, f[i].1)
    {
    }
    hide Holds;
    assert Holds(o, f[0].0, f[0].1) && Holds(o, f[1].0, f[1].1) && Holds(o, f[2].0, f[2].1) && Holds(o, f[3].0, f[3].1);
    assert Holds(o, f[4].0, f[4].1) && Holds(o, f[5].0, f[5].1) && Holds(o, f[6].0, f[6].1) && Holds(o, f[7].0, f[7].1);
    assert Holds(o, f[8].0, f[8].1) && Holds(o, f[9].0, f[9].1) && Holds(o, f[10].0, f[10].1);
  }

  lemma ReadFields(m: Manifest)
    ensures ReadStruct(Fields(m)) == Some((1, m))
  {
    hide Overlay, DistinctNames, Fields;
    NamesAreDistinct(m);
    MembersOf(m);
    var o := Overlay(map[], Fields(m));
    assert HasManifestTypes(o);
    assert OptionalString(o, "codename") == m.codename && OptionalString(o, "changelog") == m.changelog;
  }

  /** The payload that the service makes of a manifest is read back by the signer, and refused only for its size or its values. */
  lemma ParseOfPayload(m: Manifest, product: string)
    ensures
      var payload := ReleaseVisibility.Payload(m);
      ParsePayload(payload, product)
      == if |payload| > Base64Url.MAX_PAYLOAD_LENGTH then Err("Invalid manifest size.")
         else if Supported(1, m, product) then Ok((ManifestBytes(m), m))
         else Err("Unsupported or mismatched release metadata.")
  {
    hide Supported, ReadStruct, PrintMembers, Fields, Base64Url.NoLeftover;
    var payload, text := ReleaseVisibility.Payload(m), PrintObject(Fields(m));
    Utf8.LengthBound(text);
    AsciiLength(payload);
    Base64Url.EncodeDecode(ManifestBytes(m));
    Utf8.DecodeEncode(text);
    ReadPrintedText(Fields(m));
    ReadFields(m);
    if |payload| <= Base64Url.MAX_PAYLOAD_LENGTH {
      Base64Url.EncodedIsAccepted(ManifestBytes(m));
    }
  }

  /** A client that reads the bytes with JSON.parse sees the values that the signer checked; an array has no named members. */
  predicate SeesManifest(parsed: Option<JsonObject>, product: string, m: Manifest) {
    parsed.Some? &&
    var o := parsed.value;
    && o.Keys <= NAMES
    && Holds(o, "schemaVersion", JsonNumber(1)) && Holds(o, "software", JsonString(product))
    && Holds(o, "version", JsonString(m.version)) && Holds(o, "channel", JsonString(m.channel))
    && Holds(o, "platform", JsonString(m.platform)) && Holds(o, "architecture", JsonString(m.architecture))
    && Holds(o, "fileName", JsonString(m.fileName)) && Holds(o, "sizeBytes", JsonNumber(m.sizeBytes))
    && Holds(o, "sha256", JsonString(m.sha256))
    && (m.codename.Some? ==> Holds(o, "codename", JsonString(m.codename.value)))
    && (m.changelog.Some? ==> Holds(o, "changelog", JsonString(m.changelog.value)))
  }

  predicate StartsWith(text: Option<string>, c: char) {
    text.Some? && SkipSpace(text.value) != "" && SkipSpace(text.value)[0] == c
  }

  /**
   Of every payload that the signer accepts, a client that reads its bytes with JSON.parse sees
   exactly the values that the signer checked, if and only if the text is an object: its first
   character after white space is a brace. Otherwise it is an array, and the client sees no member.
   */
  lemma ReadersAgreeIff(payload: string, product: string)
    requires ParsePayload(payload, product).Ok?
    ensures
      var (bytes, m) := ParsePayload(payload, product).value;
      && Base64Url.DecodeStrict(payload) == Some(bytes)
      && (SeesManifest(ReadManifestBytes(bytes), product, m) <==> StartsWith(Utf8.Decode(bytes), '{'))
      && (!StartsWith(Utf8.Decode(bytes), '{') <==> StartsWith(Utf8.Decode(bytes), '['))
      && (StartsWith(Utf8.Decode(bytes), '[') ==> ReadManifestBytes(bytes).None?)
  {
    hide ReadMembers, ReadElements, Utf8.Decode, Utf8.Encode, Base64Url.DecodeStrict, Base64Url.Encode, Overlay;
    hide SlugAllocator.ValidSlug, IsVersion, IsChannel, IsTargetName, IsFileName, ReleaseVisibility.IsHex64;
    var bytes := ParsePayload(payload, product).value.0;
    var text := Utf8.Decode(bytes).value;
    if ReadText(text).Some? {
      var members := ReadText(text).value;
      OverlayHolds(map[], members);
      assert forall i | 0 <= i < |members| :: members[i].0 in NAMES;
    }
  }

  /** The values of a manifest in the order of their declaration. */
  function Values(m: Manifest): seq<JsonValue> {
    [JsonNumber(1), JsonString(m.software), JsonString(m.version), Nullable(m.codename), Nullable(m.changelog),
     JsonString(m.channel), JsonString(m.platform), JsonString(m.architecture), JsonString(m.fileName),
     JsonNumber(m.sizeBytes), JsonString(m.sha256)]
  }

  function ArrayPayload(m: Manifest): string {
    Base64Url.Encode(Utf8.Encode(PrintArray(Values(m))))
  }

  /** The signer reads the array back to the manifest; a JSON.parse client reads no object. */
  lemma ReadArrayText(m: Manifest)
    ensures var b := Utf8.Encode(PrintArray(Values(m))); ReadManifest(b) == Some((1, m)) && ReadManifestBytes(b) == None
  {
    hide PrintElements, ReadElements;
    var text := PrintArray(Values(m));
    Utf8.DecodeEncode(text);
    ReadPrintedArray(Values(m));
    SkipNothing(text);
  }

  /** Every supported manifest is accepted as an array too, and then shows a JSON.parse client nothing. */
  lemma ArrayPayloadSplitsReaders(m: Manifest, product: string)
    requires Supported(1, m, product) && |ArrayPayload(m)| <= Base64Url.MAX_PAYLOAD_LENGTH
    ensures ParsePayload(ArrayPayload(m), product) == Ok((Utf8.Encode(PrintArray(Values(m))), m))
    ensures ReadManifestBytes(Utf8.Encode(PrintArray(Values(m)))) == None
  {
    ReadArrayText(m);
    var text := PrintArray(Values(m));
    assert text != "";
    hide Supported, PrintArray, Values, ReadManifest, ReadManifestBytes, Base64Url.NoLeftover;
    Utf8.LengthBound(text);
    AsciiLength(ArrayPayload(m));
    Base64Url.EncodeDecode(Utf8.Encode(text));
    Base64Url.EncodedIsAccepted(Utf8.Encode(text));
  }

  /** A small release of product `p`. */
  function SmallManifest(): Manifest {
    Manifest("p", "1.0.0", None, None, "dev", "linux", "x64", "a", 1, seq(64, _ => '0'))
  }

  lemma SmallVersionIsVersion()
    ensures IsVersion("1.0.0")
  {
    var parts := ["1", "0", "0"];
    assert Text.Join(["0"], '.') == "0";
    assert parts[1..] == ["0", "0"] && ["0", "0"][1..] == ["0"];
    assert Text.Join(["0", "0"], '.') == "0.0";
    assert Text.Join(parts, '.') == "1.0.0";
    Text.SplitJoin(parts, '.');
    assert Number("1") == 1 && Number("0") == 0;
    hide Text.Split, Text.Join;
  }

  lemma SmallNamesFit()
    ensures IsTargetName("linux") && IsTargetName("x64") && IsFileName("a")
  {
    AsciiLength("linux");
    AsciiLength("x64");
    AsciiLength("a");
    hide Utf8.Encode;
  }

  lemma SmallManifestIsSupported()
    ensures Supported(1, SmallManifest(), "p")
  {
    hide IsVersion, IsTargetName, IsFileName;
    SmallVersionIsVersion();
    SmallNamesFit();
  }

  lemma {:induction false} EscapeLength(s: string)
    ensures |Escape(s)| <= 6 * |s|
  {
    if s != "" {
      EscapeLength(s[1..]);
    }
  }

  lemma {:induction false} ElementsLength(values: seq<JsonValue>, longest: nat)
    requires forall i | 0 <= i < |values| :: |PrintValue(values[i])| <= longest
    ensures |PrintElements(values)| <= |values| * (longest + 1) + 1
  {
    hide PrintValue;
    if values != [] {
      assert forall i | 0 <= i < |values[1..]| :: values[1..][i] == values[i + 1];
      ElementsLength(values[1..], longest);
      assert |values| * (longest + 1) == |values[1..]| * (longest + 1) + (longest + 1);
    }
  }

  lemma SmallValuesAreShort(i: nat)
    requires i < |Values(SmallManifest())|
    ensures |PrintValue(Values(SmallManifest())[i])| <= 386
  {
    var v := Values(SmallManifest())[i];
    if v.JsonString? {
      assert |v.s| <= 64;
      hide SmallManifest, Values;
      EscapeLength(v.s);
    }
  }

  lemma SmallPayloadFits()
    ensures |ArrayPayload(SmallManifest())| <= Base64Url.MAX_PAYLOAD_LENGTH
  {
    var values := Values(SmallManifest());
    assert |values| == 11;
    hide PrintValue, Values, SmallManifest, PrintElements;
    forall i | 0 <= i < |values|
      ensures |PrintValue(values[i])| <= 386
    {
      SmallValuesAreShort(i);
    }
    ElementsLength(values, 386);
    Utf8.LengthBound(PrintArray(values));
  }

  /** A concrete payload that the signer accepts and a JSON.parse client cannot read. */
  lemma ReadersCanDiffer()
    ensures
      var payload := ArrayPayload(SmallManifest());
      && ParsePayload(payload, "p").Ok?
      && !SeesManifest(ReadManifestBytes(ParsePayload(payload, "p").value.0), "p", ParsePayload(payload, "p").value.1)
  {
    SmallManifestIsSupported();
    SmallPayloadFits();
    hide Supported, ArrayPayload, SmallManifest, ParsePayload, ReadManifestBytes, PrintArray, Values;
    ArrayPayloadSplitsReaders(SmallManifest(), "p");
  }
}
