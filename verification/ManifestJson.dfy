/**
 The release manifest as JSON text: the compact printer with its fixed member order, a reader of
 flat JSON objects, and the member-by-member comparison of a stored snapshot.
 */
module ManifestJson {
  import opened Wrappers
  import opened Crypto
  import opened Decimal
  import Utf8

  datatype JsonValue = JsonNull | JsonNumber(n: nat) | JsonString(s: string)

  type JsonObject = map<string, JsonValue>

  /******* Printing *******/

  function HexDigit(n: int): char
    requires 0 <= n < 16
  {
    if n < 10 then '0' + n as char else 'a' + (n - 10) as char
  }

  /** One character of a JSON string, escaped as JSON.stringify does (section 7 of RFC 8259). */
  function EscapeChar(c: char): (e: string)
    ensures |e| > 0
  {
    if c == '\"' then "\\\""
    else if c == '\\' then "\\\\"
    else if c as int == 8 then "\\b"
    else if c as int == 12 then "\\f"
    else if c == '\n' then "\\n"
    else if c == '\r' then "\\r"
    else if c == '\t' then "\\t"
    else if c < ' ' then ['\\', 'u', '0', '0', HexDigit(c as int / 16), HexDigit(c as int % 16)]
    else [c]
  }

  function Escape(s: string): string {
    if s == "" then "" else EscapeChar(s[0]) + Escape(s[1..])
  }

  function PrintString(s: string): string {
    "\"" + Escape(s) + "\""
  }

  function PrintValue(v: JsonValue): (s: string)
    ensures |s| > 0 && s[0] !in " \t\n\r"
  {
    match v
    case JsonNull => "null"
    case JsonNumber(n) => Digits(n)
    case JsonString(s) => PrintString(s)
  }

  function PrintMembers(fields: seq<(string, JsonValue)>): string {
    if fields == [] then "}"
    else PrintString(fields[0].0) + ":" + PrintValue(fields[0].1)
         + (if |fields| == 1 then "" else ",") + PrintMembers(fields[1..])
  }

  function PrintObject(fields: seq<(string, JsonValue)>): string {
    "{" + PrintMembers(fields)
  }

  /******* Reading *******/

  function HexValue(c: char): int
  {
    if '0' <= c <= '9' then (c - '0') as int
    else if 'a' <= c <= 'f' then (c - 'a') as int + 10
    else if 'A' <= c <= 'F' then (c - 'A') as int + 10
    else -1
  }

  function Unescape(c: char): Option<char> {
    match c
    case '\"' => Some('\"')
    case '\\' => Some('\\')
    case '/' => Some('/')
    case 'b' => Some(8 as char)
    case 'f' => Some(12 as char)
    case 'n' => Some('\n')
    case 'r' => Some('\r')
    case 't' => Some('\t')
    case _ => None
  }

  /** The number that four hexadecimal digits at a position spell, or -1. */
  function ReadHex(t: string, at: nat): int {
    if at + 4 <= |t| && forall i | at <= i < at + 4 :: HexValue(t[i]) >= 0 then
      ((HexValue(t[at]) * 16 + HexValue(t[at + 1])) * 16 + HexValue(t[at + 2])) * 16 + HexValue(t[at + 3])
    else -1
  }

  /** The scalar value that a pair of UTF-16 surrogates stands for, or -1. */
  function PairValue(high: int, low: int): int {
    if 0xD800 <= high < 0xDC00 && 0xDC00 <= low < 0xE000 then 0x10000 + (high - 0xD800) * 0x400 + (low - 0xDC00) else -1
  }

  /** One string character and the number of text characters it takes; a surrogate escaped alone is refused. */
  function ReadChar(t: string): (r: Option<(char, nat)>)
    ensures r.Some? ==> 0 < r.value.1 <= |t|
  {
    if t == "" || t[0] < ' ' || t[0] == '\"' then None
    else if t[0] != '\\' then Some((t[0], 1))
    else if |t| >= 2 && t[1] != 'u' then
      var c := Unescape(t[1]);
      if c.Some? then Some((c.value, 2)) else None
    else
      var n := ReadHex(t, 2);
      if Utf8.IsScalar(n) then Some((n as char, 6))
      else if |t| >= 12 && t[6] == '\\' && t[7] == 'u' && PairValue(n, ReadHex(t, 8)) >= 0 then
        Some((PairValue(n, ReadHex(t, 8)) as char, 12))
      else None
  }

  /** The rest of a string after its opening quote, and the text after its closing quote. */
  function ReadString(t: string): (r: Option<(string, string)>)
    ensures r.Some? ==> |r.value.1| < |t|
    decreases |t|
  {
    if t != "" && t[0] == '\"' then Some(("", t[1..]))
    else
      var c := ReadChar(t);
      if c.None? then None
      else
        var rest := ReadString(t[c.value.1..]);
        if rest.None? then None else Some(([c.value.0] + rest.value.0, rest.value.1))
  }

  function ReadDigits(t: string): (r: (string, string))
    ensures t == r.0 + r.1 && AllDigits(r.0)
  {
    if t != "" && IsDigit(t[0]) then
      var rest := ReadDigits(t[1..]);
      ([t[0]] + rest.0, rest.1)
    else ("", t)
  }

  function SkipSpace(t: string): (r: string)
    ensures |r| <= |t|
  {
    if t != "" && t[0] in " \t\n\r" then SkipSpace(t[1..]) else t
  }

  function ReadValue(t: string): (r: Option<(JsonValue, string)>)
    ensures r.Some? ==> |r.value.1| < |t|
  {
    if "null" <= t then Some((JsonNull, t[4..]))
    else if t != "" && t[0] == '\"' then
      var s := ReadString(t[1..]);
      if s.None? then None else Some((JsonString(s.value.0), s.value.1))
    else
      var (digits, rest) := ReadDigits(t);
      if digits == "" || (digits[0] == '0' && |digits| > 1) then None
      else Some((JsonNumber(Number(digits)), rest))
  }

  /** One member and the text after it. */
  function ReadMember(t: string): (r: Option<(string, JsonValue, string)>)
    ensures r.Some? ==> |r.value.2| < |t|
  {
    var t := SkipSpace(t);
    if t == "" || t[0] != '\"' then None
    else
      var key := ReadString(t[1..]);
      if key.None? then None
      else
        var t := SkipSpace(key.value.1);
        if t == "" || t[0] != ':' then None
        else
          var value := ReadValue(SkipSpace(t[1..]));
          if value.None? then None else Some((key.value.0, value.value.0, SkipSpace(value.value.1)))
  }

  /** The members up to the closing brace, in the order of the text. */
  function ReadMembers(t: string): Option<seq<(string, JsonValue)>>
    decreases |t|
  {
    var member := ReadMember(t);
    if member.None? then None
    else
      var (key, value, t) := member.value;
      if t != "" && t[0] == ',' then
        var rest := ReadMembers(t[1..]);
        if rest.None? then None else Some([(key, value)] + rest.value)
      else if t != "" && t[0] == '}' && SkipSpace(t[1..]) == "" then Some([(key, value)])
      else None
  }

  /** All members of the text of a flat object. */
  function ReadText(t: string): Option<seq<(string, JsonValue)>> {
    var t := SkipSpace(t);
    if t == "" || t[0] != '{' then None
    else
      var t := SkipSpace(t[1..]);
      if t != "" && t[0] == '}' then
        if SkipSpace(t[1..]) == "" then Some([]) else None
      else ReadMembers(t)
  }

  /** The elements up to the closing bracket. */
  function ReadElements(t: string): Option<seq<JsonValue>>
    decreases |t|
  {
    var value := ReadValue(SkipSpace(t));
    if value.None? then None
    else
      var (v, t) := (value.value.0, SkipSpace(value.value.1));
      if t != "" && t[0] == ',' then
        var rest := ReadElements(t[1..]);
        if rest.None? then None else Some([v] + rest.value)
      else if t != "" && t[0] == ']' && SkipSpace(t[1..]) == "" then Some([v])
      else None
  }

  /** All elements of the text of a flat, non-empty array. */
  function ReadArray(t: string): Option<seq<JsonValue>> {
    var t := SkipSpace(t);
    if t == "" || t[0] != '[' then None else ReadElements(t[1..])
  }

  /** A mapping of names to values; the last of several members with one name wins. */
  function Overlay(seen: JsonObject, fields: seq<(string, JsonValue)>): JsonObject
    decreases |fields|
  {
    if fields == [] then seen else Overlay(seen[fields[0].0 := fields[0].1], fields[1..])
  }

  /** The object that JSON.parse makes of the text. */
  function ReadObject(t: string): Option<JsonObject> {
    var members := ReadText(t);
    if members.None? then None else Some(Overlay(map[], members.value))
  }

  /******* Printing and reading undo each other *******/

  lemma ReadEscapedChar(c: char, rest: string)
    ensures var e := EscapeChar(c); e[0] != '\"' && ReadChar(e + rest) == Some((c, |e|))
  {
  }

  lemma {:induction false} ReadEscaped(s: string, rest: string)
    ensures ReadString(Escape(s) + "\"" + rest) == Some((s, rest))
  {
    hide EscapeChar, ReadChar;
    var t := Escape(s) + "\"" + rest;
    if s == "" {
      assert t[0] == '\"' && t[1..] == rest;
    } else {
      var e, t' := EscapeChar(s[0]), Escape(s[1..]) + "\"" + rest;
      assert t == e + t';
      ReadEscapedChar(s[0], t');
      ReadEscaped(s[1..], rest);
      assert t[|e|..] == t' && t[0] == e[0];
      assert s == [s[0]] + s[1..];
    }
  }

  lemma {:induction false} ReadPrintedDigits(digits: string, rest: string)
    requires AllDigits(digits) && (rest != "" ==> !IsDigit(rest[0]))
    ensures ReadDigits(digits + rest) == (digits, rest)
  {
    if digits == "" {
      assert digits + rest == rest;
    } else {
      assert (digits + rest)[1..] == digits[1..] + rest;
      ReadPrintedDigits(digits[1..], rest);
      assert digits == [digits[0]] + digits[1..];
    }
  }

  lemma ReadPrintedNumber(n: nat, rest: string)
    requires rest != "" ==> !IsDigit(rest[0])
    ensures ReadValue(Digits(n) + rest) == Some((JsonNumber(n), rest))
  {
    hide Digits, Number, ReadDigits;
    var t := Digits(n) + rest;
    assert t[0] == Digits(n)[0];
    NumberOfDigits(n);
    ReadPrintedDigits(Digits(n), rest);
  }

  lemma ReadPrintedValue(v: JsonValue, rest: string)
    requires rest != "" ==> !IsDigit(rest[0])
    ensures ReadValue(PrintValue(v) + rest) == Some((v, rest))
  {
    hide Escape, Digits, ReadString, ReadDigits;
    var t := PrintValue(v) + rest;
    match v
    case JsonNull =>
      assert t[..4] == "null" && t[4..] == rest;
    case JsonNumber(n) =>
      ReadPrintedNumber(n, rest);
    case JsonString(s) =>
      assert t[0] == '\"' && t[1..] == Escape(s) + "\"" + rest;
      ReadEscaped(s, rest);
  }

  lemma SkipNothing(t: string)
    requires t == "" || t[0] !in " \t\n\r"
    ensures SkipSpace(t) == t
  {
  }

  lemma ReadPrintedMember(key: string, v: JsonValue, rest: string)
    requires rest != "" && (rest[0] == ',' || rest[0] == '}')
    ensures ReadMember(PrintString(key) + ":" + PrintValue(v) + rest) == Some((key, v, rest))
  {
    hide Escape, PrintValue, ReadString, ReadValue;
    var t := PrintString(key) + ":" + PrintValue(v) + rest;
    var afterKey := ":" + (PrintValue(v) + rest);
    assert t[0] == '\"' && t[1..] == Escape(key) + "\"" + afterKey;
    ReadEscaped(key, afterKey);
    assert afterKey[1..] == PrintValue(v) + rest;
    ReadPrintedValue(v, rest);
    assert (PrintValue(v) + rest)[0] == PrintValue(v)[0];
    SkipNothing(PrintValue(v) + rest);
  }

  lemma {:induction false} ReadPrintedMembers(fields: seq<(string, JsonValue)>)
    requires fields != []
    ensures ReadMembers(PrintMembers(fields)) == Some(fields)
  {
    hide PrintString, PrintValue, ReadMember;
    var (key, v) := fields[0];
    assert fields == [(key, v)] + fields[1..];
    if |fields| == 1 {
      assert PrintMembers(fields) == PrintString(key) + ":" + PrintValue(v) + "}";
      ReadPrintedMember(key, v, "}");
      assert "}"[1..] == "" && fields == [(key, v)];
    } else {
      var rest := "," + PrintMembers(fields[1..]);
      assert PrintMembers(fields) == PrintString(key) + ":" + PrintValue(v) + rest;
      ReadPrintedMember(key, v, rest);
      assert rest[1..] == PrintMembers(fields[1..]);
      ReadPrintedMembers(fields[1..]);
    }
  }

  /** Reading the compact text of any object gives its members back, whatever the strings contain. */
  lemma ReadPrintedText(fields: seq<(string, JsonValue)>)
    ensures ReadText(PrintObject(fields)) == Some(fields)
  {
    var t := PrintObject(fields);
    assert t[1..] == PrintMembers(fields);
    SkipNothing(t);
    SkipNothing(t[1..]);
    if fields != [] {
      assert PrintMembers(fields)[0] == '\"';
      ReadPrintedMembers(fields);
    }
  }

  function PrintElements(values: seq<JsonValue>): string {
    if values == [] then "]"
    else PrintValue(values[0]) + ((if |values| == 1 then "" else ",") + PrintElements(values[1..]))
  }

  function PrintArray(values: seq<JsonValue>): string {
    "[" + PrintElements(values)
  }

  lemma {:induction false} ReadPrintedElements(values: seq<JsonValue>)
    requires values != []
    ensures ReadElements(PrintElements(values)) == Some(values)
  {
    hide PrintValue, ReadValue;
    var rest := (if |values| == 1 then "" else ",") + PrintElements(values[1..]);
    assert rest[0] == if |values| == 1 then ']' else ',';
    ReadPrintedValue(values[0], rest);
    assert (PrintValue(values[0]) + rest)[0] == PrintValue(values[0])[0];
    SkipNothing(PrintValue(values[0]) + rest);
    SkipNothing(rest);
    assert values == [values[0]] + values[1..];
    if |values| > 1 {
      assert rest[1..] == PrintElements(values[1..]);
      ReadPrintedElements(values[1..]);
    } else {
      assert rest == "]" && SkipSpace(rest[1..]) == "";
      assert values == [values[0]];
    }
  }

  lemma ReadPrintedArray(values: seq<JsonValue>)
    requires values != []
    ensures ReadArray(PrintArray(values)) == Some(values)
  {
    SkipNothing(PrintArray(values));
    assert PrintArray(values)[1..] == PrintElements(values);
    ReadPrintedElements(values);
  }

  /******* The release manifest *******/

  datatype Manifest = Manifest(
    software: string,
    version: string,
    codename: Option<string>,
    changelog: Option<string>,
    channel: string,
    platform: string,
    architecture: string,
    fileName: string,
    sizeBytes: nat,
    sha256: string)

  function Nullable(s: Option<string>): JsonValue {
    if s.Some? then JsonString(s.value) else JsonNull
  }

  /** The members in the order in which they are printed. */
  function Fields(m: Manifest): seq<(string, JsonValue)> {
    [("schemaVersion", JsonNumber(1)),
     ("software", JsonString(m.software)),
     ("version", JsonString(m.version)),
     ("codename", Nullable(m.codename)),
     ("changelog", Nullable(m.changelog)),
     ("channel", JsonString(m.channel)),
     ("platform", JsonString(m.platform)),
     ("architecture", JsonString(m.architecture)),
     ("fileName", JsonString(m.fileName)),
     ("sizeBytes", JsonNumber(m.sizeBytes)),
     ("sha256", JsonString(m.sha256))]
  }

  /** The object that holds exactly the manifest's members, as jsonb_build_object makes it. */
  function ObjectOf(m: Manifest): JsonObject {
    Overlay(map[], Fields(m))
  }

  /** The exact bytes that are signed. */
  function ManifestBytes(m: Manifest): Bytes {
    Utf8.Encode(PrintObject(Fields(m)))
  }

  /** What the consumer of a payload reads from its bytes. */
  function ReadManifestBytes(b: Bytes): Option<JsonObject> {
    var text := Utf8.Decode(b);
    if text.None? then None else ReadObject(text.value)
  }

  /** The member-by-member test of a stored snapshot against the current manifest. */
  predicate SnapshotMatches(snapshot: JsonObject, m: Manifest) {
    forall i | 0 <= i < |Fields(m)| ::
      var (name, value) := Fields(m)[i];
      name in snapshot && snapshot[name] == value
  }

  predicate DistinctNames(fields: seq<(string, JsonValue)>) {
    forall i, j | 0 <= i < j < |fields| :: fields[i].0 != fields[j].0
  }

  lemma {:induction false} OverlayHolds(seen: JsonObject, fields: seq<(string, JsonValue)>)
    requires DistinctNames(fields)
    ensures Overlay(seen, fields).Keys == seen.Keys + set i | 0 <= i < |fields| :: fields[i].0
    ensures forall i | 0 <= i < |fields| :: Overlay(seen, fields)[fields[i].0] == fields[i].1
    ensures forall name | name in seen && name in Overlay(seen, fields) ::
              (forall i | 0 <= i < |fields| :: fields[i].0 != name) ==> Overlay(seen, fields)[name] == seen[name]
    decreases |fields|
  {
    if fields != [] {
      var rest := fields[1..];
      assert forall i | 0 <= i < |rest| :: rest[i] == fields[i + 1];
      OverlayHolds(seen[fields[0].0 := fields[0].1], rest);
      forall i | 1 <= i < |fields|
        ensures Overlay(seen, fields)[fields[i].0] == fields[i].1
      {
        assert fields[i] == rest[i - 1];
      }
      assert (set i | 0 <= i < |fields| :: fields[i].0) == {fields[0].0} + set i | 0 <= i < |rest| :: rest[i].0 by {
        forall i | 0 <= i < |fields|
          ensures i > 0 ==> fields[i].0 == rest[i - 1].0
        {
        }
      }
    }
  }

  lemma NamesAreDistinct(m: Manifest)
    ensures DistinctNames(Fields(m))
  {
  }

  /** The stored snapshot of a signed payload is the manifest that was signed. */
  lemma ManifestRoundTrip(m: Manifest)
    ensures ReadManifestBytes(ManifestBytes(m)) == Some(ObjectOf(m))
  {
    Utf8.DecodeEncode(PrintObject(Fields(m)));
    ReadPrintedText(Fields(m));
  }

  lemma FieldsDetermine(m0: Manifest, m: Manifest)
    requires Fields(m0) == Fields(m)
    ensures m0 == m
  {
  }

  predicate SameNames(f: seq<(string, JsonValue)>, g: seq<(string, JsonValue)>) {
    |f| == |g| && forall i | 0 <= i < |f| :: f[i].0 == g[i].0
  }

  lemma OverlayInjective(f: seq<(string, JsonValue)>, g: seq<(string, JsonValue)>)
    requires DistinctNames(f) && SameNames(f, g) && Overlay(map[], f) == Overlay(map[], g)
    ensures f == g
  {
    OverlayHolds(map[], f);
    OverlayHolds(map[], g);
  }

  lemma ObjectDetermines(signed: Manifest, current: Manifest)
    requires ObjectOf(signed) == ObjectOf(current)
    ensures signed == current
  {
    NamesAreDistinct(signed);
    assert SameNames(Fields(signed), Fields(current));
    hide Fields, Overlay;
    OverlayInjective(Fields(signed), Fields(current));
    FieldsDetermine(signed, current);
  }

  lemma MatchDetermines(signed: Manifest, current: Manifest)
    ensures SnapshotMatches(ObjectOf(signed), current) <==> signed == current
  {
    NamesAreDistinct(signed);
    assert SameNames(Fields(signed), Fields(current));
    hide Fields, Overlay;
    OverlayHolds(map[], Fields(signed));
    if SnapshotMatches(ObjectOf(signed), current) {
      assert forall i | 0 <= i < |Fields(current)| :: Fields(current)[i] == Fields(signed)[i];
      assert Fields(signed) == Fields(current);
      FieldsDetermine(signed, current);
    }
  }

  /**
   The member-by-member test against the snapshot of a signed payload holds exactly when the
   current manifest prints to the identical signed bytes, and exactly when the objects are equal.
   */
  lemma SnapshotTestIsExact(signed: Manifest, current: Manifest)
    ensures SnapshotMatches(ObjectOf(signed), current) <==> ManifestBytes(current) == ManifestBytes(signed)
    ensures SnapshotMatches(ObjectOf(signed), current) <==> ObjectOf(signed) == ObjectOf(current)
  {
    hide SnapshotMatches, ObjectOf, ManifestBytes;
    MatchDetermines(signed, current);
    ManifestRoundTrip(signed);
    ManifestRoundTrip(current);
    if ObjectOf(signed) == ObjectOf(current) {
      ObjectDetermines(signed, current);
    }
  }

  /******* The exact text *******/

  predicate IsUnescaped(c: char) {
    c >= ' ' && c != '\"' && c != '\\'
  }

  /** The escapes of JSON.stringify: only quotation mark, backslash and control characters, each in its shortest form. */
  lemma EscapeForms(c: char)
    ensures EscapeChar(c) == [c] <==> IsUnescaped(c)
    ensures EscapeChar('\"') == "\\\"" && EscapeChar('\\') == "\\\\"
    ensures EscapeChar(8 as char) == "\\b" && EscapeChar(12 as char) == "\\f"
    ensures EscapeChar('\n') == "\\n" && EscapeChar('\r') == "\\r" && EscapeChar('\t') == "\\t"
    ensures c < ' ' && c as int !in {8, 9, 10, 12, 13} ==>
              && |EscapeChar(c)| == 6 && EscapeChar(c)[..4] == "\\u00"
              && (forall i | 4 <= i < 6 :: '0' <= EscapeChar(c)[i] <= '9' || 'a' <= EscapeChar(c)[i] <= 'f')
              && HexValue(EscapeChar(c)[4]) * 16 + HexValue(EscapeChar(c)[5]) == c as int
  {
  }

  lemma {:induction false} UnescapedIsKept(s: string)
    requires forall i | 0 <= i < |s| :: IsUnescaped(s[i])
    ensures Escape(s) == s
  {
    if s != "" {
      assert IsUnescaped(s[0]);
      UnescapedIsKept(s[1..]);
      assert s == [s[0]] + s[1..];
    }
  }

  /** A member as it is printed, and the text behind it. */
  function MemberText(name: string, value: string, rest: string): string {
    "\"" + name + "\":" + value + rest
  }

  lemma PrintMember(fields: seq<(string, JsonValue)>, name: string)
    requires fields != [] && fields[0].0 == name && forall i | 0 <= i < |name| :: IsUnescaped(name[i])
    ensures
      PrintMembers(fields)
      == MemberText(name, PrintValue(fields[0].1), if |fields| == 1 then "}" else "," + PrintMembers(fields[1..]))
  {
    UnescapedIsKept(name);
    hide Escape, IsUnescaped;
    var value, comma, rest := PrintValue(fields[0].1), if |fields| == 1 then "" else ",", PrintMembers(fields[1..]);
    assert PrintMembers(fields) == PrintString(name) + ":" + value + comma + rest;
    assert PrintString(name) == "\"" + name + "\"";
    hide PrintMembers, PrintValue, PrintString;
    JoinMember(name, value, comma, rest);
    if |fields| == 1 {
      NothingLeft(fields);
      assert "" + rest == rest;
    }
  }

  lemma JoinMember(name: string, value: string, comma: string, rest: string)
    ensures "\"" + name + "\"" + ":" + value + comma + rest == MemberText(name, value, comma + rest)
  {
    assert "\"" + name + "\"" + ":" == "\"" + name + "\":";
    var front := "\"" + name + "\":" + value;
    assert front + comma + rest == front + (comma + rest);
  }

  lemma NothingLeft(fields: seq<(string, JsonValue)>)
    requires |fields| == 1
    ensures PrintMembers(fields[1..]) == "}"
  {
    assert fields[1..] == [];
  }

  function PrintOptional(text: Option<string>): string {
    if text.Some? then PrintString(text.value) else "null"
  }

  predicate IsLetters(s: string) {
    forall i | 0 <= i < |s| :: 'a' <= s[i] <= 'z' || 'A' <= s[i] <= 'Z' || '0' <= s[i] <= '9'
  }

  lemma PrintPlainMember(fields: seq<(string, JsonValue)>)
    requires fields != [] && IsLetters(fields[0].0)
    ensures
      PrintMembers(fields)
      == MemberText(fields[0].0, PrintValue(fields[0].1), if |fields| == 1 then "}" else "," + PrintMembers(fields[1..]))
  {
    assert forall i | 0 <= i < |fields[0].0| :: IsUnescaped(fields[0].0[i]);
    hide PrintMembers, MemberText, IsLetters, PrintValue;
    PrintMember(fields, fields[0].0);
  }

  lemma NamesAreLetters(m: Manifest)
    ensures forall i | 0 <= i < |Fields(m)| :: IsLetters(Fields(m)[i].0)
  {
  }

  /** The text of the members from the k-th on. */
  function TextFrom(fields: seq<(string, JsonValue)>, k: nat): string
    requires k < |fields|
    decreases |fields| - k
  {
    MemberText(fields[k].0, PrintValue(fields[k].1), if k + 1 == |fields| then "}" else "," + TextFrom(fields, k + 1))
  }

  lemma {:induction false} MembersAreTexts(fields: seq<(string, JsonValue)>, k: nat)
    requires k < |fields| && forall i | 0 <= i < |fields| :: IsLetters(fields[i].0)
    ensures PrintMembers(fields[k..]) == TextFrom(fields, k)
    decreases |fields| - k
  {
    hide PrintMembers, MemberText, IsLetters, PrintValue;
    PrintPlainMember(fields[k..]);
    assert fields[k..][1..] == fields[k + 1..];
    if k + 1 < |fields| {
      MembersAreTexts(fields, k + 1);
    }
  }

  /** The signed text, member by member: no white space, in this order, with absent texts as null. */
  lemma ManifestText(m: Manifest)
    ensures
      PrintObject(Fields(m))
      == "{" + MemberText("schemaVersion", "1",
         "," + MemberText("software", PrintString(m.software),
         "," + MemberText("version", PrintString(m.version),
         "," + MemberText("codename", PrintOptional(m.codename),
         "," + MemberText("changelog", PrintOptional(m.changelog),
         "," + MemberText("channel", PrintString(m.channel),
         "," + MemberText("platform", PrintString(m.platform),
         "," + MemberText("architecture", PrintString(m.architecture),
         "," + MemberText("fileName", PrintString(m.fileName),
         "," + MemberText("sizeBytes", Digits(m.sizeBytes),
         "," + MemberText("sha256", PrintString(m.sha256), "}")))))))))))
  {
    var f := Fields(m);
    NamesAreLetters(m);
    MembersAreTexts(f, 0);
    assert f[0..] == f;
    FromTheFifth(m);
    FirstFour(m);
    hide MemberText, PrintMembers, IsLetters, PrintString, Fields, TextFrom, PrintOptional;
  }

  lemma FirstFour(m: Manifest)
    ensures
      TextFrom(Fields(m), 0)
      == MemberText("schemaVersion", "1",
         "," + MemberText("software", PrintString(m.software),
         "," + MemberText("version", PrintString(m.version),
         "," + MemberText("codename", PrintOptional(m.codename),
         "," + TextFrom(Fields(m), 4)))))
  {
    assert PrintValue(JsonNumber(1)) == "1";
    hide MemberText, PrintString;
    var f := Fields(m);
    assert TextFrom(f, 3) == MemberText("codename", PrintOptional(m.codename), "," + TextFrom(f, 4));
    assert TextFrom(f, 2) == MemberText("version", PrintString(m.version), "," + TextFrom(f, 3));
    assert TextFrom(f, 1) == MemberText("software", PrintString(m.software), "," + TextFrom(f, 2));
    assert TextFrom(f, 0) == MemberText("schemaVersion", "1", "," + TextFrom(f, 1));
  }

  lemma FromTheFifth(m: Manifest)
    ensures
      TextFrom(Fields(m), 4)
      == MemberText("changelog", PrintOptional(m.changelog),
         "," + MemberText("channel", PrintString(m.channel),
         "," + MemberText("platform", PrintString(m.platform),
         "," + MemberText("architecture", PrintString(m.architecture),
         "," + MemberText("fileName", PrintString(m.fileName),
         "," + MemberText("sizeBytes", Digits(m.sizeBytes),
         "," + MemberText("sha256", PrintString(m.sha256), "}")))))))
  {
    hide MemberText, PrintString;
    var f := Fields(m);
    assert TextFrom(f, 10) == MemberText("sha256", PrintString(m.sha256), "}");
    assert TextFrom(f, 9) == MemberText("sizeBytes", Digits(m.sizeBytes), "," + TextFrom(f, 10));
    assert TextFrom(f, 8) == MemberText("fileName", PrintString(m.fileName), "," + TextFrom(f, 9));
    assert TextFrom(f, 7) == MemberText("architecture", PrintString(m.architecture), "," + TextFrom(f, 8));
    assert TextFrom(f, 6) == MemberText("platform", PrintString(m.platform), "," + TextFrom(f, 7));
    assert TextFrom(f, 5) == MemberText("channel", PrintString(m.channel), "," + TextFrom(f, 6));
    assert TextFrom(f, 4) == MemberText("changelog", PrintOptional(m.changelog), "," + TextFrom(f, 5));
  }
}
