/** The Content-Disposition header of a download, and a reader that a client could use on it. */
module DownloadHeaders {
  import opened Wrappers
  import opened Crypto
  import Utf8

  /******* The header *******/

  /** Control characters become underscores. */
  function Sanitise(name: string): (safe: string)
    ensures |safe| == |name|
    ensures forall i | 0 <= i < |name| :: safe[i] == if name[i] < ' ' || name[i] == '\U{7F}' then '_' else name[i]
  {
    seq(|name|, i requires 0 <= i < |name| => if name[i] < ' ' || name[i] == '\U{7F}' then '_' else name[i])
  }

  /** What may stand unescaped between the quotes. */
  predicate IsPlain(c: char) {
    ' ' <= c <= '~' && c != '\"' && c != '\\' && c != ';'
  }

  /** The quoted fallback; a character of two UTF-16 code units gives two underscores. */
  function Fallback(safe: string): (f: string)
    ensures forall i | 0 <= i < |f| :: IsPlain(f[i])
  {
    if safe == "" then ""
    else (if IsPlain(safe[0]) then [safe[0]] else if safe[0] as int < 0x10000 then "_" else "__") + Fallback(safe[1..])
  }

  function HexDigit(n: int): (c: char)
    requires 0 <= n < 16
  {
    if n < 10 then '0' + n as char else 'A' + (n - 10) as char
  }

  function PercentByte(b: byte): string {
    ['%', HexDigit(b / 16), HexDigit(b % 16)]
  }

  function PercentBytes(b: Bytes): string {
    if b == [] then "" else PercentByte(b[0]) + PercentBytes(b[1..])
  }

  /** What encodeURIComponent keeps and the second pass does not escape. */
  predicate IsKept(c: char) {
    'A' <= c <= 'Z' || 'a' <= c <= 'z' || '0' <= c <= '9' || c == '-' || c == '_' || c == '.' || c == '~'
  }

  /** What encodeURIComponent also keeps, escaped by the second pass as one byte. */
  predicate IsEscapedLater(c: char) {
    c == '!' || c == '\'' || c == '(' || c == ')' || c == '*'
  }

  function EncodeOne(c: char): string {
    if IsKept(c) || IsEscapedLater(c) then [c] else PercentBytes(Utf8.EncodeChar(c))
  }

  function EncodeURIComponent(s: string): string {
    if s == "" then "" else EncodeOne(s[0]) + EncodeURIComponent(s[1..])
  }

  function EscapeOne(c: char): string {
    if IsEscapedLater(c) then PercentByte(c as int) else [c]
  }

  function EscapeRest(s: string): string {
    if s == "" then "" else EscapeOne(s[0]) + EscapeRest(s[1..])
  }

  function Encoded(safe: string): string {
    EscapeRest(EncodeURIComponent(safe))
  }

  function AttachmentDisposition(fileName: string): string {
    var safe := Sanitise(fileName);
    "attachment; filename=\"" + (Fallback(safe) + ("\"; filename*=UTF-8''" + Encoded(safe)))
  }

  /******* Reading the header *******/

  /** attr-char of section 3.2.1 of RFC 8187. */
  predicate IsAttrChar(c: char) {
    || 'A' <= c <= 'Z' || 'a' <= c <= 'z' || '0' <= c <= '9' || c == '!' || c == '#' || c == '$' || c == '&' || c == '+'
    || c == '-' || c == '.' || c == '^' || c == '_' || c == '`' || c == '|' || c == '~'
  }

  function HexValue(c: char): int {
    if '0' <= c <= '9' then (c - '0') as int
    else if 'A' <= c <= 'F' then (c - 'A') as int + 10
    else if 'a' <= c <= 'f' then (c - 'a') as int + 10
    else -1
  }

  /** The bytes of a text made of attr-chars and percent escapes only; None for any other text. */
  function PercentDecode(t: string): Option<Bytes> {
    if t == "" then Some([])
    else if t[0] == '%' then
      if |t| >= 3 && HexValue(t[1]) >= 0 && HexValue(t[2]) >= 0 then
        var rest := PercentDecode(t[3..]);
        if rest.None? then None else Some([HexValue(t[1]) * 16 + HexValue(t[2])] + rest.value)
      else None
    else if IsAttrChar(t[0]) then
      var rest := PercentDecode(t[1..]);
      if rest.None? then None else Some([t[0] as int] + rest.value)
    else None
  }

  /** The content of a quoted string after its opening quote, and the text after its closing quote. */
  function ReadQuoted(t: string): Option<(string, string)> {
    if t == "" then None
    else if t[0] == '\"' then Some(("", t[1..]))
    else
      var skip := if t[0] == '\\' then 1 else 0;
      if |t| <= skip then None
      else
        var rest := ReadQuoted(t[skip + 1..]);
        if rest.None? then None else Some(([t[skip]] + rest.value.0, rest.value.1))
  }

  /** The fallback and the extended name of a header. */
  function ReadDisposition(h: string): Option<(string, string)> {
    var start, middle := "attachment; filename=\"", "; filename*=UTF-8''";
    if !(start <= h) then None
    else
      var quoted := ReadQuoted(h[|start|..]);
      if quoted.None? || !(middle <= quoted.value.1) then None
      else
        var bytes := PercentDecode(quoted.value.1[|middle|..]);
        if bytes.None? then None
        else
          var name := Utf8.Decode(bytes.value);
          if name.None? then None else Some((quoted.value.0, name.value))
  }

  /******* The reader finds the name *******/

  lemma ReadPercentByte(b: byte, rest: string)
    ensures PercentDecode(PercentByte(b) + rest) ==
      if PercentDecode(rest).None? then None else Some([b] + PercentDecode(rest).value)
  {
  }

  lemma {:induction false} EscapeRestConcat(s: string, t: string)
    ensures EscapeRest(s + t) == EscapeRest(s) + EscapeRest(t)
  {
    hide EscapeOne;
    if s == "" {
      assert s + t == t;
    } else {
      EscapeRestConcat(s[1..], t);
      assert (s + t)[0] == s[0] && (s + t)[1..] == s[1..] + t;
      assert EscapeRest(s + t) == EscapeOne(s[0]) + EscapeRest(s[1..] + t);
      assert EscapeRest(s) == EscapeOne(s[0]) + EscapeRest(s[1..]);
      hide EscapeRest;
      Regroup(EscapeOne(s[0]), EscapeRest(s[1..]), EscapeRest(t));
    }
  }

  lemma Regroup(a: string, b: string, c: string)
    ensures a + (b + c) == a + b + c
  {
  }

  lemma {:induction false} EscapesStay(b: Bytes)
    ensures EscapeRest(PercentBytes(b)) == PercentBytes(b)
  {
    if b != [] {
      EscapesStay(b[1..]);
      EscapeStays(b[0]);
      EscapeRestConcat(PercentByte(b[0]), PercentBytes(b[1..]));
    }
  }

  lemma EscapeStays(b: byte)
    ensures EscapeRest(PercentByte(b)) == PercentByte(b)
  {
    NothingToEscape(PercentByte(b));
  }

  lemma {:induction false} NothingToEscape(s: string)
    requires forall i | 0 <= i < |s| :: !IsEscapedLater(s[i])
    ensures EscapeRest(s) == s
  {
    if s != "" {
      assert forall i | 0 <= i < |s[1..]| :: s[1..][i] == s[i + 1];
      NothingToEscape(s[1..]);
    }
  }

  lemma {:induction false} ReadPercentBytes(b: Bytes, rest: string)
    requires PercentDecode(rest).Some?
    ensures PercentDecode(PercentBytes(b) + rest) == Some(b + PercentDecode(rest).value)
  {
    hide PercentByte, PercentDecode;
    if b == [] {
      assert b + PercentDecode(rest).value == PercentDecode(rest).value;
      assert PercentBytes(b) + rest == rest;
    } else {
      var tail := PercentBytes(b[1..]) + rest;
      ReadPercentBytes(b[1..], rest);
      ReadPercentByte(b[0], tail);
      assert PercentBytes(b) + rest == PercentByte(b[0]) + tail;
      assert b + PercentDecode(rest).value == [b[0]] + (b[1..] + PercentDecode(rest).value);
    }
  }

  /** Only attr-chars and escapes appear, and undoing the escapes gives the UTF-8 form of the name. */
  lemma {:induction false} ReadEncoded(s: string)
    ensures PercentDecode(Encoded(s)) == Some(Utf8.Encode(s))
  {
    if s != "" {
      var rest := EncodeURIComponent(s[1..]);
      ReadEncoded(s[1..]);
      ReadEncodedChar(s[0], Encoded(s[1..]));
      EscapeRestConcat(EncodeOne(s[0]), rest);
      hide EncodeOne, EscapeRest, PercentDecode, Utf8.EncodeChar;
    }
  }

  lemma ReadEncodedChar(c: char, rest: string)
    requires PercentDecode(rest).Some?
    ensures
      PercentDecode(EscapeRest(EncodeOne(c)) + rest) == Some(Utf8.EncodeChar(c) + PercentDecode(rest).value)
  {
    if IsEscapedLater(c) {
      ReadPercentByte(c as int, rest);
      assert [c][1..] == "" && PercentByte(c as int) + "" == PercentByte(c as int);
    } else if IsKept(c) {
      assert [c][1..] == "" && EscapeRest([c]) == [c] + "";
      assert ([c] + rest)[1..] == rest;
    } else {
      EscapesStay(Utf8.EncodeChar(c));
      ReadPercentBytes(Utf8.EncodeChar(c), rest);
    }
  }

  lemma {:induction false} ReadPlain(f: string, rest: string)
    requires forall i | 0 <= i < |f| :: IsPlain(f[i])
    ensures ReadQuoted(f + ("\"" + rest)) == Some((f, rest))
  {
    var t := f + ("\"" + rest);
    if f == "" {
      assert t[0] == '\"' && t[1..] == rest;
    } else {
      assert IsPlain(f[0]) && t[0] == f[0] && t[1..] == f[1..] + ("\"" + rest);
      assert forall i | 0 <= i < |f[1..]| :: f[1..][i] == f[i + 1];
      ReadPlain(f[1..], rest);
      assert f == [f[0]] + f[1..];
    }
  }

  /**
   A client that reads the header finds the fallback closed at its own quote, and decodes the
   extended name to exactly the sanitised file name, for every sequence of Unicode scalar values.
   */
  lemma ClientReadsTheName(fileName: string)
    ensures ReadDisposition(AttachmentDisposition(fileName)) == Some((Fallback(Sanitise(fileName)), Sanitise(fileName)))
  {
    hide Sanitise, Fallback, Encoded, ReadQuoted, PercentDecode, IsPlain, Utf8.Encode, Utf8.Decode;
    var safe := Sanitise(fileName);
    var start, middle := "attachment; filename=\"", "; filename*=UTF-8''";
    var afterQuote := middle + Encoded(safe);
    assert "\"; filename*=UTF-8''" + Encoded(safe) == "\"" + afterQuote;
    DropPrefix(start, Fallback(safe) + ("\"" + afterQuote));
    ReadPlain(Fallback(safe), afterQuote);
    DropPrefix(middle, Encoded(safe));
    ReadEncoded(safe);
    Utf8.DecodeEncode(safe);
  }

  lemma DropPrefix(a: string, b: string)
    ensures a <= a + b && (a + b)[|a|..] == b
  {
  }

  predicate IsHeaderText(s: string) {
    forall i | 0 <= i < |s| :: ' ' <= s[i] <= '~'
  }

  lemma {:induction false} DecodableIsHeaderText(t: string)
    requires PercentDecode(t).Some?
    ensures IsHeaderText(t)
  {
    if t != "" {
      var n := if t[0] == '%' then 3 else 1;
      DecodableIsHeaderText(t[n..]);
      assert forall i | n <= i < |t| :: t[i] == t[n..][i - n];
      assert n == 3 ==> HexValue(t[1]) >= 0 && HexValue(t[2]) >= 0;
    }
  }

  lemma PrintableConcat(a: string, b: string)
    requires IsHeaderText(a) && IsHeaderText(b)
    ensures IsHeaderText(a + b)
  {
  }

  lemma PlainIsPrintable(s: string)
    requires forall i | 0 <= i < |s| :: IsPlain(s[i])
    ensures IsHeaderText(s)
  {
  }

  /** The header holds printable ASCII only: no control character, no line break, no byte above 126. */
  lemma HeaderIsPrintable(fileName: string)
    ensures IsHeaderText(AttachmentDisposition(fileName))
  {
    assert IsHeaderText("attachment; filename=\"") && IsHeaderText("\"; filename*=UTF-8''");
    hide Sanitise, Fallback, Encoded, PercentDecode, IsPlain, IsHeaderText;
    var safe := Sanitise(fileName);
    ReadEncoded(safe);
    DecodableIsHeaderText(Encoded(safe));
    PlainIsPrintable(Fallback(safe));
    PrintableConcat("\"; filename*=UTF-8''", Encoded(safe));
    PrintableConcat(Fallback(safe), "\"; filename*=UTF-8''" + Encoded(safe));
    PrintableConcat("attachment; filename=\"", Fallback(safe) + ("\"; filename*=UTF-8''" + Encoded(safe)));
  }

  /** The fallback is the name itself exactly when the name needs no replacement. */
  lemma {:induction false} FallbackKeepsPlainNames(safe: string)
    ensures Fallback(safe) == safe <==> forall i | 0 <= i < |safe| :: IsPlain(safe[i])
  {
    if safe != "" {
      FallbackKeepsPlainNames(safe[1..]);
      assert forall i | 0 <= i < |safe[1..]| :: safe[1..][i] == safe[i + 1];
      assert safe == [safe[0]] + safe[1..];
      if IsPlain(safe[0]) {
        assert Fallback(safe)[1..] == Fallback(safe[1..]);
      }
    }
  }
}
