/** The version filter of the administration pages: a small grammar, and an order on versions. */
module VersionFilter {
  import opened Wrappers
  import opened Decimal
  import SemVer

  datatype Filter =
    | Compare(operator: string, bound: SemVer.Version)
    | Wildcard(major: nat, minor: Option<nat>)

  /** What the regular expression captures: an operator, white space, digits, and a star. */
  datatype Pieces = Pieces(operator: string, space: string, major: string, minor: Option<string>, patch: Option<string>, star: bool)

  const MAX_PART_LENGTH := 9

  /** White space of ECMAScript, for `trim` as for `\s`. */
  predicate IsSpace(c: char) {
    || '\t' <= c <= '\r' || c == ' ' || c == '\U{A0}' || c == '\U{1680}' || '\U{2000}' <= c <= '\U{200A}'
    || c == '\U{2028}' || c == '\U{2029}' || c == '\U{202F}' || c == '\U{205F}' || c == '\U{3000}' || c == '\U{FEFF}'
  }

  predicate AllSpaces(s: string) {
    forall i | 0 <= i < |s| :: IsSpace(s[i])
  }

  predicate IsNumber(s: string) {
    s != "" && AllDigits(s)
  }

  predicate IsOperator(s: string) {
    s == "" || s == "<" || s == "<=" || s == ">" || s == ">=" || s == "=="
  }

  /** The language of the regular expression, as its derivations and their text. */
  predicate WellFormed(p: Pieces) {
    && IsOperator(p.operator)
    && AllSpaces(p.space)
    && IsNumber(p.major)
    && (p.minor.Some? ==> IsNumber(p.minor.value))
    && (p.patch.Some? ==> p.minor.Some? && IsNumber(p.patch.value))
  }

  function Dotted(part: Option<string>): string {
    if part.Some? then "." + part.value else ""
  }

  function Star(star: bool): string {
    if star then "*" else ""
  }

  function Text(p: Pieces): string {
    p.operator + (p.space + (p.major + (Dotted(p.minor) + (Dotted(p.patch) + Star(p.star)))))
  }

  /******* Matching *******/

  function TakeWhile(s: string, f: char -> bool): (run: string)
    ensures run <= s
    ensures forall i | 0 <= i < |run| :: f(run[i])
    ensures |run| < |s| ==> !f(s[|run|])
  {
    if s == "" || !f(s[0]) then "" else [s[0]] + TakeWhile(s[1..], f)
  }

  lemma {:induction false} TakeWhileOf(a: string, b: string, f: char -> bool)
    requires (forall i | 0 <= i < |a| :: f(a[i])) && (b == "" || !f(b[0]))
    ensures TakeWhile(a + b, f) == a
  {
    if a == "" {
      assert a + b == b;
    } else {
      var rest := a[1..];
      assert (a + b)[1..] == rest + b;
      assert forall i | 0 <= i < |rest| :: f(rest[i]) by {
        assert forall i | 0 <= i < |rest| :: rest[i] == a[i + 1];
      }
      TakeWhileOf(rest, b, f);
    }
  }

  function ScanOperator(s: string): (operator: string)
    ensures operator <= s && IsOperator(operator)
  {
    if "<=" <= s then "<="
    else if ">=" <= s then ">="
    else if "==" <= s then "=="
    else if "<" <= s then "<"
    else if ">" <= s then ">"
    else ""
  }

  function ScanDotted(s: string): (part: Option<string>)
    ensures part.Some? ==> IsNumber(part.value)
    ensures Dotted(part) <= s
  {
    if s != "" && s[0] == '.' && TakeWhile(s[1..], IsDigit) != "" then Some(TakeWhile(s[1..], IsDigit)) else None
  }

  /** The digits of the major number and what follows them. */
  function ScanNumbers(operator: string, space: string, s: string): Option<Pieces> {
    var major := TakeWhile(s, IsDigit);
    var s1 := s[|major|..];
    var minor := ScanDotted(s1);
    var s2 := s1[|Dotted(minor)|..];
    var patch := if minor.Some? then ScanDotted(s2) else None;
    var s3 := s2[|Dotted(patch)|..];
    if major != "" && (s3 == "" || s3 == "*") then Some(Pieces(operator, space, major, minor, patch, s3 == "*")) else None
  }

  function Scan(s: string): Option<Pieces> {
    var operator := ScanOperator(s);
    var s1 := s[|operator|..];
    var space := TakeWhile(s1, IsSpace);
    ScanNumbers(operator, space, s1[|space|..])
  }

  lemma Cut(a: string, s: string)
    requires a <= s
    ensures a + s[|a|..] == s
  {
  }

  /** What follows the digits of the major number. */
  lemma DottedPartsAreCut(s: string)
    ensures
      var minor := ScanDotted(s);
      var s2 := s[|Dotted(minor)|..];
      var patch := if minor.Some? then ScanDotted(s2) else None;
      s == Dotted(minor) + (Dotted(patch) + s2[|Dotted(patch)|..])
  {
    hide ScanDotted;
    var minor := ScanDotted(s);
    Cut(Dotted(minor), s);
    var s2 := s[|Dotted(minor)|..];
    var patch := if minor.Some? then ScanDotted(s2) else None;
    assert Dotted(patch) <= s2;
    Cut(Dotted(patch), s2);
  }

  lemma ScanNumbersIsSound(operator: string, space: string, s: string)
    requires IsOperator(operator) && AllSpaces(space)
    ensures
      var p := ScanNumbers(operator, space, s);
      p.Some? ==>
        WellFormed(p.value) && p.value.operator == operator && p.value.space == space
        && s == p.value.major + (Dotted(p.value.minor) + (Dotted(p.value.patch) + Star(p.value.star)))
  {
    hide ScanDotted, Dotted, TakeWhile, IsSpace, IsDigit, IsOperator, AllSpaces;
    var major := TakeWhile(s, IsDigit);
    Cut(major, s);
    DottedPartsAreCut(s[|major|..]);
  }

  /** Whatever the matcher accepts is in the language, and its pieces spell the input. */
  lemma ScanIsSound(s: string)
    ensures Scan(s).Some? ==> WellFormed(Scan(s).value) && Text(Scan(s).value) == s
  {
    hide ScanOperator, TakeWhile, ScanNumbers, WellFormed, IsSpace, Dotted, Star, IsOperator;
    var operator := ScanOperator(s);
    var s1 := s[|operator|..];
    Cut(operator, s);
    var space := TakeWhile(s1, IsSpace);
    Cut(space, s1);
    ScanNumbersIsSound(operator, space, s1[|space|..]);
  }

  lemma ScanOperatorOf(operator: string, rest: string)
    requires IsOperator(operator) && rest != "" && (IsSpace(rest[0]) || IsDigit(rest[0]))
    ensures ScanOperator(operator + rest) == operator
  {
    var s := operator + rest;
    assert s[|operator|] == rest[0];
    assert operator <= s;
    assert operator == "" ==> s == rest;
    assert |operator| == 1 ==> s[0] == operator[0];
    assert |operator| == 2 ==> s[..2] == operator;
  }

  lemma ScanDottedOf(part: Option<string>, rest: string)
    requires (part.Some? ==> IsNumber(part.value)) && (part.None? ==> rest == "" || rest[0] != '.')
    requires rest == "" || !IsDigit(rest[0])
    ensures ScanDotted(Dotted(part) + rest) == part
    ensures (Dotted(part) + rest)[|Dotted(part)|..] == rest
  {
    var s := Dotted(part) + rest;
    if part.Some? {
      assert s[1..] == part.value + rest;
      TakeWhileOf(part.value, rest, IsDigit);
    } else {
      assert s == rest;
    }
  }

  lemma ScanNumbersOf(p: Pieces)
    requires WellFormed(p)
    ensures ScanNumbers(p.operator, p.space, p.major + (Dotted(p.minor) + (Dotted(p.patch) + Star(p.star)))) == Some(p)
  {
    hide ScanDotted, TakeWhile;
    var s2 := Dotted(p.patch) + Star(p.star);
    var s1 := Dotted(p.minor) + s2;
    var s := p.major + s1;
    assert s2 != "" ==> s2[0] == '.' || s2[0] == '*';
    assert s1 != "" ==> s1[0] == '.' || s1[0] == '*';
    TakeWhileOf(p.major, s1, IsDigit);
    assert s[|p.major|..] == s1;
    ScanDottedOf(p.minor, s2);
    ScanDottedOf(p.patch, Star(p.star));
    assert p.minor.None? ==> s2[0..] == s2;
  }

  /** The matcher accepts every text of the language and finds its pieces. */
  lemma ScanIsComplete(p: Pieces)
    requires WellFormed(p)
    ensures Scan(Text(p)) == Some(p)
  {
    hide ScanOperator, TakeWhile, ScanNumbers;
    var s2 := p.major + (Dotted(p.minor) + (Dotted(p.patch) + Star(p.star)));
    var s1 := p.space + s2;
    assert s2[0] == p.major[0];
    assert p.space != "" ==> s1[0] == p.space[0];
    assert p.space == "" ==> s1 == s2;
    ScanOperatorOf(p.operator, s1);
    assert Text(p)[|p.operator|..] == s1;
    TakeWhileOf(p.space, s2, IsSpace);
    assert s1[|p.space|..] == s2;
    ScanNumbersOf(p);
  }

  /******* From input to filter *******/

  function TrimEnd(s: string): (r: string)
    ensures r <= s && AllSpaces(s[|r|..])
    ensures r != "" ==> !IsSpace(r[|r| - 1])
  {
    if s != "" && IsSpace(s[|s| - 1]) then TrimEnd(s[..|s| - 1]) else s
  }

  function Trim(s: string): string {
    TrimEnd(s[|TakeWhile(s, IsSpace)|..])
  }

  predicate Short(part: Option<string>) {
    part.Some? ==> |part.value| <= MAX_PART_LENGTH
  }

  /** What the service still demands of a text that the regular expression matches. */
  predicate Acceptable(p: Pieces) {
    && |p.major| <= MAX_PART_LENGTH && Short(p.minor) && Short(p.patch)
    && (p.star ==> p.operator == "" || p.operator == "==")
  }

  /** An absent part counts as zero. */
  function Part(part: Option<string>): nat
    requires part.Some? ==> IsNumber(part.value)
  {
    if part.Some? then Number(part.value) else 0
  }

  function FilterOf(p: Pieces): Filter
    requires WellFormed(p)
  {
    if p.star then Wildcard(Number(p.major), if p.minor.Some? then Some(Number(p.minor.value)) else None)
    else Compare(if p.operator == "" then "==" else p.operator,
                 SemVer.Release(Number(p.major), Part(p.minor), Part(p.patch)))
  }

  function ParseFilter(input: string): Result<Filter, string> {
    var pieces := Scan(Trim(input));
    ScanIsSound(Trim(input));
    if pieces.None? || !Acceptable(pieces.value) then Err("Invalid semantic version filter.")
    else Ok(FilterOf(pieces.value))
  }

  /** The input is white space around the text of a derivation. */
  ghost predicate Spells(before: string, p: Pieces, after: string, input: string) {
    && AllSpaces(before) && AllSpaces(after) && WellFormed(p)
    && (p.operator == "" ==> p.space == "")
    && input == before + (Text(p) + after)
  }

  lemma TextEnds(p: Pieces)
    requires WellFormed(p) && (p.operator == "" ==> p.space == "")
    ensures Text(p) != "" && !IsSpace(Text(p)[0]) && !IsSpace(Text(p)[|Text(p)| - 1])
  {
  }

  lemma {:induction false} TrimEndOf(s: string, after: string)
    requires s != "" && !IsSpace(s[|s| - 1]) && AllSpaces(after)
    ensures TrimEnd(s + after) == s
    decreases |after|
  {
    if after == "" {
      assert s + after == s;
    } else {
      var rest := after[..|after| - 1];
      TrimEndOf(s, rest);
      assert (s + after)[..|s + after| - 1] == s + rest;
    }
  }

  /**
   A spelled input is refused exactly when a part is longer than nine digits or a star follows an
   order operator; otherwise its derivation is the filter.
   */
  lemma SpelledIsParsed(before: string, p: Pieces, after: string, input: string)
    requires Spells(before, p, after, input)
    ensures ParseFilter(input) == if Acceptable(p) then Ok(FilterOf(p)) else Err("Invalid semantic version filter.")
  {
    hide Scan, Text, TakeWhile, TrimEnd, IsSpace;
    TextEnds(p);
    assert (Text(p) + after)[0] == Text(p)[0];
    TakeWhileOf(before, Text(p) + after, IsSpace);
    assert input[|before|..] == Text(p) + after;
    TrimEndOf(Text(p), after);
    ScanIsComplete(p);
  }

  /** Every input that is not spelled so is refused. */
  lemma ParsedIsSpelled(input: string) returns (before: string, p: Pieces, after: string)
    requires ParseFilter(input).Ok?
    ensures Spells(before, p, after, input)
  {
    hide Scan, Text, TakeWhile, TrimEnd, IsSpace;
    before := TakeWhile(input, IsSpace);
    var rest := input[|before|..];
    Cut(before, input);
    var text := TrimEnd(rest);
    after := rest[|text|..];
    Cut(text, rest);
    ScanIsSound(text);
    p := Scan(text).value;
    NoSpaceAfterNoOperator(rest, text, p);
  }

  lemma NoSpaceAfterNoOperator(rest: string, text: string, p: Pieces)
    requires WellFormed(p) && text == Text(p) && text <= rest && (rest != "" ==> !IsSpace(rest[0]))
    ensures p.operator == "" ==> p.space == ""
  {
  }

  /******* The filter as an order *******/

  /** The WHERE clause that the service builds. */
  predicate Selects(f: Filter, v: SemVer.Version) {
    match f
    case Wildcard(major, minor) => v.major == major && (minor.Some? ==> v.minor == minor.value)
    case Compare(operator, b) =>
      if operator == ">=" then
        v.major > b.major || (v.major == b.major && v.minor > b.minor)
        || (v.major == b.major && v.minor == b.minor && v.patch >= b.patch)
      else if operator == ">" then
        v.major > b.major || (v.major == b.major && v.minor > b.minor)
        || (v.major == b.major && v.minor == b.minor && v.patch > b.patch)
      else if operator == "<=" then
        v.major < b.major || (v.major == b.major && v.minor < b.minor)
        || (v.major == b.major && v.minor == b.minor && v.patch <= b.patch)
      else if operator == "<" then
        v.major < b.major || (v.major == b.major && v.minor < b.minor)
        || (v.major == b.major && v.minor == b.minor && v.patch < b.patch)
      else v.major == b.major && v.minor == b.minor && v.patch == b.patch
  }

  /** The WHERE clause of each operator, with `b` as the bound. */
  lemma EqualSelects(b: SemVer.Version, v: SemVer.Version)
    requires v.prerelease == b.prerelease == []
    ensures Selects(Compare("==", b), v) <==> v == b
  {
  }

  lemma LessSelects(b: SemVer.Version, v: SemVer.Version)
    requires v.prerelease == b.prerelease == []
    ensures Selects(Compare("<", b), v) <==> SemVer.Less(v, b)
  {
  }

  lemma LessOrEqualSelects(b: SemVer.Version, v: SemVer.Version)
    requires v.prerelease == b.prerelease == []
    ensures Selects(Compare("<=", b), v) <==> !SemVer.Less(b, v)
  {
  }

  lemma GreaterSelects(b: SemVer.Version, v: SemVer.Version)
    requires v.prerelease == b.prerelease == []
    ensures Selects(Compare(">", b), v) <==> SemVer.Less(b, v)
  {
  }

  lemma GreaterOrEqualSelects(b: SemVer.Version, v: SemVer.Version)
    requires v.prerelease == b.prerelease == []
    ensures Selects(Compare(">=", b), v) <==> !SemVer.Less(v, b)
  {
  }

  /** The version that the pieces name, absent parts as zero. */
  function Bound(p: Pieces): SemVer.Version
    requires WellFormed(p)
  {
    SemVer.Release(Number(p.major), Part(p.minor), Part(p.patch))
  }

  lemma FilterOfPieces(p: Pieces)
    requires WellFormed(p)
    ensures p.star ==> FilterOf(p) == Wildcard(Bound(p).major, if p.minor.Some? then Some(Bound(p).minor) else None)
    ensures !p.star ==> FilterOf(p) == Compare(if p.operator == "" then "==" else p.operator, Bound(p))
    ensures Bound(p).prerelease == []
  {
    hide Number;
  }

  /**
   From the text to the rows: an input that spells an operator and a version selects exactly the
   releases that stand in that relation to it under semantic version precedence, and a star
   selects the releases that share the given major, or major and minor.
   */
  lemma FilterFollowsPrecedence(before: string, p: Pieces, after: string, input: string, v: SemVer.Version)
    requires Spells(before, p, after, input) && Acceptable(p) && v.prerelease == []
    ensures ParseFilter(input).Ok?
    ensures
      var f, bound := ParseFilter(input).value, Bound(p);
      if p.star then Selects(f, v) <==> v.major == bound.major && (p.minor.Some? ==> v.minor == bound.minor)
      else if p.operator == "<" then Selects(f, v) <==> SemVer.Less(v, bound)
      else if p.operator == "<=" then Selects(f, v) <==> !SemVer.Less(bound, v)
      else if p.operator == ">" then Selects(f, v) <==> SemVer.Less(bound, v)
      else if p.operator == ">=" then Selects(f, v) <==> !SemVer.Less(v, bound)
      else Selects(f, v) <==> v == bound
  {
    hide SemVer.Less, ParseFilter, FilterOf, Bound, Acceptable, Text, AllSpaces;
    SpelledIsParsed(before, p, after, input);
    FilterOfPieces(p);
    var b := Bound(p);
    if !p.star {
      hide Selects;
      EqualSelects(b, v);
      LessSelects(b, v);
      LessOrEqualSelects(b, v);
      GreaterSelects(b, v);
      GreaterOrEqualSelects(b, v);
    }
  }
}
