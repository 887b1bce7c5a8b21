/** Artifact file names: parts reduced to a safe alphabet and joined. Names are already in compatibility form. */
module FileNames {
  import opened Wrappers
  import opened Decimal
  import Text

  const MAX_FILE_PART_LENGTH := 100

  predicate IsSafeChar(c: char) {
    'A' <= c <= 'Z' || 'a' <= c <= 'z' || '0' <= c <= '9' || c == '.' || c == '_' || c == '-'
  }

  predicate AllSafe(s: string) {
    forall i | 0 <= i < |s| :: IsSafeChar(s[i])
  }

  function SkipUnsafe(s: string): (r: string)
    ensures |r| <= |s|
  {
    if s == "" || IsSafeChar(s[0]) then s else SkipUnsafe(s[1..])
  }

  /** Replaces each maximal run of unsafe characters by one dash. */
  function ReplaceUnsafe(s: string): (r: string)
    ensures AllSafe(r)
    decreases |s|
  {
    if s == "" then ""
    else if IsSafeChar(s[0]) then [s[0]] + ReplaceUnsafe(s[1..])
    else "-" + ReplaceUnsafe(SkipUnsafe(s[1..]))
  }

  function TrimDashes(s: string): (r: string)
    ensures AllSafe(s) ==> AllSafe(r)
    ensures r != "" ==> r[0] != '-' && r[|r| - 1] != '-'
    ensures |r| <= |s|
    decreases |s|
  {
    if s != "" && s[0] == '-' then TrimDashes(s[1..])
    else if s != "" && s[|s| - 1] == '-' then TrimDashes(s[..|s| - 1])
    else s
  }

  function SafeFilePart(value: string): (part: string)
    ensures AllSafe(part) && 1 <= |part| <= MAX_FILE_PART_LENGTH && part[0] != '-'
  {
    var safe := TrimDashes(ReplaceUnsafe(value));
    var cut := if |safe| > MAX_FILE_PART_LENGTH then safe[..MAX_FILE_PART_LENGTH] else safe;
    if cut == "" then "release" else cut
  }

  predicate AllDashes(s: string) {
    forall i | 0 <= i < |s| :: s[i] == '-'
  }

  lemma {:induction false} OnlyDashesLeft(s: string)
    requires forall i | 0 <= i < |s| :: s[i] == '-' || !IsSafeChar(s[i])
    ensures AllDashes(ReplaceUnsafe(s))
    decreases |s|
  {
    if s != "" {
      if IsSafeChar(s[0]) {
        OnlyDashesLeft(s[1..]);
      } else {
        SkippedIsSuffix(s[1..]);
        OnlyDashesLeft(SkipUnsafe(s[1..]));
      }
    }
  }

  lemma {:induction false} SkippedIsSuffix(s: string)
    ensures SkipUnsafe(s) == s[|s| - |SkipUnsafe(s)|..]
  {
    if s != "" && !IsSafeChar(s[0]) {
      SkippedIsSuffix(s[1..]);
    }
  }

  lemma {:induction false} DashesAreTrimmed(s: string)
    requires AllDashes(s)
    ensures TrimDashes(s) == ""
  {
    if s != "" {
      DashesAreTrimmed(s[1..]);
    }
  }

  /** A name without anything to keep becomes "release". */
  lemma NothingToKeep(value: string)
    requires forall i | 0 <= i < |value| :: value[i] == '-' || !IsSafeChar(value[i])
    ensures SafeFilePart(value) == "release"
  {
    OnlyDashesLeft(value);
    DashesAreTrimmed(ReplaceUnsafe(value));
  }

  lemma {:induction false} SafeTextIsKept(s: string)
    requires AllSafe(s)
    ensures ReplaceUnsafe(s) == s
  {
    if s != "" {
      assert AllSafe(s[1..]) by {
        assert forall i | 0 <= i < |s[1..]| :: s[1..][i] == s[i + 1];
      }
      SafeTextIsKept(s[1..]);
    }
  }

  /** Cleaning changes only what it must: it keeps exactly the clean names of at most 100 characters. */
  lemma CleanPartsAreKept(value: string)
    ensures SafeFilePart(value) == value
      <==> AllSafe(value) && 1 <= |value| <= MAX_FILE_PART_LENGTH && value[0] != '-' && value[|value| - 1] != '-'
  {
    if AllSafe(value) && 1 <= |value| <= MAX_FILE_PART_LENGTH {
      SafeTextIsKept(value);
      hide AllSafe, IsSafeChar, ReplaceUnsafe;
      assert TrimDashes(value) == value <==> value[0] != '-' && value[|value| - 1] != '-';
    }
  }

  /** The version's numbers, and its codename when it has a non-empty one. */
  function VersionPart(major: nat, minor: nat, patch: nat, codename: string): string {
    "v" + Digits(major) + "." + Digits(minor) + "." + Digits(patch)
    + if codename == "" then "" else "-" + SafeFilePart(codename)
  }

  function BuildFileName(
    software: string, platform: string, architecture: string, major: nat, minor: nat, patch: nat, codename: string, extension: string)
    : (name: string)
    ensures name != ""
  {
    SafeFilePart(software) + "_" + SafeFilePart(platform) + "_" + SafeFilePart(architecture) + "_"
    + VersionPart(major, minor, patch, codename) + "." + SafeFilePart(extension)
  }

  /** A run of unsafe characters between a safe text and what follows becomes one dash. */
  lemma {:induction false} RunsBecomeDashes(safe: string, run: string, rest: string)
    requires AllSafe(safe) && run != "" && (forall i | 0 <= i < |run| :: !IsSafeChar(run[i]))
    requires rest == "" || IsSafeChar(rest[0])
    ensures ReplaceUnsafe(safe + run + rest) == safe + "-" + ReplaceUnsafe(rest)
    decreases |safe|
  {
    var s := safe + run + rest;
    if safe == "" {
      assert s == run + rest;
      assert s[1..] == run[1..] + rest;
      SkipRun(run[1..], rest);
    } else {
      RunsBecomeDashes(safe[1..], run, rest);
      assert s[1..] == safe[1..] + run + rest;
      assert s[0] == safe[0];
    }
  }

  lemma {:induction false} SkipRun(run: string, rest: string)
    requires forall i | 0 <= i < |run| :: !IsSafeChar(run[i])
    requires rest == "" || IsSafeChar(rest[0])
    ensures SkipUnsafe(run + rest) == rest
  {
    if run == "" {
      assert run + rest == rest;
    } else {
      assert (run + rest)[1..] == run[1..] + rest;
      SkipRun(run[1..], rest);
    }
  }

  /**
   A file name splits at its underscores into the clean product, platform and architecture, in this order, and the version
   with the extension, when the clean texts hold no underscore themselves.
   */
  lemma FileNameParts(
    software: string, platform: string, architecture: string, major: nat, minor: nat, patch: nat, codename: string, extension: string)
    requires '_' !in SafeFilePart(software) && '_' !in SafeFilePart(platform) && '_' !in SafeFilePart(architecture)
    requires '_' !in SafeFilePart(codename) && '_' !in SafeFilePart(extension)
    ensures
      Text.Split(BuildFileName(software, platform, architecture, major, minor, patch, codename, extension), '_')
      == [SafeFilePart(software), SafeFilePart(platform), SafeFilePart(architecture),
          VersionPart(major, minor, patch, codename) + "." + SafeFilePart(extension)]
  {
    hide SafeFilePart, Digits, Text.Split;
    var s, p, a, e := SafeFilePart(software), SafeFilePart(platform), SafeFilePart(architecture), SafeFilePart(extension);
    var version := VersionPart(major, minor, patch, codename);
    NoUnderscore(major, minor, patch, codename, e);
    FourParts(s, p, a, version + "." + e);
    hide VersionPart;
    Regroup(s + "_" + p + "_" + a + "_", version, e);
  }

  lemma Regroup(front: string, version: string, extension: string)
    ensures front + version + "." + extension == front + (version + "." + extension)
  {
  }

  /** The version's part is its three numbers between dots, in their order, and then its codename. */
  lemma VersionPartReads(major: nat, minor: nat, patch: nat, codename: string)
    ensures Text.Split(VersionPart(major, minor, patch, ""), '.') == ["v" + Digits(major), Digits(minor), Digits(patch)]
    ensures codename != "" ==>
              VersionPart(major, minor, patch, codename) == VersionPart(major, minor, patch, "") + "-" + SafeFilePart(codename)
  {
    hide SafeFilePart;
    NoDot(Digits(major));
    NoDot(Digits(minor));
    NoDot(Digits(patch));
    hide Digits;
    ThreeParts("v" + Digits(major), Digits(minor), Digits(patch));
    var numbers := "v" + Digits(major) + "." + Digits(minor) + "." + Digits(patch);
    assert VersionPart(major, minor, patch, "") == numbers + "";
    assert numbers + "" == numbers;
  }

  lemma NoDot(s: string)
    requires AllDigits(s)
    ensures '.' !in s && '.' !in "v" + s
  {
  }

  lemma ThreeParts(a: string, b: string, c: string)
    requires '.' !in a && '.' !in b && '.' !in c
    ensures Text.Split(a + "." + b + "." + c, '.') == [a, b, c]
  {
    hide Text.Split;
    Text.SplitFirst(c, "", '.');
    Text.SplitFirst(b, c, '.');
    Text.SplitFirst(a, b + ['.'] + c, '.');
    assert a + "." + b + "." + c == a + ['.'] + (b + ['.'] + c);
  }

  lemma FourParts(s: string, p: string, a: string, last: string)
    requires '_' !in s && '_' !in p && '_' !in a && '_' !in last
    ensures Text.Split(s + "_" + p + "_" + a + "_" + last, '_') == [s, p, a, last]
  {
    hide Text.Split;
    Text.SplitFirst(last, "", '_');
    Text.SplitFirst(a, last, '_');
    Text.SplitFirst(p, a + ['_'] + last, '_');
    Text.SplitFirst(s, p + ['_'] + (a + ['_'] + last), '_');
    assert s + "_" + p + "_" + a + "_" + last == s + ['_'] + (p + ['_'] + (a + ['_'] + last));
  }

  lemma NoUnderscore(major: nat, minor: nat, patch: nat, codename: string, extension: string)
    requires '_' !in SafeFilePart(codename) && '_' !in extension
    ensures '_' !in VersionPart(major, minor, patch, codename) + "." + extension
  {
    hide SafeFilePart;
    assert AllDigits(Digits(major)) && AllDigits(Digits(minor)) && AllDigits(Digits(patch));
    assert '_' !in Digits(major) && '_' !in Digits(minor) && '_' !in Digits(patch);
    hide Digits, AllDigits;
    var numbers := "v" + Digits(major) + "." + Digits(minor) + "." + Digits(patch);
    assert '_' !in numbers;
    assert '_' !in VersionPart(major, minor, patch, codename);
  }

  lemma SafeConcat(a: string, b: string)
    requires AllSafe(a) && AllSafe(b)
    ensures AllSafe(a + b)
  {
  }

  lemma DigitsAreSafe(n: nat)
    ensures AllSafe(Digits(n))
  {
  }

  /**
   Whatever the names contain, the file name is made of letters, digits, dots, underscores and
   dashes: no separator and no control character.
   */
  lemma FileNameIsSafe(
    software: string, platform: string, architecture: string, major: nat, minor: nat, patch: nat, codename: string, extension: string)
    ensures AllSafe(BuildFileName(software, platform, architecture, major, minor, patch, codename, extension))
  {
    hide SafeFilePart, Digits;
    DigitsAreSafe(major);
    DigitsAreSafe(minor);
    DigitsAreSafe(patch);
    assert AllSafe("_") && AllSafe(".") && AllSafe("-") && AllSafe("v") && AllSafe("");
    hide AllSafe;
    var version := VersionPart(major, minor, patch, codename);
    SafeConcat("v", Digits(major));
    SafeConcat("v" + Digits(major), ".");
    SafeConcat("v" + Digits(major) + ".", Digits(minor));
    SafeConcat("v" + Digits(major) + "." + Digits(minor), ".");
    SafeConcat("v" + Digits(major) + "." + Digits(minor) + ".", Digits(patch));
    SafeConcat("-", SafeFilePart(codename));
    SafeConcat("v" + Digits(major) + "." + Digits(minor) + "." + Digits(patch),
               if codename == "" then "" else "-" + SafeFilePart(codename));
    var s, p, a, e := SafeFilePart(software), SafeFilePart(platform), SafeFilePart(architecture), SafeFilePart(extension);
    SafeConcat(s, "_");
    SafeConcat(s + "_", p);
    SafeConcat(s + "_" + p, "_");
    SafeConcat(s + "_" + p + "_", a);
    SafeConcat(s + "_" + p + "_" + a, "_");
    SafeConcat(s + "_" + p + "_" + a + "_", version);
    SafeConcat(s + "_" + p + "_" + a + "_" + version, ".");
    SafeConcat(s + "_" + p + "_" + a + "_" + version + ".", e);
  }
}
