/** The signer takes every manifest built from rows that the services accepted, but for the limits that only the signer has. */
module ManifestAcceptance {
  import opened Wrappers
  import opened Decimal
  import opened ManifestJson
  import opened PayloadParser
  import opened ReleaseVisibility
  import opened VersionInput
  import Base64Url
  import FileNames
  import SlugAllocator
  import Text
  import Utf8
  import VersionFilter

  /** The name fits its column and was built from some names, a version and a file extension. */
  ghost predicate FileNameFromService(fileName: string) {
    |fileName| <= 255 &&
    exists s, p, a, major, minor, patch, codename, extension ::
      fileName == FileNames.BuildFileName(s, p, a, major, minor, patch, codename, extension)
  }

  ghost predicate FromServices(db: Db, a: Artifact)
    requires HasVersion(db, a)
  {
    var v := db.versions[a.version];
    && VersionFromService(v)
    && SlugAllocator.IsSlug(db.software[v.software].slug)
    && |db.software[v.software].slug| <= SlugAllocator.MAX_SLUG_LENGTH
    && (a.channel == "dev" || a.channel == "staging" || a.channel == "beta" || a.channel == "stable")
    && FileNameFromService(a.fileName)
  }

  /******* What the signer's checks make of it *******/

  lemma {:induction false} NumberBound(s: string, k: nat)
    requires AllDigits(s) && |s| <= k
    ensures Number(s) < Pow10(k)
  {
    if s == "" {
      PowPositive(k);
    } else {
      NumberBound(s[..|s| - 1], k - 1);
    }
  }

  lemma {:induction false} PowPositive(k: nat)
    ensures Pow10(k) > 0
  {
    if k > 0 {
      PowPositive(k - 1);
    }
  }

  lemma PartFits(text: string)
    requires ParsePart(text).Some?
    ensures ParsePart(text).value < 1_000_000_000
  {
    NumberBound(text, 9);
    assert Pow10(9) == 1_000_000_000 by {
      assert Pow10(4) == 10_000;
      assert Pow10(8) == 100_000_000;
    }
  }

  lemma PrintedPart(n: nat)
    requires n <= MAX_INT_32
    ensures IsVersionPart(Digits(n)) && '.' !in Digits(n)
  {
    NumberOfDigits(n);
    assert forall i | 0 <= i < |Digits(n)| :: IsDigit(Digits(n)[i]);
  }

  /** The version text has three parts in the form that the signer wants. */
  lemma VersionTextIsVersion(v: Version)
    requires v.major <= MAX_INT_32 && v.minor <= MAX_INT_32 && v.patch <= MAX_INT_32
    ensures IsVersion(VersionText(v))
  {
    PrintedPart(v.major);
    PrintedPart(v.minor);
    PrintedPart(v.patch);
    hide Digits, IsVersionPart, Text.Split;
    var parts := [Digits(v.major), Digits(v.minor), Digits(v.patch)];
    assert parts[1..] == [Digits(v.minor), Digits(v.patch)] && parts[1..][1..] == [Digits(v.patch)];
    assert Text.Join(parts[1..], '.') == Digits(v.minor) + ['.'] + Digits(v.patch);
    assert VersionText(v) == Text.Join(parts, '.');
    Text.SplitJoin(parts, '.');
  }

  lemma EnteredVersionFits(v: Version)
    requires VersionFromService(v)
    ensures IsVersion(VersionText(v))
    ensures v.codename.Some? ==> ByteLength(v.codename.value) <= 1024
    ensures v.changelog.Some? ==> ByteLength(v.changelog.value) <= 90_000
  {
    hide VersionFilter.Trim, Text.Units, Number, Utf8.Encode;
    var major, minor, patch, codename, changelog :| Entered(v, major, minor, patch, codename, changelog);
    PartFits(major);
    PartFits(minor);
    PartFits(patch);
    VersionTextIsVersion(v);
    if v.codename.Some? {
      TrimShortens(codename.value);
      Utf8.LengthBound(v.codename.value);
    }
    if v.changelog.Some? {
      Utf8.LengthBound(v.changelog.value);
    }
  }

  lemma TrimShortens(s: string)
    ensures |VersionFilter.Trim(s)| <= |s|
  {
  }

  lemma SafeNameFits(name: string)
    requires FileNames.AllSafe(name) && 1 <= |name| <= 255
    ensures IsFileName(name)
  {
    forall i | 0 <= i < |name|
      ensures name[i] as int < 0x80 && !IsControl(name[i]) && name[i] != '/' && name[i] != '\\'
    {
      assert FileNames.IsSafeChar(name[i]);
    }
    AsciiLength(name);
  }

  lemma EnteredFileNameFits(fileName: string)
    requires FileNameFromService(fileName)
    ensures IsFileName(fileName)
  {
    hide FileNames.AllSafe, IsFileName, FileNames.BuildFileName;
    var s, p, a, major, minor, patch, codename, extension :|
      fileName == FileNames.BuildFileName(s, p, a, major, minor, patch, codename, extension);
    FileNames.FileNameIsSafe(s, p, a, major, minor, patch, codename, extension);
    SafeNameFits(fileName);
  }

  lemma ColumnsOf(db: Db, a: Artifact, m: Manifest)
    requires BuildManifest(db, a) == Some(m)
    ensures HasVersion(db, a)
    ensures
      var v := db.versions[a.version];
      && m.software == db.software[v.software].slug && m.version == VersionText(v)
      && m.codename == v.codename && m.changelog == v.changelog && m.channel == a.channel && m.fileName == a.fileName
    ensures m.sizeBytes <= MAX_SAFE_INTEGER && IsHex64(m.sha256)
  {
  }

  lemma OnlyTargetNamesCanFail(db: Db, a: Artifact, m: Manifest)
    requires BuildManifest(db, a) == Some(m) && HasVersion(db, a) && FromServices(db, a)
    ensures Supported(1, m, m.software) <==> IsTargetName(m.platform) && IsTargetName(m.architecture)
  {
    ColumnsOf(db, a, m);
    hide BuildManifest, IsTargetName, IsFileName, IsVersion, VersionText, IsHex64, ByteLength;
    hide SlugAllocator.IsSlug, SlugAllocator.ValidSlug, VersionFromService, FileNameFromService;
    EnteredVersionFits(db.versions[a.version]);
    EnteredFileNameFits(a.fileName);
    SlugAllocator.SlugIsValid(m.software);
  }

  /**
   The signer reads every manifest built from rows that the services accepted, and reads back
   exactly that manifest, if and only if the payload has at most 120,000 characters and the names of
   the platform and the architecture are non-empty, free of control characters and at most 100
   bytes long. Target names come from no validated input: their column alone admits 50 characters,
   which can take 200 bytes.
   */
  lemma SignerReadsServiceManifests(db: Db, a: Artifact, m: Manifest)
    requires BuildManifest(db, a) == Some(m) && HasVersion(db, a) && FromServices(db, a)
    ensures
      ParsePayload(Payload(m), m.software) == Ok((ManifestBytes(m), m))
      <==> |Payload(m)| <= Base64Url.MAX_PAYLOAD_LENGTH && IsTargetName(m.platform) && IsTargetName(m.architecture)
  {
    hide BuildManifest, FromServices, Supported, ParsePayload, Payload, IsTargetName;
    OnlyTargetNamesCanFail(db, a, m);
    ParseOfPayload(m, m.software);
  }

  /** A platform whose name fits its column of 50 characters, and that the signer still refuses. */
  lemma LongTargetNameIsRefused(m: Manifest)
    requires m.platform == seq(50, _ => '\U{20AC}')
    ensures |m.platform| == 50 && !IsTargetName(m.platform)
    ensures ParsePayload(Payload(m), m.software).Err?
  {
    EuroBytes(50);
    ParseOfPayload(m, m.software);
  }

  lemma {:induction false} EuroBytes(n: nat)
    ensures ByteLength(seq(n, _ => '\U{20AC}')) == 3 * n
  {
    if n > 0 {
      EuroBytes(n - 1);
      assert seq(n, _ => '\U{20AC}')[1..] == seq(n - 1, _ => '\U{20AC}');
    }
  }

  /******* Exactly what the signer accepts *******/

  /** Without leading zeros, the digits of a number are its text. */
  lemma {:induction false} DigitsOfNumber(s: string)
    requires s != "" && AllDigits(s) && (|s| == 1 || s[0] != '0')
    ensures Digits(Number(s)) == s
  {
    if |s| == 1 {
      assert s[..0] == "";
      assert s == [s[0]];
    } else {
      var front := s[..|s| - 1];
      DigitsOfNumber(front);
      assert s == front + [s[|s| - 1]];
    }
  }

  lemma PartIsCanonical(s: string)
    ensures IsVersionPart(s) <==> exists n: nat | n <= 2_147_483_647 :: s == Digits(n)
  {
    if IsVersionPart(s) {
      DigitsOfNumber(s);
      assert s == Digits(Number(s));
    }
    if n: nat :| n <= 2_147_483_647 && s == Digits(n) {
      PrintedPart(n);
    }
  }

  ghost predicate SpellsVersion(s: string, a: nat, b: nat, c: nat) {
    a <= 2_147_483_647 && b <= 2_147_483_647 && c <= 2_147_483_647 && s == Digits(a) + "." + Digits(b) + "." + Digits(c)
  }

  lemma VersionForm(s: string)
    ensures IsVersion(s) <==> exists a, b, c :: SpellsVersion(s, a, b, c)
  {
    hide IsVersionPart, Text.Split, Digits;
    if IsVersion(s) {
      var parts := Text.Split(s, '.');
      PartIsCanonical(parts[0]);
      PartIsCanonical(parts[1]);
      PartIsCanonical(parts[2]);
      var a: nat :| a <= 2_147_483_647 && parts[0] == Digits(a);
      var b: nat :| b <= 2_147_483_647 && parts[1] == Digits(b);
      var c: nat :| c <= 2_147_483_647 && parts[2] == Digits(c);
      Text.JoinSplit(s, '.');
      assert parts[1..] == [Digits(b), Digits(c)] && parts[1..][1..] == [Digits(c)];
      assert Text.Join(parts[1..], '.') == Digits(b) + ['.'] + Digits(c);
      assert s == Digits(a) + ['.'] + (Digits(b) + ['.'] + Digits(c));
      assert SpellsVersion(s, a, b, c);
    }
    if a, b, c :| SpellsVersion(s, a, b, c) {
      PrintedPart(a);
      PrintedPart(b);
      PrintedPart(c);
      FileNames.ThreeParts(Digits(a), Digits(b), Digits(c));
    }
  }

  predicate IsPrintable(c: char) {
    c >= ' ' && !('\U{7F}' <= c <= '\U{9F}')
  }

  /** Every value that the signer demands of a manifest for a product, written out. */
  ghost predicate IsAcceptable(m: Manifest, product: string) {
    && m.software == product
    && 1 <= |product| <= 80 && product[0] != '-' && product[|product| - 1] != '-'
    && (forall i | 0 <= i < |product| :: 'a' <= product[i] <= 'z' || '0' <= product[i] <= '9' || product[i] == '-')
    && (exists a, b, c :: SpellsVersion(m.version, a, b, c))
    && m.channel in {"stable", "beta", "dev", "staging"}
    && m.platform != "" && |Utf8.Encode(m.platform)| <= 100
    && (forall i | 0 <= i < |m.platform| :: IsPrintable(m.platform[i]))
    && m.architecture != "" && |Utf8.Encode(m.architecture)| <= 100
    && (forall i | 0 <= i < |m.architecture| :: IsPrintable(m.architecture[i]))
    && m.fileName != "" && |Utf8.Encode(m.fileName)| <= 500
    && (forall i | 0 <= i < |m.fileName| :: IsPrintable(m.fileName[i]) && m.fileName[i] != '/' && m.fileName[i] != '\\')
    && m.sizeBytes <= 9_007_199_254_740_991
    && |m.sha256| == 64 && (forall i | 0 <= i < 64 :: '0' <= m.sha256[i] <= '9' || 'a' <= m.sha256[i] <= 'f')
    && (m.codename.Some? ==> |Utf8.Encode(m.codename.value)| <= 1024)
    && (m.changelog.Some? ==> |Utf8.Encode(m.changelog.value)| <= 90_000)
  }

  lemma SupportedOutcome(m: Manifest, product: string)
    ensures Supported(1, m, product) <==> IsAcceptable(m, product)
  {
    VersionForm(m.version);
    hide IsVersion, SpellsVersion, Utf8.Encode;
    assert forall c: char :: IsPrintable(c) <==> !IsControl(c);
  }

  /** The signer accepts the service's payload of a manifest if and only if it is short enough and every value is acceptable. */
  lemma AcceptedIff(m: Manifest, product: string)
    ensures ParsePayload(Payload(m), product).Ok? <==> |Payload(m)| <= 120_000 && IsAcceptable(m, product)
    ensures ParsePayload(Payload(m), product).Ok? ==> ParsePayload(Payload(m), product) == Ok((ManifestBytes(m), m))
  {
    hide ParsePayload, Payload, Supported, IsAcceptable;
    ParseOfPayload(m, product);
    SupportedOutcome(m, product);
  }
}
