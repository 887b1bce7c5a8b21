/** What the version service accepts from a form, and what it stores of it. */
module VersionInput {
  import opened Wrappers
  import opened Decimal
  import opened ReleaseVisibility
  import Text
  import VersionFilter

  function ParsePart(text: string): Option<nat> {
    if 1 <= |text| <= 9 && AllDigits(text) then Some(Number(text)) else None
  }

  /** A part is read if and only if it is the number's decimal form, with or without leading zeros, in at most nine digits. */
  lemma PartIsRead(text: string, n: nat)
    ensures ParsePart(text) == Some(n) ==> n < 1_000_000_000
    ensures n < 1_000_000_000 ==> ParsePart(Digits(n)) == Some(n)
    ensures ParsePart(text).Some? <==> 1 <= |text| <= 9 && forall i | 0 <= i < |text| :: '0' <= text[i] <= '9'
  {
    NumberOfDigits(n);
    assert Pow10(9) == 1_000_000_000 by {
      assert Pow10(3) == 1_000;
      assert Pow10(6) == 1_000_000;
    }
    if n < 1_000_000_000 {
      DigitsLength(n, 9);
    }
    if ParsePart(text).Some? {
      NumberBound(text);
      PowGrows(|text|, 9);
    }
  }

  lemma {:induction false} NumberBound(text: string)
    requires AllDigits(text)
    ensures Number(text) < Pow10(|text|)
  {
    if text != "" {
      NumberBound(text[..|text| - 1]);
    }
  }

  lemma {:induction false} PowGrows(j: nat, k: nat)
    requires j <= k
    ensures Pow10(j) <= Pow10(k)
  {
    if j < k {
      PowGrows(j, k - 1);
    }
  }

  /** Which codenames and changelogs are accepted, and what is stored of them. */
  lemma TextsAreKept(codename: Option<string>, changelog: Option<string>)
    ensures ParseCodename(codename).Ok? <==> codename.None? || Text.Units(codename.value) <= 100
    ensures ParseChangelog(changelog).Ok? <==> changelog.None? || Text.Units(changelog.value) <= 20_000
    ensures ParseChangelog(changelog).Ok? && changelog.Some? && changelog.value != "" ==> ParseChangelog(changelog).value == changelog
    ensures ParseCodename(codename).Ok? && codename.Some? && VersionFilter.Trim(codename.value) != "" ==>
              ParseCodename(codename).value == Some(VersionFilter.Trim(codename.value))
    ensures ParseCodename(codename).Ok? && ParseCodename(codename).value.None? ==>
              codename.None? || VersionFilter.Trim(codename.value) == ""
    ensures ParseChangelog(changelog).Ok? && ParseChangelog(changelog).value.None? ==> changelog.None? || changelog.value == ""
  {
  }

  /** `None` is an absent or null value, which is stored as null like the empty text. */
  function ParseCodename(value: Option<string>): Result<Option<string>, string> {
    if value.None? || value.value == "" then Ok(None)
    else if Text.Units(value.value) > 100 then Err("Codename must be 100 characters or fewer.")
    else if VersionFilter.Trim(value.value) == "" then Ok(None)
    else Ok(Some(VersionFilter.Trim(value.value)))
  }

  function ParseChangelog(value: Option<string>): Result<Option<string>, string> {
    if value.None? || value.value == "" then Ok(None)
    else if Text.Units(value.value) > 20_000 then Err("Changelog must be 20,000 characters or fewer.")
    else Ok(value)
  }

  /** The version holds what the service parsed from some form input. */
  ghost predicate Entered(
    v: Version, major: string, minor: string, patch: string, codename: Option<string>, changelog: Option<string>)
  {
    && ParsePart(major) == Some(v.major) && ParsePart(minor) == Some(v.minor) && ParsePart(patch) == Some(v.patch)
    && ParseCodename(codename) == Ok(v.codename)
    && ParseChangelog(changelog) == Ok(v.changelog)
  }

  ghost predicate VersionFromService(v: Version) {
    exists major, minor, patch, codename, changelog :: Entered(v, major, minor, patch, codename, changelog)
  }
}
