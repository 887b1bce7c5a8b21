/** Precedence of semantic versions (section 11 of Semantic Versioning 2.0.0). */
module SemVer {
  datatype Identifier = Numeric(value: nat) | Alphanumeric(text: string)

  /** A parsed version; build metadata has no precedence. A release has no pre-release identifiers. */
  datatype Version = Version(major: nat, minor: nat, patch: nat, prerelease: seq<Identifier>)

  function Release(major: nat, minor: nat, patch: nat): Version {
    Version(major, minor, patch, [])
  }

  /** The order of major, minor and patch, most significant first. */
  predicate CoreLess(a: Version, b: Version) {
    a.major < b.major
    || (a.major == b.major && (a.minor < b.minor || (a.minor == b.minor && a.patch < b.patch)))
  }

  predicate SameCore(a: Version, b: Version) {
    a.major == b.major && a.minor == b.minor && a.patch == b.patch
  }

  predicate TextLess(a: string, b: string) {
    b != "" && (a == "" || a[0] < b[0] || (a[0] == b[0] && TextLess(a[1..], b[1..])))
  }

  predicate IdentifierLess(a: Identifier, b: Identifier) {
    match (a, b)
    case (Numeric(m), Numeric(n)) => m < n
    case (Alphanumeric(s), Alphanumeric(t)) => TextLess(s, t)
    case (Numeric(_), Alphanumeric(_)) => true
    case (Alphanumeric(_), Numeric(_)) => false
  }

  predicate IdentifiersLess(a: seq<Identifier>, b: seq<Identifier>) {
    b != []
    && (a == [] || IdentifierLess(a[0], b[0]) || (a[0] == b[0] && IdentifiersLess(a[1..], b[1..])))
  }

  /** The core decides first; with equal cores, a pre-release comes before its release. */
  predicate Less(a: Version, b: Version) {
    CoreLess(a, b)
    || (SameCore(a, b) && a.prerelease != []
        && (b.prerelease == [] || IdentifiersLess(a.prerelease, b.prerelease)))
  }

  lemma {:induction false} TextOrder(a: string, b: string, c: string)
    ensures a == b <==> !TextLess(a, b) && !TextLess(b, a)
    ensures !(TextLess(a, b) && TextLess(b, a))
    ensures TextLess(a, b) && TextLess(b, c) ==> TextLess(a, c)
  {
    if a != "" && b != "" {
      TextOrder(a[1..], b[1..], if c == "" then "" else c[1..]);
      assert a == [a[0]] + a[1..] && b == [b[0]] + b[1..];
    }
  }

  lemma {:induction false} IdentifiersOrder(a: seq<Identifier>, b: seq<Identifier>, c: seq<Identifier>)
    ensures a == b <==> !IdentifiersLess(a, b) && !IdentifiersLess(b, a)
    ensures !(IdentifiersLess(a, b) && IdentifiersLess(b, a))
    ensures IdentifiersLess(a, b) && IdentifiersLess(b, c) ==> IdentifiersLess(a, c)
  {
    if a != [] && b != [] {
      IdentifiersOrder(a[1..], b[1..], if c == [] then [] else c[1..]);
      IdentifierOrder(a[0], b[0], if c == [] then a[0] else c[0]);
      assert a == [a[0]] + a[1..] && b == [b[0]] + b[1..];
    }
  }

  lemma IdentifierOrder(a: Identifier, b: Identifier, c: Identifier)
    ensures a == b <==> !IdentifierLess(a, b) && !IdentifierLess(b, a)
    ensures !(IdentifierLess(a, b) && IdentifierLess(b, a))
    ensures IdentifierLess(a, b) && IdentifierLess(b, c) ==> IdentifierLess(a, c)
  {
    if a.Alphanumeric? && b.Alphanumeric? {
      TextOrder(a.text, b.text, if c.Alphanumeric? then c.text else "");
    }
  }

  /** Precedence is a strict total order on versions. */
  lemma PrecedenceIsTotalOrder(a: Version, b: Version, c: Version)
    ensures a == b <==> !Less(a, b) && !Less(b, a)
    ensures !(Less(a, b) && Less(b, a))
    ensures Less(a, b) && Less(b, c) ==> Less(a, c)
  {
    IdentifiersOrder(a.prerelease, b.prerelease, c.prerelease);
  }

  /******* The rules of section 11, without recursion *******/

  /** The texts agree up to a character that comes earlier in ASCII order, or up to the end of the first. */
  predicate TextBeforeAt(a: string, b: string, i: nat) {
    i <= |a| && i < |b| && a[..i] == b[..i] && (i == |a| || a[i] < b[i])
  }

  /** Rule 11.4.1 to 11.4.3: numbers by size, texts in ASCII order, numbers before texts. */
  ghost predicate IdentifierBefore(a: Identifier, b: Identifier) {
    || (a.Numeric? && b.Numeric? && a.value < b.value)
    || (a.Alphanumeric? && b.Alphanumeric? && exists i :: TextBeforeAt(a.text, b.text, i))
    || (a.Numeric? && b.Alphanumeric?)
  }

  /** Rule 11.4 with 11.4.4: the first identifiers that differ decide, or the list that ends first. */
  ghost predicate BeforeAt(a: seq<Identifier>, b: seq<Identifier>, i: nat) {
    i <= |a| && i < |b| && a[..i] == b[..i] && (i == |a| || IdentifierBefore(a[i], b[i]))
  }

  lemma {:induction false} TextLessIff(a: string, b: string)
    ensures TextLess(a, b) <==> exists i :: TextBeforeAt(a, b, i)
  {
    if a == "" || b == "" {
      assert b != "" ==> TextBeforeAt(a, b, 0);
    } else if a[0] == b[0] {
      TextLessIff(a[1..], b[1..]);
      if i: nat :| TextBeforeAt(a[1..], b[1..], i) {
        assert a[..i + 1] == [a[0]] + a[1..][..i] && b[..i + 1] == [b[0]] + b[1..][..i];
        assert TextBeforeAt(a, b, i + 1);
      }
      if i: nat :| TextBeforeAt(a, b, i) {
        assert i > 0 && a[1..][..i - 1] == a[..i][1..] && b[1..][..i - 1] == b[..i][1..];
        assert TextBeforeAt(a[1..], b[1..], i - 1);
      }
    } else {
      assert a[0] < b[0] ==> TextBeforeAt(a, b, 0);
      assert forall i: nat | 0 < i <= |a| && i <= |b| :: a[..i][0] != b[..i][0];
    }
  }

  lemma IdentifierLessIff(a: Identifier, b: Identifier)
    ensures IdentifierLess(a, b) <==> IdentifierBefore(a, b)
  {
    if a.Alphanumeric? && b.Alphanumeric? {
      TextLessIff(a.text, b.text);
    }
  }

  lemma {:induction false} IdentifiersLessIff(a: seq<Identifier>, b: seq<Identifier>)
    ensures IdentifiersLess(a, b) <==> exists i :: BeforeAt(a, b, i)
  {
    hide IdentifierLess, IdentifierBefore;
    if a == [] || b == [] {
      assert b != [] ==> BeforeAt(a, b, 0);
    } else {
      IdentifierLessIff(a[0], b[0]);
      assert IdentifierBefore(a[0], b[0]) ==> BeforeAt(a, b, 0);
      if a[0] == b[0] {
        IdentifiersLessIff(a[1..], b[1..]);
        if i: nat :| BeforeAt(a[1..], b[1..], i) {
          assert a[..i + 1] == [a[0]] + a[1..][..i] && b[..i + 1] == [b[0]] + b[1..][..i];
          assert BeforeAt(a, b, i + 1);
        }
      }
      if i: nat :| BeforeAt(a, b, i) {
        if i > 0 {
          assert a[..i][0] == b[..i][0];
          assert a[1..][..i - 1] == a[..i][1..] && b[1..][..i - 1] == b[..i][1..];
          assert BeforeAt(a[1..], b[1..], i - 1);
        }
      }
    }
  }

  /** Precedence by the rules of section 11: the first of major, minor and patch that differs, then the pre-release. */
  lemma LessIff(a: Version, b: Version)
    ensures
      Less(a, b)
      <==> || a.major < b.major
           || (a.major == b.major && a.minor < b.minor)
           || (a.major == b.major && a.minor == b.minor && a.patch < b.patch)
           || (&& a.major == b.major && a.minor == b.minor && a.patch == b.patch
               && a.prerelease != [] && (b.prerelease == [] || exists i :: BeforeAt(a.prerelease, b.prerelease, i)))
  {
    IdentifiersLessIff(a.prerelease, b.prerelease);
    hide IdentifiersLess, BeforeAt;
  }
}
