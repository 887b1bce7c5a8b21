/**
 When the operations on releases succeed and what they write, in terms of the stored columns and the form alone.
 */
module ReleaseOutcomes {
  import opened Wrappers
  import opened Crypto
  import opened ReleaseVisibility
  import opened ReleaseService
  import opened PublicReleases
  import Base64Url
  import ManifestJson
  import Text

  lemma ValidMeansSignedNow(verify: Verifier, db: Db, a: Artifact)
    requires HasVersion(db, a)
    ensures HasValidSignature(verify, db, a) <==> IsSignedNow(verify, db, a)
  {
    hide VerifyOta, Payload;
    if BuildManifest(db, a).Some? && a.signature.Some? && a.signatureKeyId.Some? && a.signatureKeyId.value in db.keys {
      VerifyOtaChecksTheBytes(verify, BuildManifest(db, a).value, a.signature.value, db.keys[a.signatureKeyId.value].publicKey);
    }
  }

  /** The manifest can be built exactly from live rows with a known size and a checksum in lower case; it shows their columns. */
  lemma ManifestOutcome(db: Db, a: Artifact)
    ensures
      BuildManifest(db, a).Some?
      <==> && HasProduct(db, a)
           && a.platform in db.platforms && !db.platforms[a.platform].isDeleted
           && a.architecture in db.architectures && !db.architectures[a.architecture].isDeleted
           && a.sizeBytes.Some? && a.sizeBytes.value <= 9_007_199_254_740_991
           && a.sha256.Some? && |a.sha256.value| == 64
           && forall i | 0 <= i < 64 :: '0' <= a.sha256.value[i] <= '9' || 'a' <= a.sha256.value[i] <= 'f'
  {
  }

  /** A signature is accepted exactly when it verifies over the current manifest's bytes under an active key of the product. */
  lemma SignOutcome(verify: Verifier, db: Db, id: Id, keyId: Digest, signature: string)
    ensures
      MaySign(verify, db, id, keyId, signature)
      <==> && id in db.artifacts && !db.artifacts[id].isDeleted
           && BuildManifest(db, db.artifacts[id]).Some?
           && keyId in db.keys && db.keys[keyId].isActive
           && db.keys[keyId].software == db.versions[db.artifacts[id].version].software
           && var m := BuildManifest(db, db.artifacts[id]).value;
           && Base64Url.IsSignatureText(signature) && |Payload(m)| <= 120_000
           && verify(db.keys[keyId].publicKey, ManifestJson.ManifestBytes(m), Base64Url.Decode(signature))
    ensures
      MaySign(verify, db, id, keyId, signature) ==>
        Write(db, SaveSignature(id, signature, keyId, CurrentSnapshot(db, id)))
        == db.(artifacts := db.artifacts[id := db.artifacts[id].(
                 signature := Some(signature), signatureKeyId := Some(keyId),
                 signatureManifest := Some(ManifestJson.ObjectOf(BuildManifest(db, db.artifacts[id]).value)))])
  {
    hide VerifyOta, Payload, ManifestJson.ManifestBytes, ManifestJson.ObjectOf;
    if id in db.artifacts && BuildManifest(db, db.artifacts[id]).Some? && keyId in db.keys {
      VerifyOtaChecksTheBytes(verify, BuildManifest(db, db.artifacts[id]).value, signature, db.keys[keyId].publicKey);
    }
    if MaySign(verify, db, id, keyId, signature) {
      OneRowWritten(db, SaveSignature(id, signature, keyId, CurrentSnapshot(db, id)));
    }
    hide Write, BuildManifest;
  }

  /** Its version and its product are there. */
  predicate HasProduct(db: Db, a: Artifact) {
    a.version in db.versions && !db.versions[a.version].isDeleted && db.versions[a.version].software in db.software
  }

  /**
   A publication succeeds exactly for an artifact that is neither published nor archived, and signed where that is
   required; it sets one flag.
   */
  lemma PublishOutcome(verify: Verifier, db: Db, id: Id)
    ensures
      MayPublish(verify, db, id)
      <==> && id in db.artifacts
           && var a := db.artifacts[id];
           && !a.isDeleted && HasProduct(db, a) && !a.isPublished && !a.isArchived
           && (db.software[db.versions[a.version].software].requireSigned ==> IsSignedNow(verify, db, a))
    ensures id in db.artifacts ==> Write(db, SavePublish(id)) == Set(db, Published(id), true)
  {
    hide HasValidSignature, IsSignedNow;
    if id in db.artifacts {
      OneRowWritten(db, SavePublish(id));
      if HasVersion(db, db.artifacts[id]) {
        ValidMeansSignedNow(verify, db, db.artifacts[id]);
      }
    }
    hide Write;
  }

  /** A release that clients of the product may hold: published, not archived, and under an active version. */
  predicate IsReleased(db: Db, software: Id, id: Id) {
    id in db.artifacts &&
    var a := db.artifacts[id];
    && a.isPublished && !a.isArchived && !a.isDeleted
    && a.version in db.versions && db.versions[a.version].software == software && db.versions[a.version].isActive
  }

  /** Signatures can be required exactly when the product has an active key and every release of it is signed now. */
  lemma RequireOutcome(verify: Verifier, db: Db, software: Id)
    ensures
      MayRequireSignatures(verify, db, software)
      <==> && software in db.software
           && (exists k :: k in db.keys && db.keys[k].software == software && db.keys[k].isActive)
           && forall id | id in db.artifacts && IsReleased(db, software, id) ::
                HasProduct(db, db.artifacts[id]) && IsSignedNow(verify, db, db.artifacts[id])
  {
    hide HasValidSignature, IsSignedNow;
    forall id | id in db.artifacts && HasVersion(db, db.artifacts[id])
      ensures HasValidSignature(verify, db, db.artifacts[id]) <==> IsSignedNow(verify, db, db.artifacts[id])
    {
      ValidMeansSignedNow(verify, db, db.artifacts[id]);
    }
    assert forall id :: IsReleased(db, software, id) <==> Watched(db, software, id);
    assert (exists k :: k in db.keys && db.keys[k].software == software && db.keys[k].isActive) <==> ActiveKeys(db, software) != {} by {
      if ActiveKeys(db, software) != {} {
        var k :| k in ActiveKeys(db, software);
      }
      if k :| k in db.keys && db.keys[k].software == software && db.keys[k].isActive {
        assert k in ActiveKeys(db, software);
      }
    }
  }

  /** Another active key of the product. */
  predicate IsSpare(db: Db, software: Id, keyId: Digest, spare: Digest) {
    spare != keyId && spare in db.keys && db.keys[spare].software == software && db.keys[spare].isActive
  }

  /** An active key can be revoked, unless signatures are required and no other key is active or a release is signed with it. */
  lemma RevokeOutcome(db: Db, software: Id, keyId: Digest)
    ensures
      MayRevoke(db, software, keyId)
      <==> && software in db.software
           && keyId in db.keys && db.keys[keyId].software == software && db.keys[keyId].isActive
           && (db.software[software].requireSigned ==>
                 && (exists spare :: IsSpare(db, software, keyId, spare))
                 && forall id | id in db.artifacts && IsReleased(db, software, id) :: db.artifacts[id].signatureKeyId != Some(keyId))
  {
    var active := ActiveKeys(db, software);
    if keyId in active {
      assert active == (active - {keyId}) + {keyId};
      if spare :| IsSpare(db, software, keyId, spare) {
        assert spare in active - {keyId};
      }
      if |active| > 1 {
        var spare :| spare in active - {keyId};
        assert IsSpare(db, software, keyId, spare);
      }
    }
    assert forall id :: IsReleased(db, software, id) <==> Watched(db, software, id);
    hide ActiveKeys, Watched, IsReleased, IsSpare;
  }

  /** A revocation switches one key off and takes exactly its signatures off the product's artifacts. */
  lemma RevocationEffect(db: Db, software: Id, keyId: Digest, id: Id)
    requires keyId in db.keys && id in db.artifacts
    ensures
      var db' := Write(Write(db, SaveRevocation(software, keyId)), ClearKey(software, keyId));
      var a := db.artifacts[id];
      && db' == db.(keys := db.keys[keyId := db.keys[keyId].(isActive := false)], artifacts := db'.artifacts)
      && db'.artifacts.Keys == db.artifacts.Keys
      && db'.artifacts[id]
         == if a.signatureKeyId == Some(keyId) && a.version in db.versions && db.versions[a.version].software == software
            then a.(signature := None, signatureKeyId := None, signatureManifest := None) else a
  {
    RevocationWritten(db, software, keyId);
    hide Write;
  }

  /******* Edits *******/

  /** A text of seven letters that is "android" in some mixture of cases. */
  predicate SpellsAndroid(s: string) {
    |s| == 7 && forall i | 0 <= i < 7 :: s[i] == "android"[i] || s[i] == "ANDROID"[i]
  }

  /** An x or X with 86 or 64 behind it stands somewhere in the text. */
  predicate NamesIntel(s: string) {
    exists i | 0 <= i <= |s| - 3 :: NamesIntelAt(s, i)
  }

  predicate NamesIntelAt(s: string, i: nat)
    requires i <= |s| - 3
  {
    (s[i] == 'x' || s[i] == 'X') && ((s[i + 1] == '8' && s[i + 2] == '6') || (s[i + 1] == '6' && s[i + 2] == '4'))
  }

  lemma LowerSpells(s: string)
    ensures Lower(s) == "android" <==> SpellsAndroid(s)
  {
    var lower := Lower(s);
    if |s| == 7 {
      assert lower == "android" <==> forall i | 0 <= i < 7 :: lower[i] == "android"[i];
    }
  }

  lemma LowerNames(s: string)
    ensures Includes(Lower(s), "x86") || Includes(Lower(s), "x64") <==> NamesIntel(s)
  {
    var lower := Lower(s);
    forall i: nat | i <= |s| - 3
      ensures "x86" <= lower[i..] || "x64" <= lower[i..] <==> NamesIntelAt(s, i)
    {
      assert lower[i..][0] == lower[i] && lower[i..][1] == lower[i + 1] && lower[i..][2] == lower[i + 2];
    }
    if NamesIntel(s) {
      var i :| 0 <= i <= |s| - 3 && NamesIntelAt(s, i);
      assert "x86" <= lower[i..] || "x64" <= lower[i..];
    }
  }

  /** Only Android refuses an architecture, and exactly those named after x86 or x64. */
  lemma SupportsOutcome(platform: string, architecture: string)
    ensures Supports(platform, architecture) <==> !(SpellsAndroid(platform) && NamesIntel(architecture))
  {
    LowerSpells(platform);
    LowerNames(architecture);
    hide Lower, Includes, SpellsAndroid, NamesIntel;
  }

  /** The part of a file name behind its last dot is kept, and is "bin" when it is empty. */
  lemma ExtensionIsKept(front: string, extension: string)
    requires '.' !in extension && '.' !in front
    ensures Extension(front + "." + extension) == if extension == "" then "bin" else extension
    ensures Extension(front) == if front == "" then "bin" else front
  {
    hide Text.Split;
    Text.SplitFirst(extension, "", '.');
    Text.SplitFirst(front, extension, '.');
    assert front + ['.'] + extension == front + "." + extension;
  }

  /** Leading parts with their dots do not matter to it. */
  lemma ExtensionIsLast(first: string, rest: string)
    requires '.' !in first
    ensures Extension(first + "." + rest) == Extension(rest)
  {
    hide Text.Split;
    Text.SplitFirst(first, rest, '.');
    assert first + ['.'] + rest == first + "." + rest;
  }

  /**
   An edit succeeds exactly on live rows, for a known channel, a supported target of an active product, a name that fits,
   and a free combination of version, targets and channel. It writes the form and the name, and takes the signature off.
   */
  lemma EditOutcome(db: Db, id: Id, form: ArtifactForm, softwareName: string)
    ensures
      Editable(db, id, form, softwareName)
      <==> && form.channel in {"dev", "staging", "beta", "stable"}
           && id in db.artifacts && !db.artifacts[id].isDeleted
           && form.version in db.versions && !db.versions[form.version].isDeleted
           && form.platform in db.platforms && !db.platforms[form.platform].isDeleted
           && form.architecture in db.architectures && !db.architectures[form.architecture].isDeleted
           && !(SpellsAndroid(db.platforms[form.platform].name) && NamesIntel(db.architectures[form.architecture].name))
           && db.versions[form.version].software in db.software && db.software[db.versions[form.version].software].isActive
           && |EditedName(db, db.artifacts[id], form, softwareName)| <= 255
           && forall other | other in db.artifacts && other != id ::
                var b := db.artifacts[other];
                (b.version, b.platform, b.architecture, b.channel) != (form.version, form.platform, form.architecture, form.channel)
    ensures
      Editable(db, id, form, softwareName) ==>
        Write(db, EditOf(db, id, form, softwareName))
        == db.(artifacts := db.artifacts[id := db.artifacts[id].(
                 version := form.version, platform := form.platform, architecture := form.architecture, channel := form.channel,
                 isArchived := form.isArchived, fileName := EditedName(db, db.artifacts[id], form, softwareName),
                 signature := None, signatureKeyId := None, signatureManifest := None)])
  {
    hide EditedName, Supports, SpellsAndroid, NamesIntel;
    if form.platform in db.platforms && form.architecture in db.architectures {
      SupportsOutcome(db.platforms[form.platform].name, db.architectures[form.architecture].name);
    }
    if Editable(db, id, form, softwareName) {
      OneRowWritten(db, EditOf(db, id, form, softwareName));
      hide Write;
    }
  }

  /** A rebuild sets the name and a checksum that could be read, and takes the signature off when it sets something. */
  lemma RebuildEffect(a: Artifact, newName: string, checksum: Option<string>)
    ensures
      var a' := Rebuilt(a, newName, checksum);
      && a'.fileName == newName
      && a'.sha256 == (if checksum.Some? then checksum else a.sha256)
      && (a.fileName == newName && checksum.None? ==> a' == a)
      && (a.fileName != newName || checksum.Some? ==>
            a' == a.(fileName := newName, sha256 := a'.sha256, signature := None, signatureKeyId := None, signatureManifest := None))
  {
  }
}
