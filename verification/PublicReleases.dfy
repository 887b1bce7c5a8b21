/**
 The public set of artifacts, by what puts an artifact into it and what takes it out, and what a client reads out
 of a released payload.
 */
module PublicReleases {
  import opened Wrappers
  import opened Crypto
  import opened Decimal
  import opened ManifestJson
  import opened ReleaseVisibility
  import Base64Url
  import PayloadParser
  import ReleaseService
  import SemVer
  import Text
  import UpdateSelection
  import Utf8

  /******* Exactly what is public *******/

  /** Nothing that the artifact hangs on is deactivated or deleted, and it is published and not archived. */
  predicate IsLive(db: Db, id: Id) {
    id in db.artifacts &&
    var a := db.artifacts[id];
    && a.isPublished && !a.isArchived && !a.isDeleted
    && a.version in db.versions && db.versions[a.version].isActive && !db.versions[a.version].isDeleted
    && db.versions[a.version].software in db.software && db.software[db.versions[a.version].software].isActive
    && a.platform in db.platforms && !db.platforms[a.platform].isDeleted
    && a.architecture in db.architectures && !db.architectures[a.architecture].isDeleted
    && a.storage in db.storages && db.storages[a.storage].isActive && !db.storages[a.storage].isDeleted
  }

  /** The artifact's product wants a signature. */
  predicate WantsSignature(db: Db, id: Id) {
    IsLive(db, id) && db.software[db.versions[db.artifacts[id].version].software].requireSigned
  }

  /** The stored signature verifies over the bytes of the current manifest, under an active key of the artifact's product. */
  predicate IsSignedNow(verify: Verifier, db: Db, a: Artifact) {
    HasVersion(db, a) &&
    var m := BuildManifest(db, a);
    && m.Some? && a.signature.Some? && a.signatureKeyId.Some?
    && Base64Url.IsSignatureText(a.signature.value)
    && |Payload(m.value)| <= 120_000
    && a.signatureKeyId.value in db.keys
    && var key := db.keys[a.signatureKeyId.value];
    && key.isActive && key.software == db.versions[a.version].software
    && verify(key.publicKey, ManifestBytes(m.value), Base64Url.Decode(a.signature.value))
  }

  lemma VerifyOtaChecksTheBytes(verify: Verifier, m: Manifest, signature: string, key: PublicKey)
    ensures
      VerifyOta(verify, Payload(m), signature, key)
      <==> && Base64Url.IsSignatureText(signature) && |Payload(m)| <= 120_000
           && verify(key, ManifestBytes(m), Base64Url.Decode(signature))
  {
    var bytes := ManifestBytes(m);
    Base64Url.EncodeDecode(bytes);
    ManifestHasBytes(m);
  }

  lemma ManifestHasBytes(m: Manifest)
    ensures ManifestBytes(m) != [] && Payload(m) != ""
  {
    Utf8.LengthBound(PrintObject(Fields(m)));
  }

  lemma UnsignedIsPublicIff(db: Db, id: Id)
    requires IsLive(db, id) ==> !WantsSignature(db, id)
    ensures Public(db, id) <==> IsLive(db, id)
  {
    hide SqlFields, Overlay;
  }

  /**
   Among attested rows, an artifact is public if and only if it is live and, where its product wants a signature, signed
   over its current manifest.
   */
  lemma PublicIff(verify: Verifier, db: Db, id: Id)
    requires AllAttested(verify, db) && OneMessagePerSignature(verify)
    ensures Public(db, id) <==> IsLive(db, id) && (WantsSignature(db, id) ==> IsSignedNow(verify, db, db.artifacts[id]))
  {
    hide SqlFields, Overlay, BuildManifest, ObjectOf, VerifyOta, Payload, ManifestBytes, OneMessagePerSignature, Attested;
    if WantsSignature(db, id) {
      var a := db.artifacts[id];
      if Public(db, id) {
        PublicIsProven(verify, db, id);
        VerifyOtaChecksTheBytes(verify, BuildManifest(db, a).value, a.signature.value, db.keys[a.signatureKeyId.value].publicKey);
      }
      if IsSignedNow(verify, db, a) {
        VerifyOtaChecksTheBytes(verify, BuildManifest(db, a).value, a.signature.value, db.keys[a.signatureKeyId.value].publicKey);
        ValidSignatureHasCurrentSnapshot(verify, db, a);
        BuiltManifestIsTheSqlObject(db, a);
      }
    } else {
      UnsignedIsPublicIff(db, id);
    }
  }

  /******* What takes an artifact out of the public set, and puts it back *******/

  /** The flags of the rows that an artifact hangs on. */
  datatype Switch =
    | ProductActive(id: Id)
    | VersionActive(id: Id)
    | VersionKept(id: Id)
    | PlatformKept(id: Id)
    | ArchitectureKept(id: Id)
    | StorageActive(id: Id)
    | StorageKept(id: Id)
    | Published(id: Id)
    | Unarchived(id: Id)
    | ArtifactKept(id: Id)

  predicate Has(db: Db, switch: Switch) {
    match switch
    case ProductActive(id) => id in db.software
    case VersionActive(id) => id in db.versions
    case VersionKept(id) => id in db.versions
    case PlatformKept(id) => id in db.platforms
    case ArchitectureKept(id) => id in db.architectures
    case StorageActive(id) => id in db.storages
    case StorageKept(id) => id in db.storages
    case _ => switch.id in db.artifacts
  }

  function Set(db: Db, switch: Switch, on: bool): Db
    requires Has(db, switch)
  {
    var id := switch.id;
    match switch
    case ProductActive(_) => db.(software := db.software[id := db.software[id].(isActive := on)])
    case VersionActive(_) => db.(versions := db.versions[id := db.versions[id].(isActive := on)])
    case VersionKept(_) => db.(versions := db.versions[id := db.versions[id].(isDeleted := !on)])
    case PlatformKept(_) => db.(platforms := db.platforms[id := db.platforms[id].(isDeleted := !on)])
    case ArchitectureKept(_) => db.(architectures := db.architectures[id := db.architectures[id].(isDeleted := !on)])
    case StorageActive(_) => db.(storages := db.storages[id := db.storages[id].(isActive := on)])
    case StorageKept(_) => db.(storages := db.storages[id := db.storages[id].(isDeleted := !on)])
    case Published(_) => db.(artifacts := db.artifacts[id := db.artifacts[id].(isPublished := on)])
    case Unarchived(_) => db.(artifacts := db.artifacts[id := db.artifacts[id].(isArchived := !on)])
    case ArtifactKept(_) => db.(artifacts := db.artifacts[id := db.artifacts[id].(isDeleted := !on)])
  }

  predicate IsOn(db: Db, switch: Switch)
    requires Has(db, switch)
  {
    match switch
    case ProductActive(id) => db.software[id].isActive
    case VersionActive(id) => db.versions[id].isActive
    case VersionKept(id) => !db.versions[id].isDeleted
    case PlatformKept(id) => !db.platforms[id].isDeleted
    case ArchitectureKept(id) => !db.architectures[id].isDeleted
    case StorageActive(id) => db.storages[id].isActive
    case StorageKept(id) => !db.storages[id].isDeleted
    case Published(id) => db.artifacts[id].isPublished
    case Unarchived(id) => !db.artifacts[id].isArchived
    case ArtifactKept(id) => !db.artifacts[id].isDeleted
  }

  /** The artifact refers to the switch's row, directly or through its version. */
  predicate HangsOn(db: Db, id: Id, switch: Switch) {
    id in db.artifacts &&
    var a := db.artifacts[id];
    match switch
    case ProductActive(product) => a.version in db.versions && db.versions[a.version].software == product
    case VersionActive(version) => a.version == version
    case VersionKept(version) => a.version == version
    case PlatformKept(platform) => a.platform == platform
    case ArchitectureKept(architecture) => a.architecture == architecture
    case StorageActive(storage) => a.storage == storage
    case StorageKept(storage) => a.storage == storage
    case _ => switch.id == id
  }

  lemma SwitchKeepsSqlFields(db: Db, switch: Switch, on: bool, id: Id)
    requires Has(db, switch) && id in db.artifacts && HasVersion(db, db.artifacts[id])
    ensures
      var db' := Set(db, switch, on);
      id in db'.artifacts
      && (HasVersion(db', db'.artifacts[id]) ==> SqlFields(db', db'.artifacts[id]) == SqlFields(db, db.artifacts[id]))
  {
    hide SqlFields;
    var a, db' := db.artifacts[id], Set(db, switch, on);
    if HasVersion(db', db'.artifacts[id]) {
      SameSqlFields(db, a, db', db'.artifacts[id]);
    }
  }

  /** Two rows with the same columns in the manifest, and the same names around them. */
  lemma SameSqlFields(db: Db, a: Artifact, db': Db, a': Artifact)
    requires HasVersion(db, a) && HasVersion(db', a')
    requires
      a' == a.(isPublished := a'.isPublished, isArchived := a'.isArchived, isDeleted := a'.isDeleted)
    requires
      var v, v' := db.versions[a.version], db'.versions[a'.version];
      v' == v.(isActive := v'.isActive, isDeleted := v'.isDeleted)
      && db'.software[v'.software].slug == db.software[v.software].slug
    requires SameName(db.platforms, db'.platforms, a.platform) && SameName(db.architectures, db'.architectures, a.architecture)
    ensures SqlFields(db', a') == SqlFields(db, a)
  {
  }

  predicate SameName(targets: map<Id, Target>, targets': map<Id, Target>, id: Id) {
    (id in targets <==> id in targets') && (id in targets ==> targets[id].name == targets'[id].name)
  }

  /** Switching a row off hides exactly the artifacts that hang on it, of those that are public with the row on. */
  lemma SwitchingOffHidesExactly(db: Db, switch: Switch, id: Id)
    requires Has(db, switch) && IsOn(db, switch)
    ensures Public(Set(db, switch, false), id) <==> Public(db, id) && !HangsOn(db, id, switch)
  {
    if id in db.artifacts {
      SwitchKeepsPolicy(db, switch, id);
      hide SignaturePolicy;
      var db' := Set(db, switch, false);
      assert id in db'.artifacts;
    }
  }

  lemma SwitchKeepsPolicy(db: Db, switch: Switch, id: Id)
    requires Has(db, switch) && id in db.artifacts
    ensures
      var db' := Set(db, switch, false);
      && id in db'.artifacts
      && (HasVersion(db', db'.artifacts[id]) ==>
            HasVersion(db, db.artifacts[id])
            && (SignaturePolicy(db', db'.artifacts[id]) <==> SignaturePolicy(db, db.artifacts[id])))
  {
    hide SqlFields, Overlay, Set;
    SwitchKeepsColumns(db, switch, id);
    if HasVersion(db, db.artifacts[id]) {
      SwitchKeepsSqlFields(db, switch, false, id);
    }
  }

  lemma SwitchKeepsColumns(db: Db, switch: Switch, id: Id)
    requires Has(db, switch) && id in db.artifacts
    ensures
      var db' := Set(db, switch, false);
      && db'.keys == db.keys && id in db'.artifacts
      && var a, a' := db.artifacts[id], db'.artifacts[id];
      && a'.signature == a.signature && a'.signatureKeyId == a.signatureKeyId && a'.signatureManifest == a.signatureManifest
      && (HasVersion(db', a') ==>
            && HasVersion(db, a) && a'.version == a.version
            && db'.versions[a.version].software == db.versions[a.version].software
            && db'.software[db.versions[a.version].software].requireSigned == db.software[db.versions[a.version].software].requireSigned)
  {
  }

  /** Undoing the change gives back exactly the earlier public set. */
  lemma SwitchingBackRestores(db: Db, switch: Switch, id: Id)
    requires Has(db, switch) && IsOn(db, switch)
    ensures
      var off := Set(db, switch, false);
      && Has(off, switch) && !IsOn(off, switch)
      && Set(off, switch, true) == db
      && (Public(Set(off, switch, true), id) <==> Public(off, id) || (Public(db, id) && HangsOn(db, id, switch)))
  {
    hide Public, HangsOn;
    SwitchingOffHidesExactly(db, switch, id);
    SwitchesBack(db, switch);
  }

  lemma SwitchesBack(db: Db, switch: Switch)
    requires Has(db, switch) && IsOn(db, switch)
    ensures
      var off := Set(db, switch, false);
      Has(off, switch) && !IsOn(off, switch) && Set(off, switch, true) == db
  {
  }

  /******* What the operations make public *******/

  /** A successful publication makes its artifact public, if nothing that it hangs on is off, and no other. */
  lemma PublishingMakesPublic(verify: Verifier, db: Db, id: Id, other: Id)
    requires AllAttested(verify, db) && OneMessagePerSignature(verify)
    requires MayPublish(verify, db, id) && IsLive(Set(db, Published(id), true), id)
    ensures !Public(db, id) && Public(Write(db, SavePublish(id)), id)
    ensures other != id ==> (Public(Write(db, SavePublish(id)), other) <==> Public(db, other))
  {
    hide Write, AllAttested, MayPublish, IsLive, OneMessagePerSignature, Public;
    UnpublishedIsHidden(verify, db, id);
    PublishingSwitches(db, id);
    PublishedIsPublic(verify, db, id);
    if other != id {
      OthersStayVisible(db, id, other);
    }
  }

  lemma PublishingSwitches(db: Db, id: Id)
    requires id in db.artifacts
    ensures Write(db, SavePublish(id)) == Set(db, Published(id), true)
  {
    ReleaseService.OneRowWritten(db, SavePublish(id));
    hide Write;
  }

  lemma UnpublishedIsHidden(verify: Verifier, db: Db, id: Id)
    requires MayPublish(verify, db, id)
    ensures id in db.artifacts && !Public(db, id)
  {
    hide HasValidSignature, SqlFields, Overlay;
  }

  lemma PublishedIsPublic(verify: Verifier, db: Db, id: Id)
    requires AllAttested(verify, db) && OneMessagePerSignature(verify)
    requires MayPublish(verify, db, id) && IsLive(Set(db, Published(id), true), id)
    ensures Public(Set(db, Published(id), true), id)
  {
    var db' := Set(db, Published(id), true);
    PublishedStaysAttested(verify, db, id);
    hide Public, AllAttested, OneMessagePerSignature;
    if WantsSignature(db', id) {
      PublishedStaysSigned(verify, db, db.artifacts[id], db'.artifacts);
    }
    hide Set, MayPublish, IsLive, WantsSignature, IsSignedNow;
    PublicIff(verify, db', id);
  }

  lemma PublishedStaysAttested(verify: Verifier, db: Db, id: Id)
    requires AllAttested(verify, db) && id in db.artifacts
    ensures AllAttested(verify, Set(db, Published(id), true))
  {
    hide AllAttested;
    var db' := Set(db, Published(id), true);
    assert ColumnsKeptOrCleared(db, db');
    KeptMeansAttested(verify, db, db');
  }

  lemma PublishedStaysSigned(verify: Verifier, db: Db, a: Artifact, artifacts: map<Id, Artifact>)
    requires HasVersion(db, a) && HasValidSignature(verify, db, a)
    ensures IsSignedNow(verify, db.(artifacts := artifacts), a.(isPublished := true))
  {
    hide Payload, ManifestBytes, VerifyOta;
    var db', a' := db.(artifacts := artifacts), a.(isPublished := true);
    assert BuildManifest(db', a') == BuildManifest(db, a);
    hide BuildManifest;
    VerifyOtaChecksTheBytes(verify, BuildManifest(db', a').value, a.signature.value, db'.keys[a.signatureKeyId.value].publicKey);
  }

  lemma OthersStayVisible(db: Db, id: Id, other: Id)
    requires id in db.artifacts && other != id
    ensures Public(Set(db, Published(id), true), other) <==> Public(db, other)
  {
    hide SqlFields, Overlay;
    if other in db.artifacts && HasVersion(db, db.artifacts[other]) {
      SwitchKeepsSqlFields(db, Published(id), true, other);
    }
  }

  /** A successful signature makes a live artifact public, whether or not its product wants one. */
  lemma SigningMakesPublic(verify: Verifier, db: Db, id: Id, keyId: Digest, signature: string)
    requires ReleaseService.MaySign(verify, db, id, keyId, signature) && IsLive(db, id)
    ensures Public(Write(db, SaveSignature(id, signature, keyId, ReleaseService.CurrentSnapshot(db, id))), id)
  {
    hide SqlFields, Overlay, BuildManifest, ObjectOf, VerifyOta, Payload, Write;
    var op := SaveSignature(id, signature, keyId, ReleaseService.CurrentSnapshot(db, id));
    var a := db.artifacts[id];
    ReleaseService.OneRowWritten(db, op);
    BuiltManifestIsTheSqlObject(db, a);
    SignedSqlFields(db, id, signature, keyId, op.snapshot);
  }

  lemma SignedSqlFields(db: Db, id: Id, signature: string, keyId: Digest, snapshot: JsonObject)
    requires id in db.artifacts && HasVersion(db, db.artifacts[id])
    ensures
      var signed := db.artifacts[id].(signature := Some(signature), signatureKeyId := Some(keyId), signatureManifest := Some(snapshot));
      SqlFields(db.(artifacts := db.artifacts[id := signed]), signed) == SqlFields(db, db.artifacts[id])
  {
  }

  lemma MoreThanOne<T>(s: set<T>, x: T)
    requires |s| > 1
    ensures s - {x} != {}
  {
    assert s == (s - {x}) + if x in s then {x} else {};
  }

  /** A revocation leaves a product that wants signatures with an active key, and a switch to signatures finds one. */
  lemma SignedProductsKeepAKey(verify: Verifier, db: Db, software: Id, keyId: Digest)
    ensures MayRevoke(db, software, keyId) && db.software[software].requireSigned ==>
              exists k :: k != keyId && k in db.keys && db.keys[k].software == software && db.keys[k].isActive
    ensures MayRequireSignatures(verify, db, software) ==>
              exists k :: k in db.keys && db.keys[k].software == software && db.keys[k].isActive
  {
    var active := ActiveKeys(db, software);
    if MayRevoke(db, software, keyId) && db.software[software].requireSigned {
      assert active - {keyId} != {} by {
        MoreThanOne(active, keyId);
      }
      var k :| k in active - {keyId};
    }
    if MayRequireSignatures(verify, db, software) {
      var k :| k in active;
    }
  }

  /******* What a client reads out of a payload *******/

  /** The printed version splits at its dots into its numbers, in their order. */
  lemma VersionTextReads(v: Version)
    ensures
      var parts := Text.Split(VersionText(v), '.');
      && |parts| == 3 && AllDigits(parts[0]) && AllDigits(parts[1]) && AllDigits(parts[2])
      && Number(parts[0]) == v.major && Number(parts[1]) == v.minor && Number(parts[2]) == v.patch
  {
    var parts := [Digits(v.major), Digits(v.minor), Digits(v.patch)];
    assert forall i | 0 <= i < 3 :: AllDigits(parts[i]) && '.' !in parts[i];
    NumberOfDigits(v.major);
    NumberOfDigits(v.minor);
    NumberOfDigits(v.patch);
    hide Digits, Number, AllDigits, Text.Split;
    assert parts[1..] == [Digits(v.minor), Digits(v.patch)] && parts[1..][1..] == [Digits(v.patch)];
    assert Text.Join(parts[1..], '.') == Digits(v.minor) + ['.'] + Digits(v.patch);
    assert VersionText(v) == Text.Join(parts, '.');
    Text.SplitJoin(parts, '.');
  }

  /** The version that a client takes from a parsed manifest: the numbers between the dots of its version member. */
  function ClientVersion(o: JsonObject): Option<SemVer.Version> {
    if !PayloadParser.HasString(o, "version") then None
    else
      var parts := Text.Split(o["version"].s, '.');
      if |parts| == 3 && AllDigits(parts[0]) && AllDigits(parts[1]) && AllDigits(parts[2]) then
        Some(SemVer.Release(Number(parts[0]), Number(parts[1]), Number(parts[2])))
      else None
  }

  /** The parsed manifest shows each column of the artifact under its name. */
  predicate Shows(db: Db, a: Artifact, o: JsonObject)
    requires HasVersion(db, a) && a.platform in db.platforms && a.architecture in db.architectures
  {
    var v := db.versions[a.version];
    && PayloadParser.Holds(o, "software", JsonString(db.software[v.software].slug))
    && PayloadParser.Holds(o, "codename", Nullable(v.codename))
    && PayloadParser.Holds(o, "changelog", Nullable(v.changelog))
    && PayloadParser.Holds(o, "channel", JsonString(a.channel))
    && PayloadParser.Holds(o, "platform", JsonString(db.platforms[a.platform].name))
    && PayloadParser.Holds(o, "architecture", JsonString(db.architectures[a.architecture].name))
    && PayloadParser.Holds(o, "fileName", JsonString(a.fileName))
    && a.sizeBytes.Some? && PayloadParser.Holds(o, "sizeBytes", JsonNumber(a.sizeBytes.value))
    && a.sha256.Some? && PayloadParser.Holds(o, "sha256", JsonString(a.sha256.value))
  }

  /** Every delivered envelope shows its client the artifact's columns and the version that the update check compares. */
  lemma EnvelopeShowsTheRelease(db: Db, id: Id)
    requires id in db.artifacts && CreateEnvelope(db, db.artifacts[id]).Some?
    ensures
      var a := db.artifacts[id];
      var read := ReadManifestBytes(Base64Url.Decode(CreateEnvelope(db, a).value.payload));
      && HasVersion(db, a) && a.platform in db.platforms && a.architecture in db.architectures
      && read.Some? && Shows(db, a, read.value)
      && ClientVersion(read.value) == Some(UpdateSelection.VersionOf(db, id))
  {
    var a := db.artifacts[id];
    hide Overlay, Fields, ManifestBytes, ReadManifestBytes, SnapshotMatches, BuildManifest, Shows, ClientVersion, Text.Split, Number;
    var m := BuildManifest(db, a).value;
    Base64Url.EncodeDecode(ManifestBytes(m));
    ManifestRoundTrip(m);
    ObjectShows(db, a, m);
    VersionTextReads(db.versions[a.version]);
    TextIsClientVersion(Overlay(map[], Fields(m)), VersionText(db.versions[a.version]));
  }

  lemma ObjectShows(db: Db, a: Artifact, m: Manifest)
    requires BuildManifest(db, a) == Some(m)
    ensures HasVersion(db, a) && a.platform in db.platforms && a.architecture in db.architectures
    ensures Shows(db, a, Overlay(map[], Fields(m)))
    ensures PayloadParser.Holds(Overlay(map[], Fields(m)), "version", JsonString(VersionText(db.versions[a.version])))
  {
    hide Overlay, Fields, PayloadParser.Holds, IsHex64, VersionText;
    PayloadParser.MembersOf(m);
  }

  lemma TextIsClientVersion(o: JsonObject, text: string)
    requires PayloadParser.Holds(o, "version", JsonString(text))
    ensures
      var parts := Text.Split(text, '.');
      |parts| == 3 && AllDigits(parts[0]) && AllDigits(parts[1]) && AllDigits(parts[2]) ==>
        ClientVersion(o) == Some(SemVer.Release(Number(parts[0]), Number(parts[1]), Number(parts[2])))
  {
    hide Text.Split, Number, AllDigits;
  }

  /**
   An envelope is delivered if and only if the row is signed and its snapshot is the current manifest's; its signature then
   verifies over its payload, whether or not the product wants signatures.
   */
  lemma EnvelopeOutcome(verify: Verifier, db: Db, id: Id)
    requires AllAttested(verify, db) && id in db.artifacts
    ensures
      var a := db.artifacts[id];
      var envelope := CreateEnvelope(db, a);
      && (envelope.Some?
          <==> a.signature.Some? && BuildManifest(db, a).Some? && a.signatureManifest == Some(ObjectOf(BuildManifest(db, a).value)))
      && (envelope.Some? ==>
            && envelope.value.keyId in db.keys
            && VerifyOta(verify, envelope.value.payload, envelope.value.signature, db.keys[envelope.value.keyId].publicKey))
  {
    hide BuildManifest, ObjectOf, VerifyOta, Payload, SnapshotMatches, Signable;
    var a := db.artifacts[id];
    assert Attested(verify, db, a);
    if a.signature.Some? && BuildManifest(db, a).Some? {
      var m :| AttestedBy(verify, db, a, m);
      var current := BuildManifest(db, a).value;
      MatchDetermines(m, current);
      MatchDetermines(current, current);
    }
  }

  /** So a client of a signed-only product reads, out of what it verified, the very version that it was offered. */
  lemma SignedVersionIsTheOffered(verify: Verifier, db: Db, q: UpdateSelection.Query, current: SemVer.Version)
    requires AllAttested(verify, db) && UpdateSelection.CheckForUpdate(db, q, current).Some?
    requires RequiresSignature(db, UpdateSelection.CheckForUpdate(db, q, current).value)
    ensures
      var id := UpdateSelection.CheckForUpdate(db, q, current).value;
      var a := db.artifacts[id];
      var envelope := CreateEnvelope(db, a);
      && envelope.Some? && envelope.value.keyId in db.keys
      && VerifyOta(verify, envelope.value.payload, envelope.value.signature, db.keys[envelope.value.keyId].publicKey)
      && var read := ReadManifestBytes(Base64Url.Decode(envelope.value.payload));
         read.Some? && ClientVersion(read.value) == Some(UpdateSelection.VersionOf(db, id))
         && SemVer.Less(current, UpdateSelection.VersionOf(db, id))
  {
    var id := UpdateSelection.CheckForUpdate(db, q, current).value;
    assert UpdateSelection.Eligible(db, q, id);
    UpdateSelection.NewerIsPrecedence(current, UpdateSelection.VersionOf(db, id));
    hide CreateEnvelope, VerifyOta, ReadManifestBytes, BuildManifest, Public, Shows, ClientVersion;
    PublicIsProven(verify, db, id);
    EnvelopeShowsTheRelease(db, id);
  }
}
