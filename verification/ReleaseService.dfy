/**
 The operations that decide which releases are signed, published and required to be signed, each
 run alone on the tables. What concurrent runs of their halves can do is the subject of
 ReleaseVisibility; the methods here compute exactly the saves that it describes.
 */
module ReleaseService {
  import opened Wrappers
  import opened Crypto
  import opened Decimal
  import opened ManifestJson
  import opened ReleaseVisibility
  import opened VersionInput
  import Base64Url
  import FileNames
  import RequestIdentity
  import SignerProtocol
  import Text
  import UpdateSelection

  /** The object of the current manifest, which a new signature carries as its snapshot. */
  function CurrentSnapshot(db: Db, id: Id): JsonObject {
    if id in db.artifacts && BuildManifest(db, db.artifacts[id]).Some? then ObjectOf(BuildManifest(db, db.artifacts[id]).value) else map[]
  }

  /** The signature verifies over the current manifest under an active key of the product. */
  predicate MaySign(verify: Verifier, db: Db, id: Id, keyId: Digest, signature: string) {
    && id in db.artifacts
    && !db.artifacts[id].isDeleted
    && BuildManifest(db, db.artifacts[id]).Some?
    && ActiveKeyOf(db, db.versions[db.artifacts[id].version].software, keyId)
    && VerifyOta(verify, Payload(BuildManifest(db, db.artifacts[id]).value), signature, db.keys[keyId].publicKey)
  }

  /** What the method checks and stores is what the concurrent model lets a load half check and carry. */
  lemma SignatureIsLoadable(verify: Verifier, db: Db, id: Id, keyId: Digest, signature: string)
    requires MaySign(verify, db, id, keyId, signature)
    ensures Loadable(verify, db, SaveSignature(id, signature, keyId, CurrentSnapshot(db, id)))
    ensures var m := BuildManifest(db, db.artifacts[id]).value;
            ReadManifestBytes(Base64Url.Decode(Payload(m))) == Some(CurrentSnapshot(db, id))
  {
    hide BuildManifest, ObjectOf, ReadManifestBytes;
    var m := BuildManifest(db, db.artifacts[id]).value;
    Base64Url.EncodeDecode(ManifestBytes(m));
    ManifestRoundTrip(m);
  }

  /** The signer's answer is a signed request for the current manifest, and its signature passes the ordinary test. */
  predicate Importable(verify: Verifier, db: Db, id: Id, key: Option<RequestIdentity.ManagedKey>, answer: Option<RequestIdentity.Reply>) {
    && key.Some? && answer.Some? && answer.value.status.SignedText? && answer.value.signature.Some?
    && id in db.artifacts && BuildManifest(db, db.artifacts[id]).Some?
    && RequestIdentity.SigningRequest(verify, answer, key.value, Payload(BuildManifest(db, db.artifacts[id]).value)).Ok?
    && MaySign(verify, db, id, answer.value.keyId, answer.value.signature.value)
  }

  /** The key that the signer names for a product: the latest version of the key that it holds. */
  predicate NamesKeyOf(latest: RequestIdentity.ManagedKey, row: SignerProtocol.Row) {
    latest.keyVersion == row.keyVersion && latest.keyId == row.keyId
  }

  /** The row is for the current manifest of a live artifact, under a registered and active key of its product. */
  predicate IsFor(db: Db, id: Id, row: SignerProtocol.Row) {
    && id in db.artifacts && !db.artifacts[id].isDeleted
    && BuildManifest(db, db.artifacts[id]).Some?
    && row.product == BuildManifest(db, db.artifacts[id]).value.software
    && row.payload == Payload(BuildManifest(db, db.artifacts[id]).value)
    && ActiveKeyOf(db, db.versions[db.artifacts[id].version].software, row.keyId)
    && Fingerprint(db.keys[row.keyId].publicKey) == row.keyId
  }

  /**
   From approval to release: whatever row any run of the signer has signed for the current manifest
   of an artifact, under a key that is active for the product, the release service imports it if and
   only if that key is still the one that the signer names as its latest. After a rotation the older
   signed request no longer counts, although its signature still verifies.
   */
  lemma ApprovedManifestsAreImportableIff(
    verify: Verifier, s: SignerProtocol.State, steps: seq<SignerProtocol.Step>, request: Digest, row: SignerProtocol.Row,
    db: Db, id: Id, latest: RequestIdentity.ManagedKey)
    requires RequestIdentity.Reached(verify, s, steps, request, row) && row.status.Signed? && 0 <= row.expiresAt <= MAX_SAFE_INTEGER
    requires IsFor(db, id, row)
    requires latest.product == row.product && Fingerprint(latest.publicKey) == latest.keyId
    ensures row.signature.Some? && MaySign(verify, db, id, row.keyId, row.signature.value)
    ensures Importable(verify, db, id, Some(latest), Some(RequestIdentity.ReplyOf(request, row))) <==> NamesKeyOf(latest, row)
  {
    hide MaySign, RequestIdentity.Reached, RequestIdentity.SigningRequest, RequestIdentity.SignerWorld, BuildManifest;
    hide SignerProtocol.RowOk, SignerProtocol.SignedOk, Base64Url.IsBase64Url, Base64Url.Decode, VerifyOta, Payload;
    SignedRowMaySign(verify, s, steps, request, row, db, id);
    RequestIdentity.ReachedRowOk(verify, s, steps, request, row);
    LatestAccepts(verify, request, row, latest);
  }

  lemma SignedRowMaySign(
    verify: Verifier, s: SignerProtocol.State, steps: seq<SignerProtocol.Step>, request: Digest, row: SignerProtocol.Row, db: Db, id: Id)
    requires RequestIdentity.Reached(verify, s, steps, request, row) && row.status.Signed? && 0 <= row.expiresAt <= MAX_SAFE_INTEGER
    requires IsFor(db, id, row)
    ensures row.signature.Some? && MaySign(verify, db, id, row.keyId, row.signature.value)
  {
    var own := RequestIdentity.ManagedKey(row.product, row.keyVersion, row.keyId, db.keys[row.keyId].publicKey);
    hide BuildManifest, VerifyOta, Payload, RequestIdentity.Reached, RequestIdentity.SigningRequest, RequestIdentity.SignerWorld;
    hide Base64Url.IsBase64Url, Base64Url.Decode;
    RequestIdentity.ReadingIsAccepted(verify, s, steps, request, row, own, row.payload);
  }

  /** The consumer with the latest key accepts exactly the rows of that key, and returns them as they are. */
  lemma LatestAccepts(verify: Verifier, request: Digest, row: SignerProtocol.Row, latest: RequestIdentity.ManagedKey)
    requires var w := RequestIdentity.SignerWorld(verify); SignerProtocol.RowOk(w, request, row) && SignerProtocol.SignedOk(w, row)
    requires latest.product == row.product && Fingerprint(latest.publicKey) == latest.keyId && 0 <= row.expiresAt <= MAX_SAFE_INTEGER
    requires Base64Url.IsBase64Url(row.payload)
    ensures
      RequestIdentity.SigningRequest(verify, Some(RequestIdentity.ReplyOf(request, row)), latest, row.payload).Ok?
      <==> NamesKeyOf(latest, row)
  {
    hide RequestIdentity.SigningRequest, RequestIdentity.SignerWorld, SignerProtocol.RowOk, SignerProtocol.SignedOk;
    RequestIdentity.ConsumerAcceptsSignerRows(verify, request, row, latest, row.payload);
    RequestIdentity.AcceptedIsTheAnswer(verify, Some(RequestIdentity.ReplyOf(request, row)), latest, row.payload);
  }

  predicate IsRowOp(op: Op) {
    op.SaveSignature? || op.SaveEdit? || op.SaveRebuild? || op.SavePublish?
  }

  lemma OneRowWritten(db: Db, op: Op)
    requires IsRowOp(op) && op.artifact in db.artifacts
    ensures Write(db, op) == db.(artifacts := db.artifacts[op.artifact := SavedRow(db, op, op.artifact, db.artifacts[op.artifact])])
  {
  }

  lemma SignatureWritten(verify: Verifier, db: Db, id: Id, keyId: Digest, signature: string)
    requires MaySign(verify, db, id, keyId, signature)
    ensures
      var snapshot := ReadManifestBytes(Base64Url.Decode(Payload(BuildManifest(db, db.artifacts[id]).value)));
      var signed := db.artifacts[id].(signature := Some(signature), signatureKeyId := Some(keyId), signatureManifest := snapshot);
      Write(db, SaveSignature(id, signature, keyId, CurrentSnapshot(db, id))) == db.(artifacts := db.artifacts[id := signed])
  {
    SignatureIsLoadable(verify, db, id, keyId, signature);
    hide Write, CurrentSnapshot, BuildManifest, Loadable;
    OneRowWritten(db, SaveSignature(id, signature, keyId, CurrentSnapshot(db, id)));
  }

  lemma PolicyWritten(db: Db, software: Id, required: bool)
    requires software in db.software
    ensures Write(db, SavePolicy(software, required))
         == db.(software := db.software[software := db.software[software].(requireSigned := required)])
  {
  }

  lemma RevocationWritten(db: Db, software: Id, keyId: Digest)
    requires keyId in db.keys
    ensures
      var revoked := db.(keys := db.keys[keyId := db.keys[keyId].(isActive := false)]);
      && Write(db, SaveRevocation(software, keyId)) == revoked
      && Write(revoked, ClearKey(software, keyId))
         == revoked.(artifacts := ClearedArtifacts(revoked, software, keyId))
  {
  }

  /** The bulk update that takes the signatures under a key off the product's artifacts. */
  function ClearedArtifacts(db: Db, software: Id, keyId: Digest): map<Id, Artifact> {
    map id | id in db.artifacts :: ClearedOf(db, software, keyId, db.artifacts[id])
  }

  lemma VersionWritten(db: Db, id: Id, next: Version)
    requires id in db.versions
    ensures
      var saved := db.(versions := db.versions[id := next]);
      var cleared := saved.(artifacts := map a | a in db.artifacts ::
                              if db.artifacts[a].version == id then Unsigned(db.artifacts[a]) else db.artifacts[a]);
      Updated(db, id, next) == if SignedMetadataChanged(db.versions[id], next) then cleared else saved
  {
  }

  lemma ManifestNeedsVersion(db: Db, a: Artifact)
    ensures BuildManifest(db, a).Some? ==> HasVersion(db, a)
  {
  }

  /** The row that a valid form leaves: the version service parses every field before it assigns any. */
  function NextVersion(
    v: Version, major: string, minor: string, patch: string, codename: Option<string>, changelog: Option<string>, isActive: bool)
    : (next: Result<Version, string>)
    ensures next.Ok? ==> Entered(next.value, major, minor, patch, codename, changelog) && VersionFromService(next.value)
    ensures next.Ok? ==>
              next.value == Version(v.software, next.value.major, next.value.minor, next.value.patch, next.value.codename,
                                    next.value.changelog, isActive, v.isDeleted)
    ensures next.Ok? <==>
              ParsePart(major).Some? && ParsePart(minor).Some? && ParsePart(patch).Some?
              && ParseCodename(codename).Ok? && ParseChangelog(changelog).Ok?
  {
    if ParsePart(major).None? || ParsePart(minor).None? || ParsePart(patch).None? then
      Err("Version parts must be non-negative whole numbers with at most nine digits.")
    else if ParseCodename(codename).Err? then Err(ParseCodename(codename).error)
    else if ParseChangelog(changelog).Err? then Err(ParseChangelog(changelog).error)
    else
      var next := v.(major := ParsePart(major).value, minor := ParsePart(minor).value, patch := ParsePart(patch).value,
                     codename := ParseCodename(codename).value, changelog := ParseChangelog(changelog).value, isActive := isActive);
      assert Entered(next, major, minor, patch, codename, changelog);
      Ok(next)
  }

  predicate Taken(versions: map<Id, Version>, id: Id, v: Version) {
    exists other :: other in versions && other != id && UpdateSelection.SameNumbers(versions[other], v)
  }

  /** Whether a column that the manifest shows changes. */
  predicate SignedMetadataChanged(v: Version, next: Version) {
    v.major != next.major || v.minor != next.minor || v.patch != next.patch || v.codename != next.codename || v.changelog != next.changelog
  }

  function Updated(db: Db, id: Id, next: Version): Db
    requires id in db.versions
  {
    var changed := SignedMetadataChanged(db.versions[id], next);
    var saved := Write(db, SaveVersion(id, next, changed));
    if changed then Write(saved, ClearVersion(id)) else saved
  }

  /**
   An update takes the signatures off exactly the version's own artifacts, and only if a number, the codename or the
   changelog changes; it touches nothing else of any artifact.
   */
  lemma UpdateClearsExactly(db: Db, id: Id, next: Version, artifact: Id)
    requires id in db.versions && artifact in db.artifacts
    ensures
      var v, a := db.versions[id], db.artifacts[artifact];
      var same := next.major == v.major && next.minor == v.minor && next.patch == v.patch
                  && next.codename == v.codename && next.changelog == v.changelog;
      var updated := Updated(db, id, next);
      && updated.versions == db.versions[id := next]
      && updated.artifacts.Keys == db.artifacts.Keys
      && updated.artifacts[artifact]
         == if same || a.version != id then a else a.(signature := None, signatureKeyId := None, signatureManifest := None)
  {
    VersionWritten(db, id, next);
    hide Updated, Write;
    assert db.artifacts == map a | a in db.artifacts :: db.artifacts[a];
  }

  lemma FreeNumbersStayUnique(versions: map<Id, Version>, id: Id, next: Version)
    requires id in versions && !Taken(versions, id, next)
    ensures UpdateSelection.UniqueVersions(versions) ==> UpdateSelection.UniqueVersions(versions[id := next])
  {
  }

  /** After an update of a version, an artifact that is still signed shows the manifest that it showed before. */
  lemma UpdateKeepsSignedManifests(db: Db, id: Id, next: Version, artifact: Id)
    requires id in db.versions && next.software == db.versions[id].software && next.isDeleted == db.versions[id].isDeleted
    requires artifact in db.artifacts && artifact in Updated(db, id, next).artifacts
    requires Updated(db, id, next).artifacts[artifact].signature.Some?
    ensures BuildManifest(Updated(db, id, next), Updated(db, id, next).artifacts[artifact]) == BuildManifest(db, db.artifacts[artifact])
  {
    VersionWritten(db, id, next);
    hide Updated, Write;
  }

  /******* Rebuilding names and checksums *******/

  /** The row after the loop's turn; `checksum` is `None` when the stored file could not be read. */
  function Rebuilt(a: Artifact, newName: string, checksum: Option<string>): Artifact {
    var renamed := a.(fileName := newName);
    if checksum.Some? then Unsigned(renamed.(sha256 := checksum))
    else if a.fileName != newName then Unsigned(renamed)
    else a
  }

  /** A row that the loop leaves signed is unchanged; each turn is a save of the concurrent model, or none. */
  lemma RebuiltIsSaved(db: Db, id: Id, newName: string, checksum: Option<string>)
    requires id in db.artifacts
    ensures
      var a := db.artifacts[id];
      var a' := Rebuilt(a, newName, checksum);
      && (a'.signature.Some? ==> a' == a)
      && (a' == a || db.(artifacts := db.artifacts[id := a']) == Write(db, SaveRebuild(id, newName, checksum)))
  {
  }

  function Lookup(values: map<Id, string>, id: Id): Option<string> {
    if id in values then Some(values[id]) else None
  }

  function RebuiltRow(a: Artifact, id: Id, newNames: map<Id, string>, checksums: map<Id, string>): Artifact {
    if a.isDeleted || id !in newNames then a else Rebuilt(a, newNames[id], Lookup(checksums, id))
  }

  function NeedsSave(artifacts: map<Id, Artifact>, newNames: map<Id, string>, checksums: map<Id, string>): set<Id> {
    set id | id in artifacts && !artifacts[id].isDeleted && id in newNames
             && (artifacts[id].fileName != newNames[id] || id in checksums)
  }

  /** The rows that the loop has passed are rebuilt; those still ahead are as they were. */
  ghost predicate PartlyRebuilt(
    before: map<Id, Artifact>, rows: map<Id, Artifact>, ahead: set<Id>, newNames: map<Id, string>, checksums: map<Id, string>)
  {
    && rows.Keys == before.Keys
    && (forall id | id in ahead :: id in before && !before[id].isDeleted && rows[id] == before[id])
    && (forall id | id in before && id !in ahead :: rows[id] == RebuiltRow(before[id], id, newNames, checksums))
  }

  lemma NothingRebuiltYet(before: map<Id, Artifact>, ahead: set<Id>, newNames: map<Id, string>, checksums: map<Id, string>)
    requires ahead == set id | id in before && !before[id].isDeleted
    ensures PartlyRebuilt(before, before, ahead, newNames, checksums)
    ensures NeedsSave(before, newNames, checksums) - ahead == {}
  {
  }

  lemma OneMoreRebuilt(
    before: map<Id, Artifact>, rows: map<Id, Artifact>, ahead: set<Id>, id: Id, newNames: map<Id, string>, checksums: map<Id, string>)
    requires PartlyRebuilt(before, rows, ahead, newNames, checksums) && id in ahead && id in newNames
    ensures id in rows && id in before && rows[id] == before[id] && !before[id].isDeleted
    ensures PartlyRebuilt(before, rows[id := Rebuilt(rows[id], newNames[id], Lookup(checksums, id))], ahead - {id}, newNames, checksums)
  {
  }

  lemma OneMoreCounted(before: map<Id, Artifact>, ahead: set<Id>, id: Id, newNames: map<Id, string>, checksums: map<Id, string>)
    requires id in ahead && id in newNames && id in before && !before[id].isDeleted
    ensures |NeedsSave(before, newNames, checksums) - (ahead - {id})|
         == |NeedsSave(before, newNames, checksums) - ahead|
            + if before[id].fileName != newNames[id] || Lookup(checksums, id).Some? then 1 else 0
  {
    var needed := NeedsSave(before, newNames, checksums);
    assert id in needed <==> before[id].fileName != newNames[id] || Lookup(checksums, id).Some?;
    hide NeedsSave;
    if id in needed {
      assert needed - (ahead - {id}) == (needed - ahead) + {id};
    } else {
      assert needed - (ahead - {id}) == needed - ahead;
    }
  }

  lemma AllRebuilt(before: map<Id, Artifact>, rows: map<Id, Artifact>, newNames: map<Id, string>, checksums: map<Id, string>)
    requires PartlyRebuilt(before, rows, {}, newNames, checksums)
    ensures rows == map id | id in before :: RebuiltRow(before[id], id, newNames, checksums)
    ensures NeedsSave(before, newNames, checksums) - {} == NeedsSave(before, newNames, checksums)
  {
  }

  /******* Editing an artifact *******/

  function Lower(s: string): string {
    seq(|s|, i requires 0 <= i < |s| => if 'A' <= s[i] <= 'Z' then s[i] + ('a' - 'A') else s[i])
  }

  predicate Includes(s: string, part: string) {
    exists i | 0 <= i <= |s| :: part <= s[i..]
  }

  /** Android releases are not built for x86 and x64. */
  predicate Supports(platform: string, architecture: string) {
    Lower(platform) == "android" ==> !Includes(Lower(architecture), "x86") && !Includes(Lower(architecture), "x64")
  }

  /** The extension that a file name keeps: what follows its last dot, the whole name without one, or "bin" instead of nothing. */
  function Extension(fileName: string): string {
    var parts := Text.Split(fileName, '.');
    if parts[|parts| - 1] == "" then "bin" else parts[|parts| - 1]
  }

  /** What the form asks for: the row's new version, targets, channel and archive flag. */
  datatype ArtifactForm = ArtifactForm(version: Id, platform: Id, architecture: Id, channel: string, isArchived: bool)

  /** The file name that the edit gives; `softwareName` is the product's display name. */
  function EditedName(db: Db, a: Artifact, form: ArtifactForm, softwareName: string): string
    requires form.version in db.versions && form.platform in db.platforms && form.architecture in db.architectures
  {
    var v := db.versions[form.version];
    FileNames.BuildFileName(softwareName, db.platforms[form.platform].name, db.architectures[form.architecture].name,
                            v.major, v.minor, v.patch, if v.codename.Some? then v.codename.value else "", Extension(a.fileName))
  }

  /** Another artifact already has this version, platform, architecture and channel. */
  predicate Occupied(artifacts: map<Id, Artifact>, id: Id, form: ArtifactForm) {
    exists other :: other in artifacts && other != id
      && artifacts[other].version == form.version && artifacts[other].platform == form.platform
      && artifacts[other].architecture == form.architecture && artifacts[other].channel == form.channel
  }

  predicate Editable(db: Db, id: Id, form: ArtifactForm, softwareName: string) {
    && (form.channel == "dev" || form.channel == "staging" || form.channel == "beta" || form.channel == "stable")
    && id in db.artifacts && !db.artifacts[id].isDeleted
    && form.version in db.versions && !db.versions[form.version].isDeleted
    && HasTarget(db.platforms, form.platform) && HasTarget(db.architectures, form.architecture)
    && Supports(db.platforms[form.platform].name, db.architectures[form.architecture].name)
    && db.versions[form.version].software in db.software && db.software[db.versions[form.version].software].isActive
    && |EditedName(db, db.artifacts[id], form, softwareName)| <= 255
    && !Occupied(db.artifacts, id, form)
  }

  function EditOf(db: Db, id: Id, form: ArtifactForm, softwareName: string): Op
    requires Editable(db, id, form, softwareName)
  {
    SaveEdit(id, Edit(form.version, form.platform, form.architecture, form.isArchived, form.channel,
                      EditedName(db, db.artifacts[id], form, softwareName)))
  }

  lemma FreeSlotStaysUnique(artifacts: map<Id, Artifact>, id: Id, form: ArtifactForm, row: Artifact)
    requires id in artifacts && !Occupied(artifacts, id, form)
    requires row.version == form.version && row.platform == form.platform
    requires row.architecture == form.architecture && row.channel == form.channel
    ensures UpdateSelection.UniqueArtifacts(artifacts) ==> UpdateSelection.UniqueArtifacts(artifacts[id := row])
  {
    assert forall other | other in artifacts && other != id :: !UpdateSelection.SameSlot(artifacts[other], row);
  }

  /** Under a signed-only product an edited artifact leaves the public until it is signed again. */
  lemma EditHidesUntilSigned(db: Db, id: Id, form: ArtifactForm, softwareName: string)
    requires Editable(db, id, form, softwareName)
    requires db.software[db.versions[form.version].software].requireSigned
    ensures !Public(Write(db, EditOf(db, id, form, softwareName)), id)
  {
    OneRowWritten(db, EditOf(db, id, form, softwareName));
    hide EditedName, Write;
  }

  class ReleaseTables {
    var db: Db
    const verify: Verifier

    constructor (db: Db, verify: Verifier)
      ensures this.db == db && this.verify == verify
    {
      this.db := db;
      this.verify := verify;
    }

    /** A key identifier that is not 64 hexadecimal digits is `None`. */
    method SetArtifactSignature(id: Id, keyId: Option<Digest>, signature: string) returns (result: Result<Artifact, string>)
      modifies this
      ensures result.Ok? <==> keyId.Some? && MaySign(verify, old(db), id, keyId.value, signature)
      ensures result.Ok? ==> db == Write(old(db), SaveSignature(id, signature, keyId.value, CurrentSnapshot(old(db), id)))
      ensures result.Ok? ==> id in db.artifacts && result.value == db.artifacts[id]
      ensures result.Err? ==> db == old(db)
    {
      hide VerifyOta, ManifestBytes, Write, CurrentSnapshot, BuildManifest, ReadManifestBytes;
      if id !in db.artifacts || db.artifacts[id].isDeleted {
        return Err("Artifact not found.");
      }
      var artifact := db.artifacts[id];
      ManifestNeedsVersion(db, artifact);
      if keyId.None? {
        return Err("Invalid signing key identifier.");
      }
      if !HasVersion(db, artifact) || !ActiveKeyOf(db, db.versions[artifact.version].software, keyId.value) {
        return Err("The selected signing key is not active for this software.");
      }
      var manifest := BuildManifest(db, artifact);
      if manifest.None? {
        return Err("Release metadata is incomplete and cannot be signed.");
      }
      var payload := Payload(manifest.value);
      if !VerifyOta(verify, payload, signature, db.keys[keyId.value].publicKey) {
        return Err("Signature verification failed.");
      }
      SignatureWritten(verify, db, id, keyId.value, signature);
      artifact := artifact.(signature := Some(signature), signatureKeyId := keyId,
                            signatureManifest := ReadManifestBytes(Base64Url.Decode(payload)));
      db := db.(artifacts := db.artifacts[id := artifact]);
      return Ok(artifact);
    }

    /**
     `key` is the managed key that the signer names for the product, `answer` its reply to the query
     for the current payload. The ordinary verification runs again on the tables.
     */
    method ImportManagedSignature(id: Id, key: Option<RequestIdentity.ManagedKey>, answer: Option<RequestIdentity.Reply>)
      returns (result: Result<Artifact, string>)
      modifies this
      ensures result.Ok? <==> Importable(verify, old(db), id, key, answer)
      ensures result.Ok? ==>
        db == Write(old(db), SaveSignature(id, answer.value.signature.value, answer.value.keyId, CurrentSnapshot(old(db), id)))
      ensures result.Err? ==> db == old(db)
    {
      hide MaySign, Write, BuildManifest, CurrentSnapshot, Payload, RequestIdentity.SigningRequest;
      if id !in db.artifacts {
        return Err("Artifact not found.");
      }
      var manifest := BuildManifest(db, db.artifacts[id]);
      if key.None? || manifest.None? {
        return Err("Release metadata is incomplete and cannot be signed.");
      }
      var request := RequestIdentity.SigningRequest(verify, answer, key.value, Payload(manifest.value));
      if request.Err? {
        return Err(request.error);
      }
      RequestIdentity.AcceptedIsTheAnswer(verify, answer, key.value, Payload(manifest.value));
      if request.value.None? || !request.value.value.status.SignedText? || request.value.value.signature.None? {
        return Err("This manifest has not been independently approved and signed.");
      }
      result := SetArtifactSignature(id, Some(request.value.value.keyId), request.value.value.signature.value);
    }

    /** The column's 255 characters and the unique constraint are checked by the database at the save. */
    method UpdateArtifact(id: Id, form: ArtifactForm, softwareName: string) returns (result: Result<string, string>)
      modifies this
      ensures result.Ok? <==> Editable(old(db), id, form, softwareName)
      ensures result.Ok? ==>
        db == Write(old(db), EditOf(old(db), id, form, softwareName))
        && result.value == EditedName(old(db), old(db).artifacts[id], form, softwareName)
      ensures result.Err? ==> db == old(db)
      ensures UpdateSelection.Unique(old(db)) ==> UpdateSelection.Unique(db)
    {
      hide Supports, EditedName, Occupied, Write, UpdateSelection.UniqueVersions, UpdateSelection.UniqueArtifacts;
      if form.channel != "dev" && form.channel != "staging" && form.channel != "beta" && form.channel != "stable" {
        return Err("Unsupported release channel.");
      }
      if id !in db.artifacts || db.artifacts[id].isDeleted || form.version !in db.versions || db.versions[form.version].isDeleted
         || !HasTarget(db.platforms, form.platform) || !HasTarget(db.architectures, form.architecture) {
        return Err("Row not found.");
      }
      if !Supports(db.platforms[form.platform].name, db.architectures[form.architecture].name) {
        return Err("Android does not support x86 or x64 architecture.");
      }
      var software := db.versions[form.version].software;
      if software !in db.software || !db.software[software].isActive {
        return Err("Cannot assign an artifact to inactive software.");
      }
      var artifact := db.artifacts[id];
      var newFileName := EditedName(db, artifact, form, softwareName);
      if |newFileName| > 255 || Occupied(db.artifacts, id, form) {
        return Err("The database refuses the row.");
      }
      OneRowWritten(db, EditOf(db, id, form, softwareName));
      artifact := artifact.(version := form.version, platform := form.platform, architecture := form.architecture,
                            isArchived := form.isArchived, fileName := newFileName, channel := form.channel,
                            signature := None, signatureKeyId := None, signatureManifest := None);
      FreeSlotStaysUnique(db.artifacts, id, form, artifact);
      db := db.(artifacts := db.artifacts[id := artifact]);
      return Ok(newFileName);
    }

    method PublishArtifact(id: Id) returns (result: Result<Artifact, string>)
      modifies this
      ensures result.Ok? <==> MayPublish(verify, old(db), id)
      ensures result.Ok? ==> db == Write(old(db), SavePublish(id)) && id in db.artifacts && result.value == db.artifacts[id]
      ensures result.Err? ==> db == old(db)
    {
      hide HasValidSignature, Write;
      if id !in db.artifacts || db.artifacts[id].isDeleted || !HasVersion(db, db.artifacts[id]) {
        return Err("Artifact not found.");
      }
      var artifact := db.artifacts[id];
      if artifact.isPublished {
        return Err("Artifact is already published.");
      }
      if artifact.isArchived {
        return Err("Archived artifacts cannot be published.");
      }
      if db.software[db.versions[artifact.version].software].requireSigned {
        if !HasValidSignature(verify, db, artifact) {
          return Err("The release signature is invalid or its signing key is inactive.");
        }
      }
      OneRowWritten(db, SavePublish(id));
      artifact := artifact.(isPublished := true);
      db := db.(artifacts := db.artifacts[id := artifact]);
      return Ok(artifact);
    }

    /** Every published release that the loop has passed is signed; those still ahead are published releases. */
    static ghost predicate SignedBut(verify: Verifier, db: Db, software: Id, ahead: set<Id>) {
      && (forall id | id in ahead :: id in db.artifacts && Watched(db, software, id))
      && forall id | id in db.artifacts && Watched(db, software, id) && id !in ahead ::
           HasVersion(db, db.artifacts[id]) && HasValidSignature(verify, db, db.artifacts[id])
    }

    method SetRequireSignedUpdates(software: Id, required: bool) returns (result: Result<(), string>)
      modifies this
      ensures result.Ok? <==> software in old(db).software && (required ==> MayRequireSignatures(verify, old(db), software))
      ensures db == if result.Ok? then Write(old(db), SavePolicy(software, required)) else old(db)
    {
      hide HasValidSignature, HasVersion, Watched, ActiveKeys, Write;
      if software !in db.software {
        return Err("Software not found.");
      }
      if required {
        if ActiveKeys(db, software) == {} {
          return Err("Add an active Ed25519 public key before enabling signatures.");
        }
        var artifacts := set id | id in db.artifacts && Watched(db, software, id);
        while artifacts != {}
          invariant db == old(db)
          invariant SignedBut(verify, db, software, artifacts)
          decreases artifacts
        {
          var id :| id in artifacts;
          if !HasVersion(db, db.artifacts[id]) || !HasValidSignature(verify, db, db.artifacts[id]) {
            return Err("Sign and verify every published release before enabling signed updates.");
          }
          artifacts := artifacts - {id};
        }
      }
      PolicyWritten(db, software, required);
      db := db.(software := db.software[software := db.software[software].(requireSigned := required)]);
      return Ok(());
    }

    /** The key's save and the bulk update that follows it. */
    method RevokeSigningKey(software: Id, keyId: Digest) returns (result: Result<(), string>)
      modifies this
      ensures result.Ok? <==> MayRevoke(old(db), software, keyId)
      ensures db == if result.Ok? then Write(Write(old(db), SaveRevocation(software, keyId)), ClearKey(software, keyId)) else old(db)
    {
      hide UsedByPublished, ActiveKeys, Write, ClearedArtifacts;
      if software !in db.software {
        return Err("Software not found.");
      }
      if !ActiveKeyOf(db, software, keyId) {
        return Err("Active signing key not found.");
      }
      if db.software[software].requireSigned {
        if |ActiveKeys(db, software)| <= 1 {
          return Err("Register a replacement public key before revoking the last active key.");
        }
        if UsedByPublished(db, software, keyId) {
          return Err("Re-sign or archive published releases with another active key before revoking this key.");
        }
      }
      RevocationWritten(db, software, keyId);
      db := db.(keys := db.keys[keyId := db.keys[keyId].(isActive := false)]);
      db := db.(artifacts := ClearedArtifacts(db, software, keyId));
      return Ok(());
    }

    /** The form's texts; an unchecked box makes the version inactive. Another version with the same numbers is refused. */
    method UpdateVersion(
      id: Id, major: string, minor: string, patch: string, codename: Option<string>, changelog: Option<string>, isActive: bool)
      returns (result: Result<Version, string>)
      modifies this
      ensures result.Ok? <==>
        id in old(db).versions && !old(db).versions[id].isDeleted
        && NextVersion(old(db).versions[id], major, minor, patch, codename, changelog, isActive).Ok?
        && !Taken(old(db).versions, id, NextVersion(old(db).versions[id], major, minor, patch, codename, changelog, isActive).value)
      ensures result.Ok? ==>
        result == NextVersion(old(db).versions[id], major, minor, patch, codename, changelog, isActive)
        && db == Updated(old(db), id, result.value)
      ensures result.Err? ==> db == old(db)
      ensures UpdateSelection.UniqueVersions(old(db).versions) ==> UpdateSelection.UniqueVersions(db.versions)
    {
      hide NextVersion, Taken, Write, Updated, UpdateSelection.UniqueVersions;
      if id !in db.versions || db.versions[id].isDeleted {
        return Err("Version not found.");
      }
      var next := NextVersion(db.versions[id], major, minor, patch, codename, changelog, isActive);
      if next.Err? {
        return next;
      }
      if Taken(db.versions, id, next.value) {
        return Err("Version already exists.");
      }
      FreeNumbersStayUnique(db.versions, id, next.value);
      VersionWritten(db, id, next.value);
      var changed := SignedMetadataChanged(db.versions[id], next.value);
      db := db.(versions := db.versions[id := next.value]);
      if changed {
        db := db.(artifacts := map a | a in db.artifacts ::
                               if db.artifacts[a].version == id then Unsigned(db.artifacts[a]) else db.artifacts[a]);
      }
      return next;
    }

    /** One turn of the loop over the artifacts: the row is saved, without its signature, when its name or checksum was set. */
    method RebuildOne(id: Id, newName: string, checksum: Option<string>) returns (needsSave: bool)
      requires id in db.artifacts
      modifies this
      ensures db == old(db).(artifacts := old(db).artifacts[id := Rebuilt(old(db).artifacts[id], newName, checksum)])
      ensures needsSave <==> old(db).artifacts[id].fileName != newName || checksum.Some?
    {
      var artifact := db.artifacts[id];
      needsSave := false;
      if artifact.fileName != newName {
        artifact := artifact.(fileName := newName);
        needsSave := true;
      }
      if checksum.Some? {
        artifact := artifact.(sha256 := checksum);
        needsSave := true;
      }
      if needsSave {
        artifact := Unsigned(artifact);
        db := db.(artifacts := db.artifacts[id := artifact]);
      } else {
        assert db.artifacts[id := artifact] == db.artifacts;
      }
    }

    /** `newNames` are the names rebuilt from the current metadata, `checksums` those of the files that could be read. */
    method RebuildAllNames(newNames: map<Id, string>, checksums: map<Id, string>) returns (updatedCount: nat)
      requires forall id | id in db.artifacts && !db.artifacts[id].isDeleted :: id in newNames
      modifies this
      ensures db == old(db).(artifacts := db.artifacts)
      ensures db.artifacts == map id | id in old(db).artifacts :: RebuiltRow(old(db).artifacts[id], id, newNames, checksums)
      ensures updatedCount == |NeedsSave(old(db).artifacts, newNames, checksums)|
    {
      hide Rebuilt, NeedsSave, PartlyRebuilt;
      ghost var before := db.artifacts;
      var artifacts := set id | id in db.artifacts && !db.artifacts[id].isDeleted;
      NothingRebuiltYet(before, artifacts, newNames, checksums);
      updatedCount := 0;
      while artifacts != {}
        invariant db == old(db).(artifacts := db.artifacts)
        invariant forall id | id in artifacts :: id in newNames
        invariant PartlyRebuilt(before, db.artifacts, artifacts, newNames, checksums)
        invariant updatedCount == |NeedsSave(before, newNames, checksums) - artifacts|
        decreases artifacts
      {
        var id :| id in artifacts;
        OneMoreRebuilt(before, db.artifacts, artifacts, id, newNames, checksums);
        OneMoreCounted(before, artifacts, id, newNames, checksums);
        var needsSave := RebuildOne(id, newNames[id], Lookup(checksums, id));
        if needsSave {
          updatedCount := updatedCount + 1;
        }
        artifacts := artifacts - {id};
      }
      AllRebuilt(before, db.artifacts, newNames, checksums);
    }
  }
}
