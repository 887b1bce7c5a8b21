/**
 Which artifacts the public may see, and what their signatures prove.

 The operations of the services load rows, check them, and later save; other operations may
 save in between. A saved signature carries a snapshot of the manifest it was verified over.
 */
module ReleaseVisibility {
  import opened Wrappers
  import opened Crypto
  import opened Decimal
  import opened ManifestJson
  import Base64Url

  type Id = nat

  datatype Software = Software(slug: string, isActive: bool, requireSigned: bool)

  datatype Version = Version(
    software: Id, major: nat, minor: nat, patch: nat, codename: Option<string>, changelog: Option<string>,
    isActive: bool, isDeleted: bool)

  /** A platform or an architecture. */
  datatype Target = Target(name: string, isDeleted: bool)

  datatype Storage = Storage(isActive: bool, isDeleted: bool)

  datatype SigningKey = SigningKey(software: Id, publicKey: PublicKey, isActive: bool)

  datatype Artifact = Artifact(
    version: Id, platform: Id, architecture: Id, storage: Id,
    channel: string, fileName: string, sizeBytes: Option<nat>, sha256: Option<string>,
    isPublished: bool, isArchived: bool, isDeleted: bool,
    signature: Option<string>, signatureKeyId: Option<Digest>, signatureManifest: Option<JsonObject>)

  datatype Db = Db(
    software: map<Id, Software>, versions: map<Id, Version>, platforms: map<Id, Target>,
    architectures: map<Id, Target>, storages: map<Id, Storage>, artifacts: map<Id, Artifact>,
    keys: map<Digest, SigningKey>)

  /******* Manifests *******/

  predicate IsHex64(s: string) {
    |s| == 64 && forall i | 0 <= i < |s| :: '0' <= s[i] <= '9' || 'a' <= s[i] <= 'f'
  }

  function VersionText(v: Version): string {
    Digits(v.major) + "." + Digits(v.minor) + "." + Digits(v.patch)
  }

  predicate HasVersion(db: Db, a: Artifact) {
    && a.version in db.versions && !db.versions[a.version].isDeleted
    && db.versions[a.version].software in db.software
  }

  predicate HasTarget(targets: map<Id, Target>, id: Id) {
    id in targets && !targets[id].isDeleted
  }

  /** buildOtaReleaseManifest on a freshly loaded artifact; None where it throws. */
  function BuildManifest(db: Db, a: Artifact): Option<Manifest> {
    if !HasVersion(db, a) || !HasTarget(db.platforms, a.platform) || !HasTarget(db.architectures, a.architecture) then
      None
    else if a.sizeBytes.None? || a.sizeBytes.value > MAX_SAFE_INTEGER then None
    else if a.sha256.None? || !IsHex64(a.sha256.value) then None
    else
      var v := db.versions[a.version];
      Some(Manifest(db.software[v.software].slug, VersionText(v), v.codename, v.changelog, a.channel,
                    db.platforms[a.platform].name, db.architectures[a.architecture].name, a.fileName,
                    a.sizeBytes.value, a.sha256.value))
  }

  /** The members of the object that the public query builds in SQL; missing values become null. */
  function SqlFields(db: Db, a: Artifact): seq<(string, JsonValue)>
    requires HasVersion(db, a)
  {
    var v := db.versions[a.version];
    var nameOf := (targets: map<Id, Target>, id: Id) => if id in targets then JsonString(targets[id].name) else JsonNull;
    [("schemaVersion", JsonNumber(1)),
     ("software", JsonString(db.software[v.software].slug)),
     ("version", JsonString(VersionText(v))),
     ("codename", Nullable(v.codename)),
     ("changelog", Nullable(v.changelog)),
     ("channel", JsonString(a.channel)),
     ("platform", nameOf(db.platforms, a.platform)),
     ("architecture", nameOf(db.architectures, a.architecture)),
     ("fileName", JsonString(a.fileName)),
     ("sizeBytes", if a.sizeBytes.Some? then JsonNumber(a.sizeBytes.value) else JsonNull),
     ("sha256", Nullable(a.sha256))]
  }

  /******* Public visibility *******/

  predicate SignaturePolicy(db: Db, a: Artifact)
    requires HasVersion(db, a)
  {
    var software := db.versions[a.version].software;
    || !db.software[software].requireSigned
    || (&& a.signatureKeyId.Some? && a.signatureKeyId.value in db.keys
        && db.keys[a.signatureKeyId.value].software == software
        && db.keys[a.signatureKeyId.value].isActive
        && a.signature.Some?
        && a.signatureManifest == Some(Overlay(map[], SqlFields(db, a))))
  }

  /** publicQuery as a predicate over the whole database. */
  predicate Public(db: Db, id: Id) {
    id in db.artifacts &&
    var a := db.artifacts[id];
    && !a.isDeleted
    && HasVersion(db, a)
    && db.versions[a.version].isActive
    && db.software[db.versions[a.version].software].isActive
    && SignaturePolicy(db, a)
    && HasTarget(db.platforms, a.platform)
    && HasTarget(db.architectures, a.architecture)
    && a.storage in db.storages && !db.storages[a.storage].isDeleted && db.storages[a.storage].isActive
    && a.isPublished
    && !a.isArchived
  }

  predicate RequiresSignature(db: Db, id: Id)
    requires Public(db, id)
  {
    db.software[db.versions[db.artifacts[id].version].software].requireSigned
  }

  /******* Signatures *******/

  function Payload(m: Manifest): (payload: string)
    ensures Base64Url.IsBase64Url(payload)
  {
    Base64Url.Encode(ManifestBytes(m))
  }

  /** verifyOtaReleaseSignature: canonical texts, then the signature over the payload's bytes. */
  predicate VerifyOta(verify: Verifier, payload: string, signature: string, key: PublicKey) {
    && Base64Url.IsSignatureText(signature)
    && Base64Url.ServiceAccepts(payload)
    && verify(key, Base64Url.Decode(payload), Base64Url.Decode(signature))
  }

  predicate Signable(m: Manifest) {
    m.sizeBytes <= MAX_SAFE_INTEGER && IsHex64(m.sha256)
  }

  ghost predicate AttestedBy(verify: Verifier, db: Db, a: Artifact, m: Manifest)
    requires a.signature.Some? && a.signatureKeyId.Some?
  {
    && Signable(m)
    && a.signatureManifest == Some(ObjectOf(m))
    && a.signatureKeyId.value in db.keys
    && VerifyOta(verify, Payload(m), a.signature.value, db.keys[a.signatureKeyId.value].publicKey)
  }

  /** The three signature columns are empty together, or hold a signature that verified over their snapshot. */
  ghost predicate Attested(verify: Verifier, db: Db, a: Artifact) {
    || (a.signature.None? && a.signatureKeyId.None? && a.signatureManifest.None?)
    || (a.signature.Some? && a.signatureKeyId.Some? && exists m :: AttestedBy(verify, db, a, m))
  }

  ghost predicate AllAttested(verify: Verifier, db: Db) {
    forall id | id in db.artifacts :: Attested(verify, db, db.artifacts[id])
  }

  datatype Envelope = Envelope(payload: string, signature: string, keyId: Digest)

  /** createOtaSignatureEnvelope; an exception of the manifest builder also counts as None. */
  function CreateEnvelope(db: Db, a: Artifact): Option<Envelope> {
    if a.signature.None? || a.signatureKeyId.None? then None
    else
      var m := BuildManifest(db, a);
      if m.None? || a.signatureManifest.None? || !SnapshotMatches(a.signatureManifest.value, m.value) then None
      else Some(Envelope(Payload(m.value), a.signature.value, a.signatureKeyId.value))
  }

  /** What a client can rely on: a signature over exactly the current manifest, under an active key of the product. */
  ghost predicate Proven(verify: Verifier, db: Db, id: Id)
    requires Public(db, id)
  {
    var a := db.artifacts[id];
    var m := BuildManifest(db, a);
    && m.Some?
    && a.signature.Some?
    && a.signatureKeyId.Some?
    && a.signatureKeyId.value in db.keys
    && db.keys[a.signatureKeyId.value].isActive
    && db.keys[a.signatureKeyId.value].software == db.versions[a.version].software
    && VerifyOta(verify, Payload(m.value), a.signature.value, db.keys[a.signatureKeyId.value].publicKey)
    && CreateEnvelope(db, a) == Some(Envelope(Payload(m.value), a.signature.value, a.signatureKeyId.value))
  }

  lemma SqlNamesMatch(db: Db, a: Artifact, m: Manifest)
    requires HasVersion(db, a)
    ensures SameNames(Fields(m), SqlFields(db, a))
  {
  }

  /** The object built in SQL equals a signable manifest's object only if the builder gives that manifest. */
  lemma SqlObjectIsTheManifest(db: Db, a: Artifact, m: Manifest)
    requires HasVersion(db, a) && HasTarget(db.platforms, a.platform) && HasTarget(db.architectures, a.architecture)
    requires Signable(m) && Overlay(map[], SqlFields(db, a)) == ObjectOf(m)
    ensures BuildManifest(db, a) == Some(m)
  {
    NamesAreDistinct(m);
    SqlNamesMatch(db, a, m);
    SameColumns(db, a, m) by {
      hide Fields, SqlFields, Overlay;
      OverlayInjective(Fields(m), SqlFields(db, a));
    }
  }

  lemma SameColumns(db: Db, a: Artifact, m: Manifest)
    requires HasVersion(db, a) && HasTarget(db.platforms, a.platform) && HasTarget(db.architectures, a.architecture)
    requires Signable(m) && Fields(m) == SqlFields(db, a)
    ensures BuildManifest(db, a) == Some(m)
  {
  }

  /** With sound signature columns, everything public under a signed-only product is proven to the client. */
  lemma PublicIsProven(verify: Verifier, db: Db, id: Id)
    requires AllAttested(verify, db) && Public(db, id) && RequiresSignature(db, id)
    ensures Proven(verify, db, id)
  {
    hide BuildManifest, SqlFields, Overlay, ObjectOf, SnapshotMatches, VerifyOta, Payload, Signable;
    var a := db.artifacts[id];
    var m :| AttestedBy(verify, db, a, m);
    SqlObjectIsTheManifest(db, a, m);
    MatchDetermines(m, m);
  }

  /******* Guards of the services *******/

  predicate ActiveKeyOf(db: Db, software: Id, keyId: Digest) {
    keyId in db.keys && db.keys[keyId].software == software && db.keys[keyId].isActive
  }

  /** assertValidReleaseSignature: the stored signature verifies over the current manifest. */
  predicate HasValidSignature(verify: Verifier, db: Db, a: Artifact)
    requires HasVersion(db, a)
  {
    && a.signature.Some?
    && a.signatureKeyId.Some?
    && ActiveKeyOf(db, db.versions[a.version].software, a.signatureKeyId.value)
    && BuildManifest(db, a).Some?
    && VerifyOta(verify, Payload(BuildManifest(db, a).value), a.signature.value, db.keys[a.signatureKeyId.value].publicKey)
  }

  predicate MayPublish(verify: Verifier, db: Db, id: Id) {
    id in db.artifacts &&
    var a := db.artifacts[id];
    && !a.isDeleted && HasVersion(db, a) && !a.isPublished && !a.isArchived
    && (db.software[db.versions[a.version].software].requireSigned ==> HasValidSignature(verify, db, a))
  }

  /** The artifacts that the policy operations look at: published, not archived, under an active version of the product. */
  predicate Watched(db: Db, software: Id, id: Id) {
    id in db.artifacts &&
    var a := db.artifacts[id];
    && !a.isDeleted && a.isPublished && !a.isArchived
    && a.version in db.versions && db.versions[a.version].software == software && db.versions[a.version].isActive
  }

  function ActiveKeys(db: Db, software: Id): set<Digest> {
    set k | k in db.keys && ActiveKeyOf(db, software, k)
  }

  predicate MayRequireSignatures(verify: Verifier, db: Db, software: Id) {
    && software in db.software
    && ActiveKeys(db, software) != {}
    && forall id | id in db.artifacts && Watched(db, software, id) ::
         HasVersion(db, db.artifacts[id]) && HasValidSignature(verify, db, db.artifacts[id])
  }

  predicate UsedByPublished(db: Db, software: Id, keyId: Digest) {
    exists id :: id in db.artifacts && Watched(db, software, id) && db.artifacts[id].signatureKeyId == Some(keyId)
  }

  predicate MayRevoke(db: Db, software: Id, keyId: Digest) {
    && software in db.software
    && ActiveKeyOf(db, software, keyId)
    && (db.software[software].requireSigned ==>
          && |ActiveKeys(db, software)| > 1
          && !UsedByPublished(db, software, keyId))
  }

  /******* Loads and saves *******/

  datatype Edit = Edit(version: Id, platform: Id, architecture: Id, isArchived: bool, channel: string, fileName: string)

  /** A loaded operation with the values that it is about to save. */
  datatype Op =
    | SaveSignature(artifact: Id, signature: string, keyId: Digest, snapshot: JsonObject)
    | SaveEdit(artifact: Id, edit: Edit)
    | SaveRebuild(artifact: Id, fileName: string, checksum: Option<string>)
    | SavePublish(artifact: Id)
    | SaveVersion(version: Id, row: Version, changed: bool)
    | ClearVersion(version: Id)
    | SaveRevocation(software: Id, keyId: Digest)
    | ClearKey(software: Id, keyId: Digest)
    | SavePolicy(software: Id, required: bool)

  /** What the load half checked. Metadata edits may save any values, which covers every validated one. */
  predicate Loadable(verify: Verifier, db: Db, op: Op) {
    match op
    case SaveSignature(id, signature, keyId, snapshot) =>
      id in db.artifacts &&
      var m := BuildManifest(db, db.artifacts[id]);
      && m.Some?
      && ActiveKeyOf(db, db.versions[db.artifacts[id].version].software, keyId)
      && VerifyOta(verify, Payload(m.value), signature, db.keys[keyId].publicKey)
      && ReadManifestBytes(Base64Url.Decode(Payload(m.value))) == Some(snapshot)
    case SavePublish(id) => MayPublish(verify, db, id)
    case SaveRevocation(software, keyId) => MayRevoke(db, software, keyId)
    case SavePolicy(software, required) =>
      software in db.software && (required ==> MayRequireSignatures(verify, db, software))
    case ClearVersion(_) => false
    case ClearKey(_, _) => false
    case _ => true
  }

  function Unsigned(a: Artifact): Artifact {
    a.(signature := None, signatureKeyId := None, signatureManifest := None)
  }

  /** What a save leaves of one artifact row: it assigns its columns over whatever the row holds by now. */
  function SavedRow(db: Db, op: Op, id: Id, a: Artifact): Artifact {
    match op
    case SaveSignature(target, signature, keyId, snapshot) =>
      if id != target then a
      else a.(signature := Some(signature), signatureKeyId := Some(keyId), signatureManifest := Some(snapshot))
    case SaveEdit(target, e) =>
      if id != target then a
      else Unsigned(a.(version := e.version, platform := e.platform, architecture := e.architecture,
                       isArchived := e.isArchived, channel := e.channel, fileName := e.fileName))
    case SaveRebuild(target, fileName, checksum) =>
      if id != target then a
      else Unsigned(a.(fileName := fileName, sha256 := if checksum.Some? then checksum else a.sha256))
    case SavePublish(target) => if id != target then a else a.(isPublished := true)
    case ClearVersion(version) => if a.version == version then Unsigned(a) else a
    case ClearKey(software, keyId) => ClearedOf(db, software, keyId, a)
    case _ => a
  }

  /** The save half: one atomic write. */
  function Write(db: Db, op: Op): Db {
    Db(
      if op.SavePolicy? && op.software in db.software
      then db.software[op.software := db.software[op.software].(requireSigned := op.required)] else db.software,
      if op.SaveVersion? && op.version in db.versions then db.versions[op.version := op.row] else db.versions,
      db.platforms, db.architectures, db.storages,
      map id | id in db.artifacts :: SavedRow(db, op, id, db.artifacts[id]),
      if op.SaveRevocation? && op.keyId in db.keys
      then db.keys[op.keyId := db.keys[op.keyId].(isActive := false)] else db.keys)
  }

  function ClearedOf(db: Db, software: Id, keyId: Digest, a: Artifact): Artifact {
    if a.signatureKeyId == Some(keyId) && a.version in db.versions && db.versions[a.version].software == software
    then Unsigned(a) else a
  }

  /** The bulk update that follows some saves in a statement of its own. */
  function FollowUp(op: Op): Option<Op> {
    match op
    case SaveVersion(id, _, changed) => if changed then Some(ClearVersion(id)) else None
    case SaveRevocation(software, keyId) => Some(ClearKey(software, keyId))
    case _ => None
  }

  /** Anything else the application does: registered keys keep their identity, signatures are not written. */
  ghost predicate OtherChange(db: Db, db': Db) {
    && (forall k | k in db.keys ::
          k in db'.keys && db'.keys[k].publicKey == db.keys[k].publicKey && db'.keys[k].software == db.keys[k].software)
    && (forall id | id in db'.artifacts ::
          var a := db'.artifacts[id];
          if id in db.artifacts then
            && a.signature == db.artifacts[id].signature
            && a.signatureKeyId == db.artifacts[id].signatureKeyId
            && a.signatureManifest == db.artifacts[id].signatureManifest
          else a.signature.None? && a.signatureKeyId.None? && a.signatureManifest.None?)
  }

  datatype State = State(db: Db, pending: map<nat, Op>)

  datatype Step =
    | Load(process: nat, op: Op)
    | Save(process: nat)
    | Crash(process: nat)
    | Other(db: Db)

  ghost predicate Enabled(verify: Verifier, s: State, step: Step) {
    match step
    case Load(p, op) => p !in s.pending && Loadable(verify, s.db, op)
    case Save(p) => p in s.pending
    case Crash(p) => p in s.pending
    case Other(db) => OtherChange(s.db, db)
  }

  function Apply(s: State, step: Step): State
    requires (step.Save? ==> step.process in s.pending)
  {
    match step
    case Load(p, op) => s.(pending := s.pending[p := op])
    case Save(p) =>
      var next := FollowUp(s.pending[p]);
      State(Write(s.db, s.pending[p]), if next.Some? then s.pending[p := next.value] else s.pending - {p})
    case Crash(p) => s.(pending := s.pending - {p})
    case Other(db) => s.(db := db)
  }

  ghost predicate Possible(verify: Verifier, s: State, steps: seq<Step>)
    decreases |steps|
  {
    steps == [] || (Enabled(verify, s, steps[0]) && Possible(verify, Apply(s, steps[0]), steps[1..]))
  }

  ghost function Run(verify: Verifier, s: State, steps: seq<Step>): State
    requires Possible(verify, s, steps)
    decreases |steps|
  {
    if steps == [] then s else Run(verify, Apply(s, steps[0]), steps[1..])
  }

  /** A signature on its way into the database verified over the snapshot that travels with it. */
  ghost predicate PendingOk(verify: Verifier, db: Db, op: Op) {
    op.SaveSignature? ==>
      exists m :: && Signable(m)
                  && op.snapshot == ObjectOf(m)
                  && op.keyId in db.keys
                  && VerifyOta(verify, Payload(m), op.signature, db.keys[op.keyId].publicKey)
  }

  ghost predicate Inv(verify: Verifier, s: State) {
    && AllAttested(verify, s.db)
    && forall p | p in s.pending :: PendingOk(verify, s.db, s.pending[p])
  }

  /** Registered keys keep their identity. */
  ghost predicate KeysKept(db: Db, db': Db) {
    forall k | k in db.keys :: k in db'.keys && db'.keys[k].publicKey == db.keys[k].publicKey
  }

  /** The signature columns of every artifact are as before, or empty. */
  ghost predicate ColumnsKeptOrCleared(db: Db, db': Db) {
    forall id | id in db'.artifacts ::
      var a' := db'.artifacts[id];
      || (a'.signature.None? && a'.signatureKeyId.None? && a'.signatureManifest.None?)
      || (id in db.artifacts
          && a'.signature == db.artifacts[id].signature
          && a'.signatureKeyId == db.artifacts[id].signatureKeyId
          && a'.signatureManifest == db.artifacts[id].signatureManifest)
  }

  /** Nothing but a signature save writes signature columns, and no operation changes a registered key. */
  lemma WriteTouchesNoOther(db: Db, op: Op)
    ensures KeysKept(db, Write(db, op))
    ensures !op.SaveSignature? ==> ColumnsKeptOrCleared(db, Write(db, op))
  {
  }

  lemma KeptMeansAttested(verify: Verifier, db: Db, db': Db)
    requires AllAttested(verify, db) && KeysKept(db, db') && ColumnsKeptOrCleared(db, db')
    ensures AllAttested(verify, db')
  {
    hide AttestedBy;
    forall id | id in db'.artifacts
      ensures Attested(verify, db', db'.artifacts[id])
    {
      if db'.artifacts[id].signature.Some? {
        AttestedTransfers(verify, db, db.artifacts[id], db', db'.artifacts[id]);
      }
    }
  }

  lemma AttestedTransfers(verify: Verifier, db: Db, a: Artifact, db': Db, a': Artifact)
    requires Attested(verify, db, a)
    requires KeysKept(db, db')
    requires a'.signature == a.signature && a'.signatureKeyId == a.signatureKeyId && a'.signatureManifest == a.signatureManifest
    ensures Attested(verify, db', a')
  {
    hide Signable, ObjectOf, VerifyOta, Payload;
    if a.signature.Some? {
      var m :| AttestedBy(verify, db, a, m);
      assert AttestedBy(verify, db', a', m);
    }
  }

  lemma PendingTransfers(verify: Verifier, db: Db, db': Db, op: Op)
    requires PendingOk(verify, db, op)
    requires KeysKept(db, db')
    ensures PendingOk(verify, db', op)
  {
  }

  lemma LoadedSignatureOk(verify: Verifier, db: Db, op: Op)
    requires op.SaveSignature? && Loadable(verify, db, op)
    ensures PendingOk(verify, db, op)
  {
    var m := BuildManifest(db, db.artifacts[op.artifact]).value;
    Base64Url.EncodeDecode(ManifestBytes(m));
    ManifestRoundTrip(m);
    assert Signable(m);
    assert op.snapshot == ObjectOf(m);
  }

  lemma SavedSignatureOk(verify: Verifier, db: Db, op: Op)
    requires op.SaveSignature? && PendingOk(verify, db, op) && AllAttested(verify, db)
    ensures AllAttested(verify, Write(db, op))
  {
    hide Signable, ObjectOf, VerifyOta, Payload, Attested;
    var db' := Write(db, op);
    var m :| && Signable(m) && op.snapshot == ObjectOf(m) && op.keyId in db.keys
             && VerifyOta(verify, Payload(m), op.signature, db.keys[op.keyId].publicKey);
    forall id | id in db'.artifacts
      ensures Attested(verify, db', db'.artifacts[id])
    {
      if id == op.artifact {
        JustAttested(verify, db', db'.artifacts[id], m);
      } else {
        AttestedTransfers(verify, db, db.artifacts[id], db', db'.artifacts[id]);
      }
    }
  }

  lemma JustAttested(verify: Verifier, db: Db, a: Artifact, m: Manifest)
    requires a.signature.Some? && a.signatureKeyId.Some? && AttestedBy(verify, db, a, m)
    ensures Attested(verify, db, a)
  {
  }

  lemma SaveKeepsInv(verify: Verifier, s: State, p: nat)
    requires Inv(verify, s) && p in s.pending
    ensures Inv(verify, Apply(s, Save(p)))
  {
    hide Write, Attested, PendingOk;
    var op, s' := s.pending[p], Apply(s, Save(p));
    WriteTouchesNoOther(s.db, op);
    if op.SaveSignature? {
      SavedSignatureOk(verify, s.db, op);
    } else {
      KeptMeansAttested(verify, s.db, s'.db);
    }
    forall q | q in s'.pending
      ensures PendingOk(verify, s'.db, s'.pending[q])
    {
      if q == p {
        FollowUpOk(verify, s'.db, op);
      } else {
        PendingTransfers(verify, s.db, s'.db, s.pending[q]);
      }
    }
  }

  lemma FollowUpOk(verify: Verifier, db: Db, op: Op)
    ensures FollowUp(op).Some? ==> PendingOk(verify, db, FollowUp(op).value)
  {
  }

  lemma StepKeepsInv(verify: Verifier, s: State, step: Step)
    requires Inv(verify, s) && Enabled(verify, s, step)
    ensures Inv(verify, Apply(s, step))
  {
    hide Write, Attested;
    match step
    case Load(_, op) =>
      if op.SaveSignature? {
        LoadedSignatureOk(verify, s.db, op);
      }
    case Save(p) => SaveKeepsInv(verify, s, p);
    case Crash(_) =>
    case Other(db) =>
      KeptMeansAttested(verify, s.db, db);
      forall q | q in s.pending
        ensures PendingOk(verify, db, s.pending[q])
      {
        PendingTransfers(verify, s.db, db, s.pending[q]);
      }
  }

  /**
   For every interleaving of loads, saves, crashes and other changes: whatever is public under a
   signed-only product carries a signature that verified over exactly its current manifest, under
   an active key of the product, and its envelope is delivered.
   */
  lemma {:induction false} SignedOnlyAlwaysProven(verify: Verifier, s: State, steps: seq<Step>, id: Id)
    requires Inv(verify, s) && Possible(verify, s, steps)
    ensures Inv(verify, Run(verify, s, steps))
    ensures var db := Run(verify, s, steps).db;
            Public(db, id) && RequiresSignature(db, id) ==> Proven(verify, db, id)
    decreases |steps|
  {
    hide Public, Proven, Inv, Apply, Loadable, OtherChange;
    if steps == [] {
      if Public(s.db, id) && RequiresSignature(s.db, id) {
        PublicUnderInv(verify, s, id);
      }
    } else {
      StepKeepsInv(verify, s, steps[0]);
      SignedOnlyAlwaysProven(verify, Apply(s, steps[0]), steps[1..], id);
    }
  }

  lemma PublicUnderInv(verify: Verifier, s: State, id: Id)
    requires Inv(verify, s) && Public(s.db, id) && RequiresSignature(s.db, id)
    ensures Proven(verify, s.db, id)
  {
    hide Public, Proven, AllAttested;
    PublicIsProven(verify, s.db, id);
  }

  predicate Unattested(db: Db) {
    forall id | id in db.artifacts :: Unsigned(db.artifacts[id]) == db.artifacts[id]
  }

  /** In particular from any database that holds no signature yet. */
  lemma SignedOnlyFromTheStart(verify: Verifier, db: Db, steps: seq<Step>, id: Id)
    requires Unattested(db) && Possible(verify, State(db, map[]), steps)
    ensures var db' := Run(verify, State(db, map[]), steps).db;
            Public(db', id) && RequiresSignature(db', id) ==> Proven(verify, db', id)
  {
    hide Public, Proven, Possible, Run;
    assert Inv(verify, State(db, map[]));
    SignedOnlyAlwaysProven(verify, State(db, map[]), steps, id);
  }

  /******* Policy changes do not change what is public *******/

  /** One signature verifies at most one message per key. */
  ghost predicate OneMessagePerSignature(verify: Verifier) {
    forall key, b1, b2, signature :: verify(key, b1, signature) && verify(key, b2, signature) ==> b1 == b2
  }

  /** A stored signature that verifies over the current manifest has the current manifest as its snapshot. */
  lemma ValidSignatureHasCurrentSnapshot(verify: Verifier, db: Db, a: Artifact)
    requires OneMessagePerSignature(verify)
    requires HasVersion(db, a) && Attested(verify, db, a) && HasValidSignature(verify, db, a)
    ensures a.signatureManifest == Some(ObjectOf(BuildManifest(db, a).value))
  {
    hide BuildManifest, ObjectOf, ManifestBytes, Signable;
    var m :| AttestedBy(verify, db, a, m);
    var current := BuildManifest(db, a).value;
    Base64Url.EncodeDecode(ManifestBytes(m));
    Base64Url.EncodeDecode(ManifestBytes(current));
    var key := db.keys[a.signatureKeyId.value].publicKey;
    assert verify(key, ManifestBytes(m), Base64Url.Decode(a.signature.value));
    assert verify(key, ManifestBytes(current), Base64Url.Decode(a.signature.value));
    SnapshotTestIsExact(m, current);
  }

  lemma BuiltManifestIsTheSqlObject(db: Db, a: Artifact)
    requires BuildManifest(db, a).Some?
    ensures Overlay(map[], SqlFields(db, a)) == ObjectOf(BuildManifest(db, a).value)
  {
  }

  lemma SqlFieldsDependOn(db: Db, a: Artifact, db': Db, a': Artifact)
    requires a' == a || a' == Unsigned(a)
    requires db'.versions == db.versions && db'.platforms == db.platforms && db'.architectures == db.architectures
    requires HasVersion(db, a) && HasVersion(db', a')
    requires db'.software[db.versions[a.version].software].slug == db.software[db.versions[a.version].software].slug
    ensures SqlFields(db', a') == SqlFields(db, a)
  {
  }

  /** A successful switch to signed-only updates hides nothing and reveals nothing. */
  lemma RequiringSignaturesKeepsPublicSet(verify: Verifier, db: Db, software: Id, id: Id)
    requires OneMessagePerSignature(verify) && AllAttested(verify, db)
    requires MayRequireSignatures(verify, db, software)
    ensures Public(Write(db, SavePolicy(software, true)), id) <==> Public(db, id)
  {
    hide SqlFields, Overlay, BuildManifest, ObjectOf, VerifyOta, Payload, Attested, OneMessagePerSignature;
    var db' := Write(db, SavePolicy(software, true));
    if id in db.artifacts && HasVersion(db, db.artifacts[id]) {
      var a := db.artifacts[id];
      assert db'.artifacts[id] == a;
      SqlFieldsDependOn(db, a, db', a);
      if Watched(db, software, id) {
        ValidSignatureHasCurrentSnapshot(verify, db, a);
        BuiltManifestIsTheSqlObject(db, a);
      }
    }
  }

  /** A successful revocation, with the signatures it clears, hides nothing and reveals nothing. */
  lemma RevokingKeepsPublicSet(db: Db, software: Id, keyId: Digest, id: Id)
    requires MayRevoke(db, software, keyId)
    ensures Public(Write(Write(db, SaveRevocation(software, keyId)), ClearKey(software, keyId)), id) <==> Public(db, id)
  {
    hide SqlFields, Overlay;
    var revoked := Write(db, SaveRevocation(software, keyId));
    var db' := Write(revoked, ClearKey(software, keyId));
    if id in db.artifacts && HasVersion(db, db.artifacts[id]) {
      assert revoked.artifacts[id] == db.artifacts[id];
      SqlFieldsDependOn(db, db.artifacts[id], db', db'.artifacts[id]);
    }
  }
}
