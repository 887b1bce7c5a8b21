/**
 The handlers of the signer on its tables, each as one transaction without interference. They
 write the same effects as the interleaved protocol and return what the caller receives.
 */
module SignerService {
  import opened Wrappers
  import opened Crypto
  import opened SignerProtocol
  import SlugAllocator

  datatype SignerError =
    | InvalidRequest
    | BackendUnavailable
    | CustodyPolicy
    | KeyDisabled
    | RetentionLimitReached
    | NotFound
    | ApprovalMismatch
    | KeyChanged
    | Expired

  /** What the backend says of a product's key; a latest version that is no 32-bit number is `None`. */
  datatype KeyData = KeyData(
    kind: string, derived: bool, exportable: bool, plaintextBackup: bool,
    latest: Option<nat>, minEncryption: nat, keys: map<nat, PublicKey>)

  /** The public key of one version, if the custody policy holds and the version is enabled; `None` is a failed call. */
  function BackendKey(product: string, data: Option<KeyData>, version: nat): Result<PublicKey, SignerError> {
    if !SlugAllocator.ValidSlug(product) then Err(InvalidRequest)
    else if data.None? then Err(BackendUnavailable)
    else
      var d := data.value;
      if d.kind != "ed25519" || d.derived || d.exportable || d.plaintextBackup then Err(CustodyPolicy)
      else if d.latest.None? then Err(BackendUnavailable)
      else if version == 0 || version > d.latest.value || version < d.minEncryption then Err(KeyDisabled)
      else if version !in d.keys then Err(BackendUnavailable)
      else Ok(d.keys[version])
  }

  class SignerTables {
    var rows: map<Digest, Row>
    var audit: seq<AuditRow>
    ghost var generation: map<Digest, int>

    constructor ()
      ensures Contents() == Db(map[], [], map[])
    {
      rows, audit, generation := map[], [], map[];
    }

    ghost function Contents(): Db
      reads this
    {
      Db(rows, audit, generation)
    }

    /** `data` is what the backend returned for the product's key, if it answered. */
    method CreateRequest(w: World, product: string, payload: string, keyId: Digest, keyVersion: nat,
                         data: Option<KeyData>, now: int)
      returns (r: Result<Row, SignerError>)
      modifies this
      ensures r.Err? ==> Contents() == old(Contents())
      ensures (r, Contents()) == Submission(w, old(Contents()), product, payload, keyId, keyVersion, data, now)
    {
      if keyVersion == 0 || keyVersion > MAX_KEY_VERSION || w.parse(payload, product).None? {
        return Err(InvalidRequest);
      }
      var key := BackendKey(product, data, keyVersion);
      if key.Err? {
        return Err(key.error);
      }
      if Fingerprint(key.value) != keyId {
        return Err(KeyChanged);
      }
      var draft := Draft(w, product, payload, keyId, keyVersion, key.value);
      var id := IdOf(w, draft.value);
      var pruned := set x | x in rows && Prunable(rows[x], now);
      var kept := rows - pruned;
      if id in kept {
        var row := kept[id];
        rows := kept;
        if row.status.Pending? && row.expiresAt < now {
          row := Fresh(row, now);
          rows := rows[id := row];
          audit := audit + [AuditRow(id, Renewed)];
          generation := generation[id := row.expiresAt];
        }
        return Ok(row);
      }
      assert kept.Keys == rows.Keys - pruned;
      if |kept| >= RETENTION_LIMIT {
        return Err(RetentionLimitReached);
      }
      var row := Fresh(draft.value, now);
      rows := kept[id := row];
      audit := audit + [AuditRow(id, Requested)];
      generation := generation[id := row.expiresAt];
      return Ok(row);
    }

    /**
     `data` and `recheck` are what the backend returned for the key before and after signing, and
     `raw` is the signature it produced; a value that is absent or fails its check ends the handler.
     */
    method Approve(w: World, id: Digest, approval: Approval, data: Option<KeyData>, raw: Option<Bytes>,
                   recheck: Option<KeyData>, now: int)
      returns (r: Result<Row, SignerError>)
      modifies this
      ensures r.Err? ==> Contents() == old(Contents())
      ensures (r, Contents()) == Approved(w, old(Contents()), id, approval, data, raw, recheck, now)
    {
      if id !in rows {
        return Err(NotFound);
      }
      var request := rows[id];
      if w.parse(request.payload, request.product).None? {
        return Err(InvalidRequest);
      }
      if !Matches(w, request, approval) {
        return Err(ApprovalMismatch);
      }
      var key := BackendKey(request.product, data, request.keyVersion);
      if key.Err? {
        return Err(key.error);
      }
      if Fingerprint(key.value) != request.keyId {
        return Err(KeyChanged);
      }
      if request.status.Signed? {
        return Ok(request);
      }
      if request.expiresAt < now {
        return Err(Expired);
      }
      if raw.None? || !SignatureOk(w, request, key.value, raw.value) {
        return Err(BackendUnavailable);
      }
      var again := BackendKey(request.product, recheck, request.keyVersion);
      if again.Err? {
        return Err(again.error);
      }
      if Fingerprint(again.value) != Fingerprint(key.value) {
        return Err(BackendUnavailable);
      }
      request := SignedRow(request, raw.value);
      rows := rows[id := request];
      audit := audit + [AuditRow(id, ApprovedAndSigned)];
      return Ok(request);
    }
  }

  /** A whole submission: refused before the database is touched, or a creation. */
  ghost function Submission(w: World, db: Db, product: string, payload: string, keyId: Digest, keyVersion: nat,
                            data: Option<KeyData>, now: int): (Result<Row, SignerError>, Db)
  {
    var key := BackendKey(product, data, keyVersion);
    if keyVersion == 0 || keyVersion > MAX_KEY_VERSION || w.parse(payload, product).None? then (Err(InvalidRequest), db)
    else if key.Err? then (Err(key.error), db)
    else if Fingerprint(key.value) != keyId then (Err(KeyChanged), db)
    else
      var draft := Draft(w, product, payload, keyId, keyVersion, key.value).value;
      Creation(db, IdOf(w, draft), draft, now)
  }

  /** A creation as a function of the tables: found, renewed, refused or inserted. */
  ghost function Creation(db: Db, id: Digest, draft: Row, now: int): (Result<Row, SignerError>, Db) {
    var pruned := PrunableIds(db, now);
    if id in db.rows && id !in pruned then
      var row := db.rows[id];
      if row.status.Pending? && row.expiresAt < now then
        (Ok(Fresh(row, now)), RequestDb(db, id, pruned, Some(Renewed), Fresh(row, now)))
      else (Ok(row), RequestDb(db, id, pruned, None, row))
    else if !HasRoom(db, pruned) then (Err(RetentionLimitReached), db)
    else (Ok(Fresh(draft, now)), RequestDb(db, id, pruned, Some(Requested), Fresh(draft, now)))
  }

  /** An approval as a function of the tables; a stored signature is returned again without signing. */
  ghost function Approved(w: World, db: Db, id: Digest, approval: Approval, data: Option<KeyData>, raw: Option<Bytes>,
                          recheck: Option<KeyData>, now: int): (Result<Row, SignerError>, Db)
  {
    if id !in db.rows then (Err(NotFound), db)
    else
      var row := db.rows[id];
      var key, again := BackendKey(row.product, data, row.keyVersion), BackendKey(row.product, recheck, row.keyVersion);
      if w.parse(row.payload, row.product).None? then (Err(InvalidRequest), db)
      else if !Matches(w, row, approval) then (Err(ApprovalMismatch), db)
      else if key.Err? then (Err(key.error), db)
      else if Fingerprint(key.value) != row.keyId then (Err(KeyChanged), db)
      else if row.status.Signed? then (Ok(row), db)
      else if row.expiresAt < now then (Err(Expired), db)
      else if raw.None? || !SignatureOk(w, row, key.value, raw.value) then (Err(BackendUnavailable), db)
      else if again.Err? then (Err(again.error), db)
      else if Fingerprint(again.value) != Fingerprint(key.value) then (Err(BackendUnavailable), db)
      else (Ok(SignedRow(row, raw.value)), SignedDb(db, id, raw.value))
  }

  /**
   Submitting the same content again returns the same row and changes nothing but removing rows that
   may be pruned by then: at any later time for a signed request, up to its expiry for a pending one.
   */
  lemma ResubmissionIsIdempotent(db: Db, id: Digest, draft: Row, now: int, later: int)
    requires draft.status.Pending? && draft.signature.None?
    requires Creation(db, id, draft, now).0.Ok?
    requires
      var row := Creation(db, id, draft, now).0.value;
      now <= later && ((row.status.Signed? && row.signature.Some?) || later <= row.expiresAt)
    ensures
      var (r, db') := Creation(db, id, draft, now);
      Creation(db', id, draft, later) == (r, db'.(rows := db'.rows - PrunableIds(db', later)))
      && id in db'.rows && db'.rows[id] == r.value && id !in PrunableIds(db', later)
  {
    hide HasRoom;
    var (r, db') := Creation(db, id, draft, now);
    assert id in db'.rows && db'.rows[id] == r.value;
  }

  /**
   Repeating a successful approval returns the first signature, whatever the backend would sign
   now and however late it is, and a recorded approval is not recorded twice.
   */
  lemma RepeatedApprovalReturnsTheStoredSignature(w: World, db: Db, id: Digest, approval: Approval,
                                                  data: Option<KeyData>, raw: Option<Bytes>, recheck: Option<KeyData>, now: int,
                                                  raw': Option<Bytes>, recheck': Option<KeyData>, later: int)
    requires Approved(w, db, id, approval, data, raw, recheck, now).0.Ok?
    ensures var (r, db') := Approved(w, db, id, approval, data, raw, recheck, now);
            Approved(w, db', id, approval, data, raw', recheck', later) == (r, db')
  {
    hide SignatureOk, BackendKey;
  }

  /** An approval that was prepared before a renewal is refused after it. */
  lemma RenewalVoidsApprovals(w: World, db: Db, id: Digest, draft: Row, now: int, approval: Approval,
                              data: Option<KeyData>, raw: Option<Bytes>, recheck: Option<KeyData>, later: int)
    requires id in db.rows && id !in PrunableIds(db, now) && db.rows[id].status.Pending? && db.rows[id].expiresAt < now
    requires Matches(w, db.rows[id], approval)
    ensures var (_, db') := Creation(db, id, draft, now);
            Approved(w, db', id, approval, data, raw, recheck, later) == (Err(ApprovalMismatch), db')
  {
  }

  /******* The handlers are runs of the protocol *******/

  /** No transaction is open that could block another. */
  predicate Quiet(s: State, t: nat) {
    s.admission.None? && s.locks == map[] && t !in s.active
  }

  lemma RunCons(w: World, s: State, step: Step, rest: seq<Step>)
    requires Enabled(w, s, step) && Possible(w, Apply(w, s, step), rest)
    ensures Possible(w, s, [step] + rest) && Run(w, s, [step] + rest) == Run(w, Apply(w, s, step), rest)
  {
    assert ([step] + rest)[1..] == rest;
  }

  /** The transaction as the lookup finds it, with the prunable rows locked. */
  lemma SoloLookUp(w: World, s: State, t: nat, product: string, payload: string, keyId: Digest, keyVersion: nat, key: PublicKey)
    returns (mid: State)
    requires Quiet(s, t) && Draft(w, product, payload, keyId, keyVersion, key).Some?
    requires var draft := Draft(w, product, payload, keyId, keyVersion, key).value; Creation(s.db, IdOf(w, draft), draft, s.now).0.Ok?
    ensures
      var draft := Draft(w, product, payload, keyId, keyVersion, key).value;
      && mid.db == s.db && t in mid.active && mid.locks.Keys == PrunableIds(s.db, s.now)
      && mid.active[t] == AfterLookUp(s.db, Pruned(IdOf(w, draft), draft, s.now, PrunableIds(s.db, s.now)))
      && forall rest: seq<Step> | Possible(w, mid, rest) ::
           var steps := [Submit(t, product, payload, keyId, keyVersion, key), Admit(t), Prune(t), LookUp(t)] + rest;
           Possible(w, s, steps) && Run(w, s, steps) == Run(w, mid, rest)
  {
    hide HasRoom;
    var submit := Submit(t, product, payload, keyId, keyVersion, key);
    var s1 := Apply(w, s, submit);
    var s2 := Apply(w, s1, Admit(t));
    var s3 := Apply(w, s2, Prune(t));
    mid := Apply(w, s3, LookUp(t));
    hide Apply, Enabled, Draft, Creation;
    forall rest: seq<Step> | Possible(w, mid, rest)
      ensures
        var steps := [submit, Admit(t), Prune(t), LookUp(t)] + rest;
        Possible(w, s, steps) && Run(w, s, steps) == Run(w, mid, rest)
    {
      RunCons(w, s3, LookUp(t), rest);
      RunCons(w, s2, Prune(t), [LookUp(t)] + rest);
      RunCons(w, s1, Admit(t), [Prune(t)] + ([LookUp(t)] + rest));
      RunCons(w, s, submit, [Admit(t)] + ([Prune(t)] + ([LookUp(t)] + rest)));
      assert [submit, Admit(t), Prune(t), LookUp(t)] + rest == [submit] + ([Admit(t)] + ([Prune(t)] + ([LookUp(t)] + rest)));
    }
  }

  /** What the rest of a creation does once it has looked its row up. */
  lemma SoloFinish(w: World, mid: State, t: nat, id: Digest, draft: Row, txNow: int) returns (rest: seq<Step>)
    requires t in mid.active && mid.locks.Keys == PrunableIds(mid.db, txNow)
    requires mid.active[t] == AfterLookUp(mid.db, Pruned(id, draft, txNow, PrunableIds(mid.db, txNow)))
    requires Creation(mid.db, id, draft, txNow).0.Ok?
    ensures Possible(w, mid, rest)
    ensures Run(w, mid, rest).db == Creation(mid.db, id, draft, txNow).1 && t !in Run(w, mid, rest).active
    ensures var reply := Creation(mid.db, id, draft, txNow).0.value;
            reply.signature.Some? ==> (id, reply.signature.value) in Run(w, mid, rest).returned
  {
    hide HasRoom, RequestDb;
    var commit := CommitRequest(t);
    if mid.active[t].Found? {
      var written := Apply(w, mid, Renew(t));
      rest := [Renew(t)] + ([commit] + []);
      RunCons(w, written, commit, []);
      RunCons(w, mid, Renew(t), [commit] + []);
    } else {
      rest := [commit] + [];
      RunCons(w, mid, commit, []);
    }
  }

  /** A submission that runs alone is a run of the protocol, with the specified tables and reply at its end. */
  lemma SubmissionIsARun(w: World, s: State, t: nat, product: string, payload: string, keyId: Digest, keyVersion: nat,
                         data: Option<KeyData>)
    returns (steps: seq<Step>)
    requires Quiet(s, t)
    requires Submission(w, s.db, product, payload, keyId, keyVersion, data, s.now).0.Ok?
    ensures Possible(w, s, steps)
    ensures
      var key := BackendKey(product, data, keyVersion).value;
      var (reply, db) := Submission(w, s.db, product, payload, keyId, keyVersion, data, s.now);
      && Run(w, s, steps).db == db && t !in Run(w, s, steps).active
      && var id := IdOf(w, Draft(w, product, payload, keyId, keyVersion, key).value);
         (reply.value.signature.Some? ==> (id, reply.value.signature.value) in Run(w, s, steps).returned)
  {
    hide Creation, Possible, Run, AfterLookUp, BackendKey;
    var key := BackendKey(product, data, keyVersion).value;
    var draft := Draft(w, product, payload, keyId, keyVersion, key).value;
    var mid := SoloLookUp(w, s, t, product, payload, keyId, keyVersion, key);
    var rest := SoloFinish(w, mid, t, IdOf(w, draft), draft, s.now);
    steps := [Submit(t, product, payload, keyId, keyVersion, key), Admit(t), Prune(t), LookUp(t)] + rest;
  }

  /** What the rest of an approval does once it holds the lock of its row. */
  lemma SoloSigning(w: World, s: State, t: nat, id: Digest, approval: Approval, data: Option<KeyData>, raw: Option<Bytes>,
                    recheck: Option<KeyData>)
    returns (rest: seq<Step>)
    requires id in s.db.rows && (s.db.rows[id].status.Signed? <==> s.db.rows[id].signature.Some?)
    requires Approved(w, s.db, id, approval, data, raw, recheck, s.now).0.Ok?
    requires
      var row := s.db.rows[id];
      t in s.active && s.active[t] == Locked(id, approval, s.now, row, BackendKey(row.product, data, row.keyVersion).value)
    ensures Possible(w, s, rest)
    ensures
      var (reply, db) := Approved(w, s.db, id, approval, data, raw, recheck, s.now);
      && Run(w, s, rest).db == db && t !in Run(w, s, rest).active
      && reply.value.signature.Some? && (id, reply.value.signature.value) in Run(w, s, rest).returned
  {
    hide SignatureOk, Matches, BackendKey;
    if s.db.rows[id].status.Signed? {
      rest := [ReturnStored(t)] + [];
      RunCons(w, s, ReturnStored(t), []);
    } else {
      var sign := SignWithBackend(t, raw.value);
      var signed := Apply(w, s, sign);
      rest := [sign] + ([CommitSignature(t)] + []);
      RunCons(w, signed, CommitSignature(t), []);
      RunCons(w, s, sign, [CommitSignature(t)] + []);
    }
  }

  /** So is an approval that runs alone. */
  lemma ApprovalIsARun(w: World, s: State, t: nat, id: Digest, approval: Approval, data: Option<KeyData>, raw: Option<Bytes>,
                       recheck: Option<KeyData>)
    returns (steps: seq<Step>)
    requires Quiet(s, t)
    requires id in s.db.rows && (s.db.rows[id].status.Signed? <==> s.db.rows[id].signature.Some?)
    requires Approved(w, s.db, id, approval, data, raw, recheck, s.now).0.Ok?
    ensures Possible(w, s, steps)
    ensures
      var (reply, db) := Approved(w, s.db, id, approval, data, raw, recheck, s.now);
      && Run(w, s, steps).db == db && t !in Run(w, s, steps).active
      && reply.value.signature.Some? && (id, reply.value.signature.value) in Run(w, s, steps).returned
  {
    hide SignatureOk, Matches, BackendKey, Possible, Run;
    var key := BackendKey(s.db.rows[id].product, data, s.db.rows[id].keyVersion).value;
    var begin, lock := BeginApproval(t, id, approval), LockRow(t, key);
    var s1 := Apply(w, s, begin);
    var s2 := Apply(w, s1, lock);
    var rest := SoloSigning(w, s2, t, id, approval, data, raw, recheck);
    RunCons(w, s1, lock, rest);
    RunCons(w, s, begin, [lock] + rest);
    steps := [begin] + ([lock] + rest);
  }
}
