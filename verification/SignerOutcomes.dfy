/**
 What the signer's handlers decide, in terms of the stored columns, the request and the backend's answers alone,
 and the approvals that stand behind every signature of a run.
 */
module SignerOutcomes {
  import opened Wrappers
  import opened Crypto
  import opened SignerProtocol
  import opened SignerService
  import Base64Url
  import SlugAllocator

  /******* Approvals *******/

  /** The backend answers with the row's key, under the custody policy and with the version enabled. */
  predicate ServesKey(data: Option<KeyData>, product: string, version: nat, key: PublicKey) {
    && SlugAllocator.ValidSlug(product)
    && data.Some?
    && data.value.kind == "ed25519"
    && !data.value.derived && !data.value.exportable && !data.value.plaintextBackup
    && data.value.latest.Some?
    && 0 < version <= data.value.latest.value
    && data.value.minEncryption <= version
    && version in data.value.keys && data.value.keys[version] == key
  }

  /** The approval names the payload's hash, the artifact's hash and size, and the row's expiry. */
  predicate NamesExactly(w: World, row: Row, approval: Approval) {
    var facts := w.parse(row.payload, row.product);
    && facts.Some?
    && approval == Approval(Sha256(facts.value.bytes), facts.value.sha256, facts.value.sizeBytes, row.expiresAt)
  }

  lemma KeyIsServed(data: Option<KeyData>, product: string, version: nat, key: PublicKey)
    ensures
      var answer := BackendKey(product, data, version);
      answer.Ok? && Fingerprint(answer.value) == Fingerprint(key) <==> ServesKey(data, product, version, key)
  {
    var answer := BackendKey(product, data, version);
    if answer.Ok? && Fingerprint(answer.value) == Fingerprint(key) {
      FingerprintInjective(answer.value, key);
    }
  }

  /**
   An approval succeeds if and only if it names the request exactly, the backend serves the row's key, and the
   request is signed already or unexpired with a verifying signature and the key still served. It then returns the
   stored signature, or stores the new one and records it once; a refusal changes nothing.
   */
  lemma ApprovalOutcome(w: World, db: Db, id: Digest, approval: Approval, data: Option<KeyData>, raw: Option<Bytes>,
                        recheck: Option<KeyData>, now: int)
    requires RowsOk(w, db)
    ensures
      var (r, db') := Approved(w, db, id, approval, data, raw, recheck, now);
      && (r.Ok? <==>
            id in db.rows &&
            var row := db.rows[id];
            && NamesExactly(w, row, approval)
            && ServesKey(data, row.product, row.keyVersion, row.publicKey)
            && (row.signature.Some?
                || (&& now <= row.expiresAt
                    && raw.Some? && |raw.value| == 64
                    && w.verify(row.publicKey, w.parse(row.payload, row.product).value.bytes, raw.value)
                    && ServesKey(recheck, row.product, row.keyVersion, row.publicKey))))
      && (r.Err? ==> db' == db)
      && (r.Ok? && db.rows[id].signature.Some? ==> r.value == db.rows[id] && db' == db)
      && (r.Ok? && db.rows[id].signature.None? ==>
            && r.value == db.rows[id].(status := Signed, signature := Some(Base64Url.Encode(raw.value)))
            && db' == Db(db.rows[id := r.value], db.audit + [AuditRow(id, ApprovedAndSigned)], db.generation))
  {
    hide BackendKey, ServesKey;
    if id in db.rows {
      var row := db.rows[id];
      assert RowOk(w, id, row);
      KeyIsServed(data, row.product, row.keyVersion, row.publicKey);
      KeyIsServed(recheck, row.product, row.keyVersion, row.publicKey);
      if BackendKey(row.product, data, row.keyVersion).Ok? {
        if Fingerprint(BackendKey(row.product, data, row.keyVersion).value) == row.keyId {
          FingerprintInjective(BackendKey(row.product, data, row.keyVersion).value, row.publicKey);
        }
      }
    }
  }

  /** An approval that differs from the stored request in any one value is refused and leaves the tables alone. */
  lemma DifferingApprovalIsRefused(w: World, db: Db, id: Digest, approval: Approval, data: Option<KeyData>,
                                   raw: Option<Bytes>, recheck: Option<KeyData>, now: int)
    requires RowsOk(w, db) && id in db.rows && w.parse(db.rows[id].payload, db.rows[id].product).Some?
    requires
      var row := db.rows[id];
      var facts := w.parse(row.payload, row.product).value;
      || approval.payloadDigest != Sha256(facts.bytes)
      || approval.artifactSha256 != facts.sha256
      || approval.artifactSizeBytes != facts.sizeBytes
      || approval.expiresAt != row.expiresAt
    ensures Approved(w, db, id, approval, data, raw, recheck, now) == (Err(ApprovalMismatch), db)
  {
    assert RowOk(w, id, db.rows[id]);
  }

  /******* The approvals behind the signatures of a run *******/

  /** The approvals that callers sent. */
  function Sent(steps: seq<Step>): set<(Digest, Approval)> {
    if steps == [] then {} else SentBy(steps[0]) + Sent(steps[1..])
  }

  function SentBy(step: Step): set<(Digest, Approval)> {
    if step.BeginApproval? then {(step.id, step.approval)} else {}
  }

  /** The approval names the row's payload and artifact, and an expiry that the row has or had. */
  predicate StandsBehind(w: World, row: Row, approval: Approval) {
    var facts := w.parse(row.payload, row.product);
    && facts.Some?
    && approval.payloadDigest == Sha256(facts.value.bytes)
    && approval.artifactSha256 == facts.value.sha256
    && approval.artifactSizeBytes == facts.value.sizeBytes
    && approval.expiresAt <= row.expiresAt
  }

  predicate IsApproval(tx: Transaction) {
    tx.Approving? || tx.Locked? || tx.BackendSigned?
  }

  ghost predicate HasApproval(w: World, id: Digest, row: Row, sent: set<(Digest, Approval)>) {
    exists approval :: (id, approval) in sent && StandsBehind(w, row, approval)
  }

  ghost predicate Accounted(w: World, s: State, sent: set<(Digest, Approval)>) {
    && (forall t | t in s.active && IsApproval(s.active[t]) :: (s.active[t].id, s.active[t].approval) in sent)
    && (forall id | id in s.db.rows && s.db.rows[id].signature.Some? :: HasApproval(w, id, s.db.rows[id], sent))
  }

  lemma ApprovalsAreCarried(w: World, s: State, step: Step, t: nat)
    requires Enabled(w, s, step) && t in Apply(w, s, step).active && IsApproval(Apply(w, s, step).active[t])
    ensures
      var tx' := Apply(w, s, step).active[t];
      || (t in s.active && IsApproval(s.active[t]) && s.active[t].id == tx'.id && s.active[t].approval == tx'.approval)
      || (tx'.id, tx'.approval) in SentBy(step)
  {
    hide Draft, Matches, SignatureOk, PrunableIds, HasRoom, RequestDb, SignedDb;
  }

  /** A signed row was signed before the step, or the step commits an approval of it. */
  lemma SignedBefore(w: World, s: State, step: Step, id: Digest)
    requires Inv(w, s) && Enabled(w, s, step)
    requires id in Apply(w, s, step).db.rows && Apply(w, s, step).db.rows[id].signature.Some?
    ensures id in s.db.rows
    ensures s.db.rows[id].signature.None? ==> step.CommitSignature? && step.tx in s.active && s.active[step.tx].BackendSigned?
                                              && s.active[step.tx].id == id
  {
    hide Inv, RequestDb, HasRoom, Matches, SignatureOk, Draft;
    if Commits(step) {
      OneTransactionOk(w, s, step.tx);
      CommitDb(w, s, step);
      hide Apply;
      if step.CommitRequest? {
        InsertedIsUnsigned(w, s, step.tx, s.active[step.tx], id);
      }
    } else {
      QuietStep(w, s, step);
      hide Apply, Enabled;
    }
    if s.db.rows[id].signature.None? {
      OnlyApprovalsSign(w, s, step, id);
    }
  }

  lemma InsertedIsUnsigned(w: World, s: State, t: nat, tx: Transaction, id: Digest)
    requires tx.Writing? && WritingOk(w, s, t, tx)
    requires id in RequestDb(s.db, tx.id, tx.pruned, tx.event, tx.reply).rows
    requires RequestDb(s.db, tx.id, tx.pruned, tx.event, tx.reply).rows[id].signature.Some?
    ensures id in s.db.rows
  {
    hide HasRoom, IdOf;
  }

  lemma SignatureStaysAccounted(w: World, s: State, step: Step, id: Digest, sent: set<(Digest, Approval)>)
    requires Inv(w, s) && Enabled(w, s, step) && Accounted(w, s, sent)
    requires id in Apply(w, s, step).db.rows && Apply(w, s, step).db.rows[id].signature.Some?
    ensures HasApproval(w, id, Apply(w, s, step).db.rows[id], sent + SentBy(step))
  {
    var row' := Apply(w, s, step).db.rows[id];
    StepKeepsInv(w, s, step);
    SignedBefore(w, s, step, id);
    StoredRowOk(w, s, id);
    StoredRowOk(w, Apply(w, s, step), id);
    if s.db.rows[id].signature.Some? {
      SignedRowIsFrozen(w, s, step, id);
      ExpiryMovesOn(w, s, step, id);
      hide Inv, Apply, Enabled;
      var approval :| (id, approval) in sent && StandsBehind(w, s.db.rows[id], approval);
      assert StandsBehind(w, row', approval);
    } else {
      CommittingApprovalIsExact(w, s, step.tx);
      CommitDb(w, s, step);
      hide Inv, Apply, Enabled;
      assert StandsBehind(w, row', s.active[step.tx].approval);
    }
  }

  lemma StepKeepsAccounted(w: World, s: State, step: Step, sent: set<(Digest, Approval)>)
    requires Inv(w, s) && Enabled(w, s, step) && Accounted(w, s, sent)
    ensures Accounted(w, Apply(w, s, step), sent + SentBy(step))
  {
    var s' := Apply(w, s, step);
    hide Apply, Enabled, Inv, HasApproval, SentBy;
    forall t | t in s'.active && IsApproval(s'.active[t])
      ensures (s'.active[t].id, s'.active[t].approval) in sent + SentBy(step)
    {
      ApprovalsAreCarried(w, s, step, t);
    }
    forall id | id in s'.db.rows && s'.db.rows[id].signature.Some?
      ensures HasApproval(w, id, s'.db.rows[id], sent + SentBy(step))
    {
      SignatureStaysAccounted(w, s, step, id, sent);
    }
  }

  lemma {:induction false} RunKeepsAccounted(w: World, s: State, steps: seq<Step>, sent: set<(Digest, Approval)>)
    requires Inv(w, s) && Possible(w, s, steps) && Accounted(w, s, sent)
    ensures Accounted(w, Run(w, s, steps), sent + Sent(steps))
    decreases |steps|
  {
    hide Inv, Enabled, Apply, Accounted, SentBy;
    if steps == [] {
      assert sent + {} == sent;
    } else {
      StepKeepsInv(w, s, steps[0]);
      StepKeepsAccounted(w, s, steps[0], sent);
      RunKeepsAccounted(w, Apply(w, s, steps[0]), steps[1..], sent + SentBy(steps[0]));
      assert sent + SentBy(steps[0]) + Sent(steps[1..]) == sent + Sent(steps);
    }
  }

  /**
   In every run from an empty database, behind each signed row stands an approval that a caller sent in that run: for
   this request, with the hash of its payload, the artifact hash and size of its manifest, and an expiry of the request.
   */
  lemma SignedMeansApproved(w: World, s: State, steps: seq<Step>, id: Digest)
    requires Initial(s) && Possible(w, s, steps)
    requires id in Run(w, s, steps).db.rows && Run(w, s, steps).db.rows[id].status.Signed?
    ensures exists approval :: (id, approval) in Sent(steps) && StandsBehind(w, Run(w, s, steps).db.rows[id], approval)
  {
    InitialOk(w, s);
    RunKeepsInv(w, s, steps);
    StoredRowOk(w, Run(w, s, steps), id);
    hide Inv, Run, Possible;
    RunKeepsAccounted(w, s, steps, {});
    assert {} + Sent(steps) == Sent(steps);
    assert HasApproval(w, id, Run(w, s, steps).db.rows[id], Sent(steps));
  }

  /******* Submissions *******/

  /** A row that a creation may remove: unsigned, and a day past its expiry. */
  predicate LongExpired(row: Row, now: int) {
    row.signature.None? && row.expiresAt + 86_400 < now
  }

  /** The request under its identifier, unless it is removed. */
  predicate IsKept(db: Db, id: Digest, now: int) {
    id in db.rows && !LongExpired(db.rows[id], now)
  }

  /**
   A submission is accepted if and only if its version is a positive 32-bit number, its payload parses, the backend
   serves the named key, and the request is there already or fewer than 10,000 requests are kept.
   */
  lemma SubmissionOutcome(w: World, db: Db, product: string, payload: string, keyVersion: nat, key: PublicKey,
                          data: Option<KeyData>, now: int)
    ensures
      var r := Submission(w, db, product, payload, Fingerprint(key), keyVersion, data, now).0;
      r.Ok? <==>
      && 0 < keyVersion <= 2_147_483_647
      && w.parse(payload, product).Some?
      && ServesKey(data, product, keyVersion, key)
      && (var id := RequestId(product, Fingerprint(key), w.parse(payload, product).value.bytes);
          IsKept(db, id, now) || |set other | other in db.rows && IsKept(db, other, now)| < 10_000)
  {
    KeyIsServed(data, product, keyVersion, key);
    assert (set other | other in db.rows && IsKept(db, other, now)) == db.rows.Keys - PrunableIds(db, now);
    hide BackendKey, ServesKey;
  }

  /**
   An accepted submission removes exactly the unsigned requests that expired more than a day ago, and no other. The
   request it returns was there, or gets a day from now: as the renewal of a pending request that had expired, or as a
   new pending one.
   */
  lemma SubmissionEffect(w: World, db: Db, product: string, payload: string, keyVersion: nat, key: PublicKey,
                         data: Option<KeyData>, now: int, other: Digest)
    requires Submission(w, db, product, payload, Fingerprint(key), keyVersion, data, now).0.Ok?
    ensures
      var (r, db') := Submission(w, db, product, payload, Fingerprint(key), keyVersion, data, now);
      var facts := w.parse(payload, product);
      facts.Some? &&
      var id := RequestId(product, Fingerprint(key), facts.value.bytes);
      && id in db'.rows && r.value == db'.rows[id]
      && (other != id ==> (other in db'.rows <==> IsKept(db, other, now))
                          && (other in db'.rows ==> db'.rows[other] == db.rows[other]))
      && (!IsKept(db, id, now) ==>
            && r.value == Row(product, payload, Sha256(facts.value.bytes), Fingerprint(key), keyVersion, key, Pending, None, now + 86_400)
            && db'.audit == db.audit + [AuditRow(id, Requested)])
      && (IsKept(db, id, now) && db.rows[id].status.Pending? && db.rows[id].expiresAt < now ==>
            r.value == db.rows[id].(expiresAt := now + 86_400) && db'.audit == db.audit + [AuditRow(id, Renewed)])
      && (IsKept(db, id, now) && (db.rows[id].status.Signed? || now <= db.rows[id].expiresAt) ==>
            r.value == db.rows[id] && db'.audit == db.audit)
  {
    KeyIsServed(data, product, keyVersion, key);
    FingerprintInjective(key, BackendKey(product, data, keyVersion).value);
    hide BackendKey, ServesKey, HasRoom;
  }
}
