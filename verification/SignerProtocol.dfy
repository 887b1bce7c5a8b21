/**
 The signer: replicas create, renew, prune and approve signing requests in one database.

 Creations hold an advisory lock from admission to the end of their transaction. An approval
 holds the lock of its row while the backend signs. Writes become visible when a transaction
 commits; a transaction that aborts or crashes releases its locks and leaves no trace in the
 database, even if the backend has already signed.
 */
module SignerProtocol {
  import opened Wrappers
  import opened Crypto
  import Base64Url

  const REQUEST_TTL := 86_400

  const RETENTION_LIMIT := 10_000

  /**
   The longest time from the start of a request's transaction to its admission lock: two days, the age at
   which a request can be pruned. The service itself bounds only the wait for the lock.
   */
  const ADMISSION_DELAY := 2 * REQUEST_TTL

  const MAX_KEY_VERSION := 0x7FFF_FFFF

  /** What parsing a payload for a product gives; a payload that does not parse has no facts. */
  datatype Facts = Facts(bytes: Bytes, sha256: string, sizeBytes: nat)

  datatype World = World(parse: (string, string) -> Option<Facts>, verify: Verifier)

  datatype Status = Pending | Signed

  datatype Row = Row(
    product: string, payload: string, payloadDigest: Digest, keyId: Digest, keyVersion: nat, publicKey: PublicKey,
    status: Status, signature: Option<string>, expiresAt: int)

  datatype Approval = Approval(payloadDigest: Digest, artifactSha256: string, artifactSizeBytes: nat, expiresAt: int)

  datatype Event = Requested | Renewed | ApprovedAndSigned

  datatype AuditRow = AuditRow(id: Digest, event: Event)

  /******* Decisions on rows, shared by every replica *******/

  /** The row of a valid submission, or None where the submission is refused before the database is touched. */
  function Draft(w: World, product: string, payload: string, keyId: Digest, keyVersion: nat, key: PublicKey): Option<Row> {
    var facts := w.parse(payload, product);
    if keyVersion == 0 || keyVersion > MAX_KEY_VERSION || facts.None? || Fingerprint(key) != keyId then None
    else Some(Row(product, payload, Sha256(facts.value.bytes), keyId, keyVersion, key, Pending, None, 0))
  }

  function IdOf(w: World, row: Row): Digest
    requires w.parse(row.payload, row.product).Some?
  {
    RequestId(row.product, row.keyId, w.parse(row.payload, row.product).value.bytes)
  }

  predicate Prunable(row: Row, now: int) {
    row.signature.None? && row.expiresAt < now - 86_400
  }

  function Fresh(row: Row, now: int): Row {
    row.(expiresAt := now + REQUEST_TTL)
  }

  /** The approval names exactly this manifest, artifact and generation of the request. */
  predicate Matches(w: World, row: Row, approval: Approval) {
    var facts := w.parse(row.payload, row.product);
    && facts.Some?
    && approval.payloadDigest == row.payloadDigest
    && approval.artifactSha256 == facts.value.sha256
    && approval.artifactSizeBytes == facts.value.sizeBytes
    && approval.expiresAt == row.expiresAt
  }

  /** The backend's answer is checked before it is used: 64 bytes that verify over the payload bytes. */
  predicate SignatureOk(w: World, row: Row, key: PublicKey, raw: Bytes) {
    var facts := w.parse(row.payload, row.product);
    facts.Some? && |raw| == 64 && w.verify(key, facts.value.bytes, raw)
  }

  function SignedRow(row: Row, raw: Bytes): Row {
    row.(status := Signed, signature := Some(Base64Url.Encode(raw)))
  }

  /******* Transactions and steps *******/

  datatype Transaction =
    | Submitted(id: Digest, draft: Row, txNow: int)
    | Admitted(id: Digest, draft: Row, txNow: int)
    | Pruned(id: Digest, draft: Row, txNow: int, pruned: set<Digest>)
    | Found(id: Digest, txNow: int, pruned: set<Digest>, seen: Row)
    | Writing(id: Digest, txNow: int, pruned: set<Digest>, event: Option<Event>, reply: Row)
    | Approving(id: Digest, approval: Approval, txNow: int)
    | Locked(id: Digest, approval: Approval, txNow: int, row: Row, key: PublicKey)
    | BackendSigned(id: Digest, approval: Approval, txNow: int, row: Row, key: PublicKey, raw: Bytes)

  /** The two tables, with one history value: the latest expiry ever committed for each id. */
  datatype Db = Db(rows: map<Digest, Row>, audit: seq<AuditRow>, generation: map<Digest, int>)

  datatype State = State(
    db: Db,
    now: int,
    admission: Option<nat>,
    locks: map<Digest, nat>,
    active: map<nat, Transaction>,
    returned: set<(Digest, string)>)  // history: every signature ever returned to a caller

  datatype Step =
    | Tick(time: int)
    | Submit(tx: nat, product: string, payload: string, keyId: Digest, keyVersion: nat, key: PublicKey)
    | Admit(tx: nat)
    | Prune(tx: nat)
    | LookUp(tx: nat)
    | Renew(tx: nat)
    | CommitRequest(tx: nat)
    | BeginApproval(tx: nat, id: Digest, approval: Approval)
    | LockRow(tx: nat, key: PublicKey)
    | ReturnStored(tx: nat)
    | SignWithBackend(tx: nat, raw: Bytes)
    | CommitSignature(tx: nat)
    | Abort(tx: nat)
    | Get(id: Digest)

  function PrunableIds(db: Db, txNow: int): set<Digest> {
    set id | id in db.rows && Prunable(db.rows[id], txNow)
  }

  /** The retention limit is not yet reached, not counting the rows that this creation prunes. */
  predicate HasRoom(db: Db, pruned: set<Digest>) {
    |db.rows.Keys - pruned| < RETENTION_LIMIT
  }

  /** What committing a creation does to the tables. */
  function RequestDb(db: Db, id: Digest, pruned: set<Digest>, event: Option<Event>, reply: Row): Db {
    if event.None? then db.(rows := db.rows - pruned)
    else Db((db.rows - pruned)[id := reply], db.audit + [AuditRow(id, event.value)], db.generation[id := reply.expiresAt])
  }

  /** What committing an approval does to the tables. */
  function SignedDb(db: Db, id: Digest, raw: Bytes): Db
    requires id in db.rows
  {
    db.(rows := db.rows[id := SignedRow(db.rows[id], raw)], audit := db.audit + [AuditRow(id, ApprovedAndSigned)])
  }

  predicate Enabled(w: World, s: State, step: Step) {
    match step
    case Tick(time) => s.now <= time
    case Submit(t, product, payload, keyId, keyVersion, key) =>
      t !in s.active && Draft(w, product, payload, keyId, keyVersion, key).Some?
    case Admit(t) =>
      t in s.active && s.active[t].Submitted? && s.admission.None? && s.now <= s.active[t].txNow + ADMISSION_DELAY
    case Prune(t) =>
      t in s.active && s.active[t].Admitted? &&
      forall id | id in PrunableIds(s.db, s.active[t].txNow) :: id !in s.locks
    case LookUp(t) =>
      t in s.active && s.active[t].Pruned? &&
      var tx := s.active[t];
      (tx.id in s.db.rows && tx.id !in tx.pruned) || HasRoom(s.db, tx.pruned)
    case Renew(t) =>
      t in s.active && s.active[t].Found? &&
      var tx := s.active[t];
      tx.id in s.db.rows && s.db.rows[tx.id].expiresAt < tx.txNow ==> tx.id !in s.locks
    case CommitRequest(t) => t in s.active && s.active[t].Writing?
    case BeginApproval(t, _, _) => t !in s.active
    case LockRow(t, key) =>
      t in s.active && s.active[t].Approving? &&
      var tx := s.active[t];
      && tx.id in s.db.rows && tx.id !in s.locks
      && Matches(w, s.db.rows[tx.id], tx.approval)
      && Fingerprint(key) == s.db.rows[tx.id].keyId
    case ReturnStored(t) => t in s.active && s.active[t].Locked? && s.active[t].row.status.Signed?
    case SignWithBackend(t, raw) =>
      t in s.active && s.active[t].Locked? &&
      var tx := s.active[t];
      tx.row.status.Pending? && tx.txNow <= tx.row.expiresAt && SignatureOk(w, tx.row, tx.key, raw)
    case CommitSignature(t) => t in s.active && s.active[t].BackendSigned? && s.active[t].id in s.db.rows
    case Abort(t) => t in s.active
    case Get(id) => id in s.db.rows
  }

  function Release(s: State, t: nat): State {
    s.(admission := if s.admission == Some(t) then None else s.admission,
       locks := map id | id in s.locks && s.locks[id] != t :: s.locks[id],
       active := s.active - {t})
  }

  function Continue(s: State, t: nat, tx: Transaction): State {
    s.(active := s.active[t := tx])
  }

  function Lock(s: State, t: nat, ids: set<Digest>): State {
    s.(locks := s.locks + map id | id in ids :: t)
  }

  function Return(s: State, id: Digest, row: Row): State {
    if row.signature.Some? then s.(returned := s.returned + {(id, row.signature.value)}) else s
  }

  /** The row of the request as the creation finds it decides how the creation goes on. */
  function AfterLookUp(db: Db, tx: Transaction): Transaction
    requires tx.Pruned?
  {
    if tx.id in db.rows && tx.id !in tx.pruned then
      if db.rows[tx.id].status.Pending? then Found(tx.id, tx.txNow, tx.pruned, db.rows[tx.id])
      else Writing(tx.id, tx.txNow, tx.pruned, None, db.rows[tx.id])
    else Writing(tx.id, tx.txNow, tx.pruned, Some(Requested), Fresh(tx.draft, tx.txNow))
  }

  function Apply(w: World, s: State, step: Step): State
    requires Enabled(w, s, step)
  {
    match step
    case Tick(time) => s.(now := time)
    case Submit(t, product, payload, keyId, keyVersion, key) =>
      var draft := Draft(w, product, payload, keyId, keyVersion, key).value;
      Continue(s, t, Submitted(IdOf(w, draft), draft, s.now))
    case Admit(t) =>
      Continue(s.(admission := Some(t)), t, Admitted(s.active[t].id, s.active[t].draft, s.active[t].txNow))
    case Prune(t) =>
      var tx, ids := s.active[t], PrunableIds(s.db, s.active[t].txNow);
      Continue(Lock(s, t, ids), t, Pruned(tx.id, tx.draft, tx.txNow, ids))
    case LookUp(t) => Continue(s, t, AfterLookUp(s.db, s.active[t]))
    case Renew(t) =>
      // The statement tests only the expiry of the row as it is now, which may have been signed meanwhile.
      var tx := s.active[t];
      if tx.id in s.db.rows && s.db.rows[tx.id].expiresAt < tx.txNow then
        Continue(Lock(s, t, {tx.id}), t,
                 Writing(tx.id, tx.txNow, tx.pruned, Some(Renewed), Fresh(s.db.rows[tx.id], tx.txNow)))
      else Continue(s, t, Writing(tx.id, tx.txNow, tx.pruned, None, tx.seen))
    case CommitRequest(t) =>
      var tx := s.active[t];
      Return(Release(s.(db := RequestDb(s.db, tx.id, tx.pruned, tx.event, tx.reply)), t), tx.id, tx.reply)
    case BeginApproval(t, id, approval) => Continue(s, t, Approving(id, approval, s.now))
    case LockRow(t, key) =>
      var tx := s.active[t];
      Continue(Lock(s, t, {tx.id}), t, Locked(tx.id, tx.approval, tx.txNow, s.db.rows[tx.id], key))
    case ReturnStored(t) => Return(Release(s, t), s.active[t].id, s.active[t].row)
    case SignWithBackend(t, raw) =>
      var tx := s.active[t];
      Continue(s, t, BackendSigned(tx.id, tx.approval, tx.txNow, tx.row, tx.key, raw))
    case CommitSignature(t) =>
      var tx := s.active[t];
      var db := SignedDb(s.db, tx.id, tx.raw);
      Return(Release(s.(db := db), t), tx.id, db.rows[tx.id])
    case Abort(t) => Release(s, t)
    case Get(id) => Return(s, id, s.db.rows[id])
  }

  predicate Initial(s: State) {
    s.db == Db(map[], [], map[]) && s.admission.None? && s.locks == map[] && s.active == map[] && s.returned == {}
  }

  /******* The tables *******/

  predicate RowOk(w: World, id: Digest, row: Row) {
    && w.parse(row.payload, row.product).Some?
    && id == IdOf(w, row)
    && row.payloadDigest == Sha256(w.parse(row.payload, row.product).value.bytes)
    && Fingerprint(row.publicKey) == row.keyId
    && 0 < row.keyVersion <= MAX_KEY_VERSION
    && (row.status.Signed? <==> row.signature.Some?)
  }

  /** The stored signature is a canonical text of 64 bytes that verify over the decoded payload. */
  predicate SignedOk(w: World, row: Row) {
    row.signature.Some? ==>
      && Base64Url.IsSignatureText(row.signature.value)
      && SignatureOk(w, row, row.publicKey, Base64Url.Decode(row.signature.value))
  }

  function SignEvents(audit: seq<AuditRow>, id: Digest): nat {
    if audit == [] then 0
    else (if audit[|audit| - 1] == AuditRow(id, ApprovedAndSigned) then 1 else 0) + SignEvents(audit[..|audit| - 1], id)
  }

  /** Exactly one approval is on record for a signed request, and none for any other id. */
  predicate AuditOk(db: Db, id: Digest) {
    SignEvents(db.audit, id) == if id in db.rows && db.rows[id].status.Signed? then 1 else 0
  }

  /** The expiry recorded for an id is that of its row, or long past when the row is gone. */
  predicate GenerationOk(db: Db, now: int, id: Digest) {
    && (id in db.rows ==> id in db.generation && db.generation[id] == db.rows[id].expiresAt)
    && (id in db.generation && id !in db.rows ==> db.generation[id] < now - 86_400)
  }

  predicate RowsOk(w: World, db: Db) {
    forall id | id in db.rows :: RowOk(w, id, db.rows[id]) && SignedOk(w, db.rows[id])
  }

  ghost predicate DbOk(w: World, db: Db, now: int) {
    && RowsOk(w, db)
    && |db.rows| <= RETENTION_LIMIT
    && (forall id :: GenerationOk(db, now, id))
    && (forall id :: AuditOk(db, id))
  }

  /******* The transactions *******/

  predicate Holds(s: State, t: nat, id: Digest) {
    id in s.locks && s.locks[id] == t && id in s.db.rows
  }

  /** The admission lock, the rows about to be pruned, and time enough for any new expiry to be the latest. */
  ghost predicate HoldsAdmission(s: State, t: nat, txNow: int, pruned: set<Digest>) {
    && s.admission == Some(t)
    && (forall id | id in pruned :: Holds(s, t, id) && Prunable(s.db.rows[id], txNow))
    && (forall id | id in s.db.generation && id !in s.db.rows :: s.db.generation[id] < txNow + REQUEST_TTL)
  }

  ghost predicate WritingOk(w: World, s: State, t: nat, tx: Transaction)
    requires tx.Writing?
  {
    var id, event, reply := tx.id, tx.event, tx.reply;
    && HoldsAdmission(s, t, tx.txNow, tx.pruned)
    && (event.None? ==> id in s.db.rows && id !in tx.pruned &&
                        (reply.signature.Some? ==> s.db.rows[id].signature == reply.signature))
    && (event == Some(Requested) ==>
          && RowOk(w, id, reply) && reply.status.Pending? && reply.expiresAt == tx.txNow + REQUEST_TTL
          && (id !in s.db.rows || id in tx.pruned)
          && HasRoom(s.db, tx.pruned))
    && (event == Some(Renewed) ==>
          && Holds(s, t, id) && id !in tx.pruned && s.db.rows[id].expiresAt < tx.txNow
          && reply == Fresh(s.db.rows[id], tx.txNow))
    && (event.None? || event == Some(Requested) || event == Some(Renewed))
  }

  ghost predicate LockedOk(w: World, s: State, t: nat, id: Digest, approval: Approval, row: Row, key: PublicKey) {
    Holds(s, t, id) && s.db.rows[id] == row && Matches(w, row, approval) && Fingerprint(key) == row.keyId
  }

  ghost predicate TransactionOk(w: World, s: State, t: nat, tx: Transaction) {
    && tx.txNow <= s.now
    && match tx {
         case Submitted(id, draft, _) => RowOk(w, id, draft) && draft.status.Pending?
         case Admitted(id, draft, txNow) => RowOk(w, id, draft) && draft.status.Pending? && HoldsAdmission(s, t, txNow, {})
         case Pruned(id, draft, txNow, pruned) =>
           RowOk(w, id, draft) && draft.status.Pending? && HoldsAdmission(s, t, txNow, pruned)
         case Found(id, txNow, pruned, seen) =>
           HoldsAdmission(s, t, txNow, pruned) && id in s.db.rows && id !in pruned && seen.signature.None?
         case Writing(_, _, _, _, _) => WritingOk(w, s, t, tx)
         case Approving(_, _, _) => true
         case Locked(id, approval, _, row, key) => LockedOk(w, s, t, id, approval, row, key)
         case BackendSigned(id, approval, txNow, row, key, raw) =>
           && LockedOk(w, s, t, id, approval, row, key)
           && row.status.Pending? && txNow <= row.expiresAt && SignatureOk(w, row, key, raw)
       }
  }

  ghost predicate AllTransactionsOk(w: World, s: State) {
    forall t | t in s.active :: TransactionOk(w, s, t, s.active[t])
  }

  predicate LocksOk(s: State) {
    && (s.admission.Some? ==> s.admission.value in s.active)
    && forall id | id in s.locks :: id in s.db.rows && s.locks[id] in s.active
  }

  predicate ReturnedOk(s: State) {
    forall r | r in s.returned :: r.0 in s.db.rows && s.db.rows[r.0].signature == Some(r.1)
  }

  ghost predicate Inv(w: World, s: State) {
    DbOk(w, s.db, s.now) && AllTransactionsOk(w, s) && LocksOk(s) && ReturnedOk(s)
  }

  /******* The tables after a commit *******/

  lemma FingerprintInjective(k1: PublicKey, k2: PublicKey)
    requires Fingerprint(k1) == Fingerprint(k2)
    ensures k1 == k2
  {
  }

  lemma SignedRowOk(w: World, id: Digest, row: Row, key: PublicKey, raw: Bytes)
    requires RowOk(w, id, row) && Fingerprint(key) == row.keyId && SignatureOk(w, row, key, raw)
    ensures RowOk(w, id, SignedRow(row, raw)) && SignedOk(w, SignedRow(row, raw))
  {
    Base64Url.EncodeDecode(raw);
    FingerprintInjective(key, row.publicKey);
  }

  lemma OneMoreAudit(audit: seq<AuditRow>, row: AuditRow, id: Digest)
    ensures SignEvents(audit + [row], id) == SignEvents(audit, id) + if row == AuditRow(id, ApprovedAndSigned) then 1 else 0
  {
  }

  lemma RequestKeepsSize(w: World, s: State, t: nat, tx: Transaction)
    requires tx.Writing? && WritingOk(w, s, t, tx) && |s.db.rows| <= RETENTION_LIMIT
    ensures |RequestDb(s.db, tx.id, tx.pruned, tx.event, tx.reply).rows| <= RETENTION_LIMIT
  {
  }

  lemma RequestKeepsGeneration(w: World, s: State, t: nat, tx: Transaction, id: Digest)
    requires tx.Writing? && tx.txNow <= s.now && WritingOk(w, s, t, tx) && GenerationOk(s.db, s.now, id)
    ensures GenerationOk(RequestDb(s.db, tx.id, tx.pruned, tx.event, tx.reply), s.now, id)
  {
  }

  lemma SignedAfterRequest(w: World, s: State, t: nat, tx: Transaction, id: Digest)
    requires tx.Writing? && WritingOk(w, s, t, tx) && RowsOk(w, s.db)
    ensures
      var rows, rows' := s.db.rows, RequestDb(s.db, tx.id, tx.pruned, tx.event, tx.reply).rows;
      id in rows' && rows'[id].status.Signed? <==> id in rows && rows[id].status.Signed?
  {
    hide HasRoom, SignedOk, IdOf;
    if id in tx.pruned {
      assert Holds(s, t, id) && RowOk(w, id, s.db.rows[id]);
    }
  }

  lemma RequestKeepsAudit(w: World, s: State, t: nat, tx: Transaction, id: Digest)
    requires tx.Writing? && WritingOk(w, s, t, tx) && RowsOk(w, s.db) && AuditOk(s.db, id)
    ensures AuditOk(RequestDb(s.db, tx.id, tx.pruned, tx.event, tx.reply), id)
  {
    SignedAfterRequest(w, s, t, tx, id);
    hide HasRoom, SignEvents, HoldsAdmission, RowsOk, RowOk, Holds;
    if tx.event.Some? {
      OneMoreAudit(s.db.audit, AuditRow(tx.id, tx.event.value), id);
    }
  }

  lemma RequestKeepsRows(w: World, s: State, t: nat, tx: Transaction)
    requires tx.Writing? && WritingOk(w, s, t, tx) && RowsOk(w, s.db)
    ensures RowsOk(w, RequestDb(s.db, tx.id, tx.pruned, tx.event, tx.reply))
  {
    hide IdOf, SignatureOk, Fresh, HoldsAdmission;
    var rows' := RequestDb(s.db, tx.id, tx.pruned, tx.event, tx.reply).rows;
    forall id | id in rows'
      ensures RowOk(w, id, rows'[id]) && SignedOk(w, rows'[id])
    {
      if id in s.db.rows {
        assert RowOk(w, id, s.db.rows[id]) && SignedOk(w, s.db.rows[id]);
        RenewedRowOk(w, id, s.db.rows[id], tx.txNow);
      }
    }
  }

  lemma RenewedRowOk(w: World, id: Digest, row: Row, now: int)
    requires RowOk(w, id, row) && SignedOk(w, row)
    ensures RowOk(w, id, Fresh(row, now)) && SignedOk(w, Fresh(row, now))
  {
  }

  lemma RequestKeepsDbOk(w: World, s: State, t: nat, tx: Transaction)
    requires DbOk(w, s.db, s.now) && tx.Writing? && tx.txNow <= s.now && WritingOk(w, s, t, tx)
    ensures DbOk(w, RequestDb(s.db, tx.id, tx.pruned, tx.event, tx.reply), s.now)
  {
    hide RowsOk, GenerationOk, AuditOk, RequestDb, WritingOk;
    RequestKeepsRows(w, s, t, tx);
    RequestKeepsSize(w, s, t, tx);
    forall id {
      RequestKeepsGeneration(w, s, t, tx, id);
    }
    forall id {
      RequestKeepsAudit(w, s, t, tx, id);
    }
  }

  lemma SigningKeepsDbOk(w: World, s: State, t: nat, id: Digest, approval: Approval, row: Row, key: PublicKey, raw: Bytes)
    requires DbOk(w, s.db, s.now) && LockedOk(w, s, t, id, approval, row, key)
    requires row.status.Pending? && SignatureOk(w, row, key, raw)
    ensures DbOk(w, SignedDb(s.db, id, raw), s.now)
  {
    var db, db' := s.db, SignedDb(s.db, id, raw);
    SignedRowOk(w, id, row, key, raw);
    hide Matches, SignatureOk, RowOk, SignedOk;
    assert db'.rows.Keys == db.rows.Keys;
    forall x
      ensures GenerationOk(db', s.now, x) && AuditOk(db', x)
    {
      assert GenerationOk(db, s.now, x) && AuditOk(db, x);
      OneMoreAudit(db.audit, AuditRow(id, ApprovedAndSigned), x);
    }
  }

  /******* Transactions do not disturb each other *******/

  /** What one transaction relies on across a step of another. */
  ghost predicate Undisturbed(s: State, s': State, t: nat) {
    && s.now <= s'.now
    && (s.admission == Some(t) ==>
          && s'.admission == Some(t)
          && s'.db.rows.Keys == s.db.rows.Keys
          && s'.db.generation == s.db.generation
          && forall id | id in s.db.rows && s.db.rows[id].signature.Some? :: s'.db.rows[id].signature == s.db.rows[id].signature)
    && (forall id | Holds(s, t, id) :: Holds(s', t, id) && s'.db.rows[id] == s.db.rows[id])
  }

  lemma UndisturbedStaysOk(w: World, s: State, s': State, t: nat, tx: Transaction)
    requires TransactionOk(w, s, t, tx) && Undisturbed(s, s', t)
    ensures TransactionOk(w, s', t, tx)
  {
  }

  predicate Commits(step: Step) {
    step.CommitRequest? || step.CommitSignature?
  }

  lemma QuietStep(w: World, s: State, step: Step)
    requires Enabled(w, s, step) && !Commits(step)
    ensures var s' := Apply(w, s, step); s'.db == s.db && s.now <= s'.now
  {
  }

  /** The transaction that takes a step, if any. */
  function Actor(step: Step): Option<nat> {
    match step
    case Tick(_) => None
    case Get(_) => None
    case Submit(t, _, _, _, _, _) => Some(t)
    case Admit(t) => Some(t)
    case Prune(t) => Some(t)
    case LookUp(t) => Some(t)
    case Renew(t) => Some(t)
    case CommitRequest(t) => Some(t)
    case BeginApproval(t, _, _) => Some(t)
    case LockRow(t, _) => Some(t)
    case ReturnStored(t) => Some(t)
    case SignWithBackend(t, _) => Some(t)
    case CommitSignature(t) => Some(t)
    case Abort(t) => Some(t)
  }

  lemma StepKeepsOthersLocks(w: World, s: State, step: Step, t: nat)
    requires Enabled(w, s, step) && Actor(step) != Some(t)
    ensures var s' := Apply(w, s, step);
            && (s.admission == Some(t) ==> s'.admission == Some(t))
            && (forall id | id in s.locks && s.locks[id] == t :: id in s'.locks && s'.locks[id] == t)
            && (t in s'.active <==> t in s.active)
            && (t in s.active ==> s'.active[t] == s.active[t])
  {
    hide Draft, IdOf, Matches, SignatureOk, AfterLookUp, Fresh, RequestDb, SignedDb, Prunable;
  }

  lemma RequestDisturbsNoOther(w: World, s: State, actor: nat, tx: Transaction, t: nat, id: Digest)
    requires tx.Writing? && WritingOk(w, s, actor, tx) && t != actor && Holds(s, t, id)
    ensures var rows' := RequestDb(s.db, tx.id, tx.pruned, tx.event, tx.reply).rows;
            id in rows' && rows'[id] == s.db.rows[id]
  {
  }

  lemma SigningDisturbsNoOther(w: World, s: State, actor: nat, id: Digest, row: Row, raw: Bytes, t: nat)
    requires RowsOk(w, s.db) && Holds(s, actor, id) && s.db.rows[id] == row && row.status.Pending? && t != actor
    ensures var db' := SignedDb(s.db, id, raw);
            && db'.rows.Keys == s.db.rows.Keys && db'.generation == s.db.generation
            && (forall x | x in s.db.rows && s.db.rows[x].signature.Some? :: db'.rows[x].signature == s.db.rows[x].signature)
            && (forall x | Holds(s, t, x) :: x in db'.rows && db'.rows[x] == s.db.rows[x])
  {
  }

  lemma CommitDb(w: World, s: State, step: Step)
    requires Enabled(w, s, step) && Commits(step)
    ensures var tx, db' := s.active[step.tx], Apply(w, s, step).db;
            && (step.CommitRequest? ==> db' == RequestDb(s.db, tx.id, tx.pruned, tx.event, tx.reply))
            && (step.CommitSignature? ==> db' == SignedDb(s.db, tx.id, tx.raw))
            && Apply(w, s, step).now == s.now
  {
  }

  lemma OneTransactionOk(w: World, s: State, t: nat)
    requires Inv(w, s) && t in s.active
    ensures TransactionOk(w, s, t, s.active[t])
  {
  }

  lemma CommitUndisturbing(w: World, s: State, step: Step, t: nat)
    requires Inv(w, s) && Enabled(w, s, step) && Commits(step) && t in s.active && Actor(step) != Some(t)
    ensures Undisturbed(s, Apply(w, s, step), t)
  {
    hide HasRoom, DbOk, AllTransactionsOk, ReturnedOk;
    var s', tx := Apply(w, s, step), s.active[step.tx];
    StepKeepsOthersLocks(w, s, step, t);
    OneTransactionOk(w, s, step.tx);
    CommitDb(w, s, step);
    InvMeansRowsOk(w, s);
    hide Apply, Enabled, RequestDb, SignedDb, SignatureOk, Matches, RowOk, Fresh;
    if step.CommitRequest? {
      forall id | Holds(s, t, id)
        ensures Holds(s', t, id) && s'.db.rows[id] == s.db.rows[id]
      {
        RequestDisturbsNoOther(w, s, step.tx, tx, t, id);
      }
    } else {
      SigningDisturbsNoOther(w, s, step.tx, tx.id, tx.row, tx.raw, t);
    }
  }

  lemma OthersUndisturbed(w: World, s: State, step: Step, t: nat)
    requires Inv(w, s) && Enabled(w, s, step) && t in s.active && Actor(step) != Some(t)
    ensures Undisturbed(s, Apply(w, s, step), t)
  {
    if Commits(step) {
      CommitUndisturbing(w, s, step, t);
    } else {
      hide Apply, Enabled, Inv;
      StepKeepsOthersLocks(w, s, step, t);
      QuietStep(w, s, step);
    }
  }

  lemma InvMeansRowsOk(w: World, s: State)
    requires Inv(w, s)
    ensures RowsOk(w, s.db)
  {
  }

  /******* Every step keeps the invariant *******/

  lemma SubmittedOk(w: World, s: State, step: Step)
    requires Enabled(w, s, step) && step.Submit?
    ensures TransactionOk(w, Apply(w, s, step), step.tx, Apply(w, s, step).active[step.tx])
  {
  }

  /** Ids without a row have long passed expiries, so that any expiry granted under the lock is later. */
  lemma AdmissionGrantsLaterExpiries(w: World, s: State, t: nat)
    requires Inv(w, s) && Enabled(w, s, Admit(t))
    ensures forall id | id in s.db.generation && id !in s.db.rows :: s.db.generation[id] < s.active[t].txNow + REQUEST_TTL
  {
    hide RowsOk, AuditOk, AllTransactionsOk, ReturnedOk, LocksOk;
    forall id | id in s.db.generation && id !in s.db.rows
      ensures s.db.generation[id] < s.now - 86_400
    {
      assert GenerationOk(s.db, s.now, id);
    }
  }

  lemma AdmitOk(w: World, s: State, t: nat)
    requires Inv(w, s) && Enabled(w, s, Admit(t))
    ensures var s' := Apply(w, s, Admit(t)); TransactionOk(w, s', t, s'.active[t])
  {
    AdmissionGrantsLaterExpiries(w, s, t);
    OneTransactionOk(w, s, t);
    hide DbOk, AllTransactionsOk, ReturnedOk, LocksOk, RowOk;
  }

  lemma PruneOk(w: World, s: State, t: nat)
    requires Inv(w, s) && Enabled(w, s, Prune(t))
    ensures var s' := Apply(w, s, Prune(t)); TransactionOk(w, s', t, s'.active[t])
  {
  }

  lemma AfterLookUpOk(w: World, s: State, t: nat, tx: Transaction)
    requires tx.Pruned? && TransactionOk(w, s, t, tx) && RowsOk(w, s.db)
    requires (tx.id in s.db.rows && tx.id !in tx.pruned) || HasRoom(s.db, tx.pruned)
    ensures TransactionOk(w, s, t, AfterLookUp(s.db, tx))
  {
    hide HasRoom, SignedOk, LockedOk, SignatureOk, HoldsAdmission;
    if tx.id in s.db.rows {
      assert RowOk(w, tx.id, s.db.rows[tx.id]);
    }
  }

  lemma LookUpOk(w: World, s: State, t: nat)
    requires Inv(w, s) && Enabled(w, s, LookUp(t))
    ensures var s' := Apply(w, s, LookUp(t)); TransactionOk(w, s', t, s'.active[t])
  {
    hide HasRoom, DbOk, ReturnedOk, LocksOk, TransactionOk, AfterLookUp;
    InvMeansRowsOk(w, s);
    OneTransactionOk(w, s, t);
    AfterLookUpOk(w, s, t, s.active[t]);
    UndisturbedStaysOk(w, s, Apply(w, s, LookUp(t)), t, AfterLookUp(s.db, s.active[t]));
  }

  lemma RenewOk(w: World, s: State, t: nat)
    requires Inv(w, s) && Enabled(w, s, Renew(t))
    ensures var s' := Apply(w, s, Renew(t)); TransactionOk(w, s', t, s'.active[t])
  {
    hide HasRoom, DbOk, ReturnedOk, LocksOk, RowOk, Fresh, LockedOk, SignatureOk;
    OneTransactionOk(w, s, t);
    hide AllTransactionsOk;
  }

  lemma ApprovalStepOk(w: World, s: State, step: Step)
    requires Inv(w, s) && Enabled(w, s, step)
    requires step.BeginApproval? || step.LockRow? || step.SignWithBackend?
    ensures TransactionOk(w, Apply(w, s, step), step.tx, Apply(w, s, step).active[step.tx])
  {
  }

  lemma TransactionsAfter(w: World, s: State, step: Step)
    requires Inv(w, s) && Enabled(w, s, step)
    ensures AllTransactionsOk(w, Apply(w, s, step))
  {
    var s' := Apply(w, s, step);
    forall t | t in s'.active
      ensures TransactionOk(w, s', t, s'.active[t])
    {
      hide Inv, TransactionOk, Apply, Enabled;
      if Actor(step) != Some(t) {
        StepKeepsOthersLocks(w, s, step, t);
        OneTransactionOk(w, s, t);
        OthersUndisturbed(w, s, step, t);
        UndisturbedStaysOk(w, s, s', t, s.active[t]);
      } else {
        ActorOk(w, s, step);
      }
    }
  }

  lemma ActorOk(w: World, s: State, step: Step)
    requires Inv(w, s) && Enabled(w, s, step) && Actor(step).Some?
    ensures var s' := Apply(w, s, step); Actor(step).value in s'.active ==>
              TransactionOk(w, s', Actor(step).value, s'.active[Actor(step).value])
  {
    match step
    case Submit(_, _, _, _, _, _) => SubmittedOk(w, s, step);
    case BeginApproval(_, _, _) => ApprovalStepOk(w, s, step);
    case LockRow(_, _) => ApprovalStepOk(w, s, step);
    case SignWithBackend(_, _) => ApprovalStepOk(w, s, step);
    case Admit(t) => AdmitOk(w, s, t);
    case Prune(t) => PruneOk(w, s, t);
    case LookUp(t) => LookUpOk(w, s, t);
    case Renew(t) => RenewOk(w, s, t);
    case _ => EndedSteps(w, s, step);
    hide Inv, TransactionOk, Apply, Enabled;
  }

  lemma EndedSteps(w: World, s: State, step: Step)
    requires Enabled(w, s, step)
    requires step.CommitRequest? || step.CommitSignature? || step.ReturnStored? || step.Abort?
    ensures step.tx !in Apply(w, s, step).active
  {
  }

  lemma DbAfter(w: World, s: State, step: Step)
    requires Inv(w, s) && Enabled(w, s, step)
    ensures DbOk(w, Apply(w, s, step).db, Apply(w, s, step).now)
  {
    if Commits(step) {
      var tx := s.active[step.tx];
      OneTransactionOk(w, s, step.tx);
      hide RowsOk, GenerationOk, AuditOk, WritingOk, LockedOk, RequestDb, SignedDb;
      if step.CommitRequest? {
        RequestKeepsDbOk(w, s, step.tx, tx);
      } else {
        SigningKeepsDbOk(w, s, step.tx, tx.id, tx.approval, tx.row, tx.key, tx.raw);
      }
    } else {
      hide RowsOk, AuditOk, Apply, Enabled;
      QuietStep(w, s, step);
      forall id
        ensures GenerationOk(s.db, Apply(w, s, step).now, id)
      {
        assert GenerationOk(s.db, s.now, id);
      }
    }
  }

  lemma RequestFreezesSigned(w: World, s: State, t: nat, tx: Transaction, id: Digest)
    requires tx.Writing? && WritingOk(w, s, t, tx) && RowsOk(w, s.db)
    requires id in s.db.rows && s.db.rows[id].status.Signed?
    ensures var rows' := RequestDb(s.db, tx.id, tx.pruned, tx.event, tx.reply).rows;
            id in rows' && rows'[id].(expiresAt := s.db.rows[id].expiresAt) == s.db.rows[id]
  {
    hide HasRoom, SignedOk, IdOf;
    assert RowOk(w, id, s.db.rows[id]);
    hide RowOk, RowsOk;
  }

  /** A signed row never changes except for its expiry, and it is never pruned. */
  lemma SignedRowIsFrozen(w: World, s: State, step: Step, id: Digest)
    requires Inv(w, s) && Enabled(w, s, step)
    requires id in s.db.rows && s.db.rows[id].status.Signed?
    ensures var rows' := Apply(w, s, step).db.rows;
            id in rows' && rows'[id].(expiresAt := s.db.rows[id].expiresAt) == s.db.rows[id]
  {
    hide Inv, RequestDb, RowsOk, RowOk, SignatureOk, Matches, HasRoom, Draft;
    if Commits(step) {
      var tx := s.active[step.tx];
      CommitDb(w, s, step);
      OneTransactionOk(w, s, step.tx);
      InvMeansRowsOk(w, s);
      hide Apply;
      if step.CommitRequest? {
        RequestFreezesSigned(w, s, step.tx, tx, id);
      }
    } else {
      hide Apply, Enabled;
      QuietStep(w, s, step);
    }
  }

  lemma LocksAfterCommit(w: World, s: State, step: Step)
    requires Inv(w, s) && Enabled(w, s, step) && Commits(step)
    ensures LocksOk(Apply(w, s, step))
  {
    hide HasRoom, DbOk, AllTransactionsOk, ReturnedOk, RowOk, Matches, SignatureOk, Fresh, SignedRow;
    OneTransactionOk(w, s, step.tx);
    CommitDb(w, s, step);
  }

  /** A step other than a commit locks existing rows for its own transaction, or releases what that one held. */
  lemma QuietLocks(w: World, s: State, step: Step, id: Digest)
    requires Enabled(w, s, step) && !Commits(step) && id in Apply(w, s, step).locks
    ensures var s' := Apply(w, s, step);
            && (id in s.locks || id in s.db.rows)
            && (Actor(step) == Some(s'.locks[id]) ==> s'.locks[id] in s'.active)
            && (Actor(step) != Some(s'.locks[id]) ==> id in s.locks && s'.locks[id] == s.locks[id])
  {
    hide HasRoom, Draft, IdOf, Matches, SignatureOk, AfterLookUp, Fresh, Prunable;
  }

  lemma QuietAdmission(w: World, s: State, step: Step)
    requires Enabled(w, s, step) && !Commits(step)
    ensures var s' := Apply(w, s, step);
            s'.admission.Some? ==> s'.admission == s.admission || Actor(step) == s'.admission
    ensures var s' := Apply(w, s, step);
            s'.admission.Some? && Actor(step) == s'.admission ==> s'.admission.value in s'.active
  {
  }

  lemma LocksAfter(w: World, s: State, step: Step)
    requires Inv(w, s) && Enabled(w, s, step)
    ensures LocksOk(Apply(w, s, step))
  {
    if Commits(step) {
      LocksAfterCommit(w, s, step);
    } else {
      hide Apply, Enabled, DbOk, AllTransactionsOk, ReturnedOk;
      var s' := Apply(w, s, step);
      QuietStep(w, s, step);
      QuietAdmission(w, s, step);
      if s'.admission.Some? && Actor(step) != s'.admission {
        StepKeepsOthersLocks(w, s, step, s'.admission.value);
      }
      forall id | id in s'.locks
        ensures id in s'.db.rows && s'.locks[id] in s'.active
      {
        QuietLocks(w, s, step, id);
        if Actor(step) != Some(s'.locks[id]) {
          StepKeepsOthersLocks(w, s, step, s'.locks[id]);
        }
      }
    }
  }

  /** What a step returns to a caller is a signature that is stored by the end of the step. */
  lemma ReturnedByStep(w: World, s: State, step: Step, r: (Digest, string))
    requires Inv(w, s) && Enabled(w, s, step) && r in Apply(w, s, step).returned && r !in s.returned
    ensures var rows' := Apply(w, s, step).db.rows; r.0 in rows' && rows'[r.0].signature == Some(r.1)
  {
    hide DbOk, RowOk, Matches, SignatureOk, Draft, IdOf, PrunableIds, AfterLookUp;
    if step.CommitRequest? || step.CommitSignature? || step.ReturnStored? {
      OneTransactionOk(w, s, step.tx);
    }
  }

  lemma ReturnedAfter(w: World, s: State, step: Step)
    requires Inv(w, s) && Enabled(w, s, step)
    ensures ReturnedOk(Apply(w, s, step))
  {
    var s' := Apply(w, s, step);
    forall r | r in s'.returned
      ensures r.0 in s'.db.rows && s'.db.rows[r.0].signature == Some(r.1)
    {
      hide Apply, Enabled, AllTransactionsOk, GenerationOk, AuditOk, SignedOk;
      if r in s.returned {
        assert RowOk(w, r.0, s.db.rows[r.0]);
        SignedRowIsFrozen(w, s, step, r.0);
      } else {
        ReturnedByStep(w, s, step, r);
      }
    }
  }

  lemma StepKeepsInv(w: World, s: State, step: Step)
    requires Inv(w, s) && Enabled(w, s, step)
    ensures Inv(w, Apply(w, s, step))
  {
    DbAfter(w, s, step);
    TransactionsAfter(w, s, step);
    LocksAfter(w, s, step);
    ReturnedAfter(w, s, step);
    hide Apply, Enabled, DbOk, AllTransactionsOk, LocksOk, ReturnedOk;
  }

  ghost predicate Possible(w: World, s: State, steps: seq<Step>)
    decreases |steps|
  {
    steps == [] || (Enabled(w, s, steps[0]) && Possible(w, Apply(w, s, steps[0]), steps[1..]))
  }

  ghost function Run(w: World, s: State, steps: seq<Step>): State
    requires Possible(w, s, steps)
    decreases |steps|
  {
    if steps == [] then s else Run(w, Apply(w, s, steps[0]), steps[1..])
  }

  lemma InitialOk(w: World, s: State)
    requires Initial(s)
    ensures Inv(w, s)
  {
  }

  /** In every run of any number of replicas, with crashes anywhere, the tables stay sound. */
  lemma {:induction false} RunKeepsInv(w: World, s: State, steps: seq<Step>)
    requires Inv(w, s) && Possible(w, s, steps)
    ensures Inv(w, Run(w, s, steps))
    decreases |steps|
  {
    hide Inv, Enabled, Apply;
    if steps != [] {
      StepKeepsInv(w, s, steps[0]);
      RunKeepsInv(w, Apply(w, s, steps[0]), steps[1..]);
    }
  }

  /** Once signed, a row keeps its product, payload, key and signature through every later run. */
  lemma {:induction false} SignedForever(w: World, s: State, steps: seq<Step>, id: Digest)
    requires Inv(w, s) && Possible(w, s, steps) && id in s.db.rows && s.db.rows[id].status.Signed?
    ensures var rows' := Run(w, s, steps).db.rows;
            id in rows' && rows'[id].(expiresAt := s.db.rows[id].expiresAt) == s.db.rows[id]
    decreases |steps|
  {
    hide Inv, Enabled, Apply;
    if steps != [] {
      StepKeepsInv(w, s, steps[0]);
      SignedRowIsFrozen(w, s, steps[0], id);
      SignedForever(w, Apply(w, s, steps[0]), steps[1..], id);
    }
  }

  /**
   What holds of every reachable database: a signed row's signature verifies over its decoded
   payload under its key, one approval is on record for it and none for any other id, the table
   is bounded, and every signature that a caller ever received is the stored one.
   */
  lemma SignerPromise(w: World, s: State, steps: seq<Step>, id: Digest)
    requires Initial(s) && Possible(w, s, steps)
    ensures var final := Run(w, s, steps);
            && |final.db.rows| <= 10_000
            && SignEvents(final.db.audit, id) == (if id in final.db.rows && final.db.rows[id].status.Signed? then 1 else 0)
            && (id in final.db.rows && final.db.rows[id].status.Signed? ==>
                  var row := final.db.rows[id];
                  && row.signature.Some? && Base64Url.IsSignatureText(row.signature.value)
                  && w.parse(row.payload, row.product).Some?
                  && w.verify(row.publicKey, w.parse(row.payload, row.product).value.bytes, Base64Url.Decode(row.signature.value)))
            && (forall signature | (id, signature) in final.returned ::
                  id in final.db.rows && final.db.rows[id].signature == Some(signature))
  {
    InitialOk(w, s);
    RunKeepsInv(w, s, steps);
    var final := Run(w, s, steps);
    assert AuditOk(final.db, id);
    if id in final.db.rows {
      StoredRowOk(w, final, id);
    }
  }

  /******* Generations and approvals *******/

  lemma RequestMovesGenerationOn(w: World, s: State, t: nat, tx: Transaction, id: Digest)
    requires tx.Writing? && WritingOk(w, s, t, tx) && GenerationOk(s.db, s.now, id) && id in s.db.generation
    ensures var generation' := RequestDb(s.db, tx.id, tx.pruned, tx.event, tx.reply).generation;
            && id in generation' && s.db.generation[id] <= generation'[id]
            && (tx.event.Some? && id == tx.id ==> s.db.generation[id] < generation'[id])
  {
  }

  /**
   The expiry of a request never goes back, through renewals and through pruning and resubmission,
   and every commit that writes the request moves it strictly on.
   */
  lemma ExpiryMovesOn(w: World, s: State, step: Step, id: Digest)
    requires Inv(w, s) && Enabled(w, s, step) && id in s.db.generation
    ensures var generation' := Apply(w, s, step).db.generation;
            && id in generation' && s.db.generation[id] <= generation'[id]
            && (step.CommitRequest? && s.active[step.tx].event.Some? && s.active[step.tx].id == id ==>
                  s.db.generation[id] < generation'[id])
  {
    if Commits(step) {
      var tx := s.active[step.tx];
      OneTransactionOk(w, s, step.tx);
      CommitDb(w, s, step);
      assert GenerationOk(s.db, s.now, id);
      hide Apply, Inv, RequestDb, WritingOk, GenerationOk;
      if step.CommitRequest? {
        RequestMovesGenerationOn(w, s, step.tx, tx, id);
      }
    } else {
      hide Inv, Apply, Enabled;
      QuietStep(w, s, step);
    }
  }

  lemma RequestNeverSigns(w: World, s: State, t: nat, tx: Transaction, id: Digest)
    requires tx.Writing? && WritingOk(w, s, t, tx) && id in s.db.rows && s.db.rows[id].signature.None?
    ensures var rows' := RequestDb(s.db, tx.id, tx.pruned, tx.event, tx.reply).rows;
            id in rows' ==> rows'[id].signature.None?
  {
  }

  /** A signature appears in a row only when an approval of that row commits. */
  lemma OnlyApprovalsSign(w: World, s: State, step: Step, id: Digest)
    requires Inv(w, s) && Enabled(w, s, step)
    requires id in s.db.rows && s.db.rows[id].signature.None?
    requires id in Apply(w, s, step).db.rows && Apply(w, s, step).db.rows[id].signature.Some?
    ensures step.CommitSignature? && step.tx in s.active && s.active[step.tx].BackendSigned? && s.active[step.tx].id == id
  {
    hide Inv, RequestDb, WritingOk, LockedOk, SignatureOk, HasRoom, Matches, Draft;
    if Commits(step) {
      OneTransactionOk(w, s, step.tx);
      CommitDb(w, s, step);
      hide Apply;
      if step.CommitRequest? {
        RequestNeverSigns(w, s, step.tx, s.active[step.tx], id);
      }
    } else {
      hide Apply, Enabled;
      QuietStep(w, s, step);
    }
  }

  /**
   The approval that commits a first signature names the hash of the payload's bytes, the artifact hash and size
   in the manifest, and the current, unexpired expiry of the request.
   */
  lemma CommittingApprovalIsExact(w: World, s: State, t: nat)
    requires t in s.active && s.active[t].BackendSigned? && s.active[t].id in s.db.rows && Inv(w, s)
    ensures var tx := s.active[t];
            var row, approval := s.db.rows[tx.id], tx.approval;
            var facts := w.parse(row.payload, row.product);
            && row.signature.None?
            && facts.Some?
            && approval.payloadDigest == Sha256(facts.value.bytes)
            && approval.artifactSha256 == facts.value.sha256
            && approval.artifactSizeBytes == facts.value.sizeBytes
            && approval.expiresAt == row.expiresAt
            && tx.txNow <= row.expiresAt
            && tx.id in s.db.generation && row.expiresAt == s.db.generation[tx.id]
  {
    hide Inv, SignatureOk, IdOf, RowsOk;
    OneTransactionOk(w, s, t);
    StoredRowOk(w, s, s.active[t].id);
  }

  lemma StoredRowOk(w: World, s: State, id: Digest)
    requires Inv(w, s) && id in s.db.rows
    ensures RowOk(w, id, s.db.rows[id]) && SignedOk(w, s.db.rows[id]) && GenerationOk(s.db, s.now, id)
  {
  }

  lemma SigningIsCurrent(w: World, s: State, t: nat)
    requires Inv(w, s) && Enabled(w, s, CommitSignature(t))
    ensures var tx := s.active[t];
            tx.id in s.db.generation && s.db.generation[tx.id] == tx.approval.expiresAt
  {
    OneTransactionOk(w, s, t);
    assert GenerationOk(s.db, s.now, s.active[t].id);
  }

  /** An approval prepared for one generation of a request can never sign once the request has moved on. */
  lemma {:induction false} StaleApprovalNeverSigns(w: World, s: State, steps: seq<Step>, t: nat)
    requires Inv(w, s) && Possible(w, s, steps)
    requires Enabled(w, Run(w, s, steps), CommitSignature(t))
    ensures var tx := Run(w, s, steps).active[t];
            tx.id in s.db.generation ==> s.db.generation[tx.id] <= tx.approval.expiresAt
    decreases |steps|
  {
    if steps == [] {
      SigningIsCurrent(w, s, t);
    } else {
      hide Inv, Apply, Enabled;
      var s' := Apply(w, s, steps[0]);
      assert Run(w, s, steps) == Run(w, s', steps[1..]);
      StepKeepsInv(w, s, steps[0]);
      StaleApprovalNeverSigns(w, s', steps[1..], t);
      hide Run, Possible;
      var id := Run(w, s, steps).active[t].id;
      if id in s.db.generation {
        ExpiryMovesOn(w, s, steps[0], id);
      }
    }
  }
}
