/**
 The upload reservation protocol of the artifact service.

 A run interleaves any number of upload attempts. Each attempt cleans up expired
 reservations, reserves quota, stores its object, and swaps its reservation for an artifact
 row; a failure is compensated, and an attempt may die between any two steps. The admission's
 statements are separate steps under the lock on the provider's row; every other database
 transaction is one atomic step.
 */
module UploadProtocol {
  import opened Wrappers
  import opened Sums

  type Id = nat

  type ProviderId = nat

  const RESERVATION_TTL := 7 * 24 * 60 * 60 * 1000  // seven days in milliseconds

  const CLEANUP_BATCH := 100

  datatype Provider = Provider(isActive: bool, quotaBytes: int)

  datatype Artifact = Artifact(provider: ProviderId, sizeBytes: nat)

  datatype Reservation = Reservation(provider: ProviderId, sizeBytes: nat, expiresAt: int)

  /** The object stored under the key artifacts/<id>/payload of one provider. */
  datatype ObjectKey = Payload(provider: ProviderId, id: Id)

  datatype Db = Db(
    providers: map<ProviderId, Provider>,
    artifacts: map<Id, Artifact>,
    reservations: map<Id, Reservation>,
    objects: set<ObjectKey>)

  /******* Quota *******/

  function ArtifactSizes(db: Db, p: ProviderId): map<Id, nat> {
    map id | id in db.artifacts && db.artifacts[id].provider == p :: db.artifacts[id].sizeBytes
  }

  function LiveReservationSizes(db: Db, p: ProviderId, now: int): map<Id, nat> {
    map id | id in db.reservations && db.reservations[id].provider == p && db.reservations[id].expiresAt > now ::
      db.reservations[id].sizeBytes
  }

  /** Bytes charged to a provider: its artifacts and its unexpired reservations. */
  ghost function Usage(db: Db, p: ProviderId, now: int): nat {
    Total(ArtifactSizes(db, p)) + Total(LiveReservationSizes(db, p, now))
  }

  datatype AdmissionError = ProviderMissing | ProviderInactive | QuotaExceeded | FileTooLarge

  /** The admission test, on the two sums that the transaction read. */
  function Admission(db: Db, p: ProviderId, sizeBytes: nat, usage: nat): Result<(), AdmissionError> {
    if p !in db.providers then Err(ProviderMissing)
    else if !db.providers[p].isActive then Err(ProviderInactive)
    else
      var quota := db.providers[p].quotaBytes;
      if quota > 0 && usage * 100 >= 95 * quota then Err(QuotaExceeded)
      else if quota > 0 && usage + sizeBytes > quota then Err(FileTooLarge)
      else Ok(())
  }

  /******* Effects of the atomic steps on the database and the object stores *******/

  function Expired(db: Db, p: ProviderId, cutoff: int): (ids: set<Id>) {
    set id | id in db.reservations && db.reservations[id].provider == p && db.reservations[id].expiresAt <= cutoff
  }

  function Reserve(db: Db, id: Id, p: ProviderId, sizeBytes: nat, now: int): Db {
    db.(reservations := db.reservations[id := Reservation(p, sizeBytes, now + RESERVATION_TTL)])
  }

  function PutObject(db: Db, key: ObjectKey): Db {
    db.(objects := db.objects + {key})
  }

  function DeleteObject(db: Db, key: ObjectKey): Db {
    db.(objects := db.objects - {key})
  }

  /** The commit that turns a reservation into an artifact row. */
  function Promote(db: Db, id: Id, artifact: Artifact): Db {
    db.(artifacts := db.artifacts[id := artifact], reservations := db.reservations - {id})
  }

  function Release(db: Db, id: Id): Db {
    db.(reservations := db.reservations - {id})
  }

  function DeleteExpired(db: Db, p: ProviderId, ids: set<Id>, cutoff: int): Db {
    db.(reservations := db.reservations - (ids * Expired(db, p, cutoff)))
  }

  function SetOf<T>(s: seq<T>): set<T> {
    set x | x in s
  }

  /** At most a hundred of the provider's expired reservations, the oldest ones first. */
  ghost predicate IsBatch(db: Db, p: ProviderId, cutoff: int, batch: seq<Id>) {
    var expired := Expired(db, p, cutoff);
    && (forall i | 0 <= i < |batch| :: batch[i] in expired)
    && (forall i, j | 0 <= i < j < |batch| :: batch[i] != batch[j])
    && (forall i, j | 0 <= i < j < |batch| :: db.reservations[batch[i]].expiresAt <= db.reservations[batch[j]].expiresAt)
    && (forall x, y | x in expired && x !in batch && y in batch ::
          db.reservations[y].expiresAt <= db.reservations[x].expiresAt)
    && |batch| == if |expired| < CLEANUP_BATCH then |expired| else CLEANUP_BATCH
  }

  /******* Attempts and steps *******/

  datatype Stage =
    | Cleaning(cutoff: int)
    | Deleting(cutoff: int, batch: seq<Id>, next: nat)
    | Reserving
    | Locked
    | Timed(at: int)
    | Summed(at: int, artifacts: nat)
    | Counted(at: int, usage: nat)
    | Uploading(deadline: int)
    | Committing(deadline: int)
    | Compensating(deadline: int)
    | Releasing(deadline: int)

  /** An admission holds the row of its provider FOR UPDATE from its first statement to its end. */
  predicate Admitting(stage: Stage) {
    stage.Locked? || stage.Timed? || stage.Summed? || stage.Counted?
  }

  datatype Attempt = Attempt(provider: ProviderId, sizeBytes: nat, stage: Stage)

  datatype State = State(db: Db, now: int, issued: set<Id>, attempts: map<Id, Attempt>)

  datatype Step =
    | Tick(time: int)
    | Start(id: Id, provider: ProviderId, sizeBytes: nat)
    | QueryExpired(id: Id, batch: seq<Id>)
    | DeleteStale(id: Id)
    | DeleteRows(id: Id)
    | LockProvider(id: Id)
    | TakeTime(id: Id)
    | SumArtifacts(id: Id)
    | SumReservations(id: Id)
    | ReserveQuota(id: Id)
    | Upload(id: Id)
    | UploadFails(id: Id)
    | Commit(id: Id)
    | CommitFails(id: Id)
    | Compensate(id: Id)
    | DropReservation(id: Id)
    | Die(id: Id)

  predicate HoldsLock(s: State, id: Id, p: ProviderId) {
    id in s.attempts && s.attempts[id].provider == p && Admitting(s.attempts[id].stage)
  }

  predicate Unlocked(s: State, p: ProviderId) {
    forall id | id in s.attempts :: !HoldsLock(s, id, p)
  }

  /**
   The insert of a commit locks the provider's row too, through the foreign key of the artifact row:
   like an admission it waits for the admission that holds the row.
   */
  ghost predicate Enabled(s: State, step: Step) {
    match step
    case Tick(time) => s.now <= time
    case Start(id, p, size) => id !in s.issued && size > 0
    case QueryExpired(id, batch) =>
      id in s.attempts && s.attempts[id].stage.Cleaning? && IsBatch(s.db, s.attempts[id].provider, s.attempts[id].stage.cutoff, batch)
    case DeleteStale(id) =>
      id in s.attempts && s.attempts[id].stage.Deleting? && s.attempts[id].stage.next < |s.attempts[id].stage.batch|
    case DeleteRows(id) =>
      id in s.attempts && s.attempts[id].stage.Deleting? && s.attempts[id].stage.next == |s.attempts[id].stage.batch|
    case LockProvider(id) =>
      id in s.attempts && s.attempts[id].stage.Reserving? && s.attempts[id].provider in s.db.providers
      && Unlocked(s, s.attempts[id].provider)
    case TakeTime(id) =>
      id in s.attempts && s.attempts[id].stage.Locked? && s.attempts[id].provider in s.db.providers
      && s.db.providers[s.attempts[id].provider].isActive
    case SumArtifacts(id) => id in s.attempts && s.attempts[id].stage.Timed?
    case SumReservations(id) => id in s.attempts && s.attempts[id].stage.Summed?
    case ReserveQuota(id) =>
      id in s.attempts && s.attempts[id].stage.Counted?
      && Admission(s.db, s.attempts[id].provider, s.attempts[id].sizeBytes, s.attempts[id].stage.usage).Ok?
    case Upload(id) => id in s.attempts && s.attempts[id].stage.Uploading?
    case UploadFails(id) => id in s.attempts && s.attempts[id].stage.Uploading?
    case Commit(id) => id in s.attempts && s.attempts[id].stage.Committing? && Unlocked(s, s.attempts[id].provider)
    case CommitFails(id) => id in s.attempts && s.attempts[id].stage.Committing?
    case Compensate(id) => id in s.attempts && s.attempts[id].stage.Compensating?
    case DropReservation(id) => id in s.attempts && s.attempts[id].stage.Releasing?
    case Die(id) => id in s.attempts
  }

  /** An attempt writes its reservation, stores its object and commits only before the reservation expires. */
  predicate Timely(s: State, step: Step) {
    match step
    case ReserveQuota(id) =>
      id in s.attempts && s.attempts[id].stage.Counted? ==> s.now < s.attempts[id].stage.at + RESERVATION_TTL
    case Upload(id) => id in s.attempts && s.attempts[id].stage.Uploading? ==> s.now < s.attempts[id].stage.deadline
    case Commit(id) => id in s.attempts && s.attempts[id].stage.Committing? ==> s.now < s.attempts[id].stage.deadline
    case _ => true
  }

  function Advance(s: State, id: Id, stage: Stage): State
    requires id in s.attempts
  {
    s.(attempts := s.attempts[id := s.attempts[id].(stage := stage)])
  }

  function End(s: State, id: Id): State {
    s.(attempts := s.attempts - {id})
  }

  ghost function Apply(s: State, step: Step): State
    requires Enabled(s, step)
  {
    match step
    case Tick(time) => s.(now := time)
    case Start(id, p, size) =>
      s.(issued := s.issued + {id}, attempts := s.attempts[id := Attempt(p, size, Cleaning(s.now))])
    case QueryExpired(id, batch) =>
      Advance(s, id, if batch == [] then Reserving else Deleting(s.attempts[id].stage.cutoff, batch, 0))
    case DeleteStale(id) =>
      var a := s.attempts[id];
      Advance(s.(db := DeleteObject(s.db, Payload(a.provider, a.stage.batch[a.stage.next]))), id,
              a.stage.(next := a.stage.next + 1))
    case DeleteRows(id) =>
      var a := s.attempts[id];
      Advance(s.(db := DeleteExpired(s.db, a.provider, SetOf(a.stage.batch), a.stage.cutoff)), id,
              Cleaning(a.stage.cutoff))
    case LockProvider(id) => Advance(s, id, Locked)
    case TakeTime(id) => Advance(s, id, Timed(s.now))
    case SumArtifacts(id) =>
      var a := s.attempts[id];
      Advance(s, id, Summed(a.stage.at, Total(ArtifactSizes(s.db, a.provider))))
    case SumReservations(id) =>
      var a := s.attempts[id];
      Advance(s, id, Counted(a.stage.at, a.stage.artifacts + Total(LiveReservationSizes(s.db, a.provider, a.stage.at))))
    case ReserveQuota(id) =>
      var a := s.attempts[id];
      Advance(s.(db := Reserve(s.db, id, a.provider, a.sizeBytes, a.stage.at)), id, Uploading(a.stage.at + RESERVATION_TTL))
    case Upload(id) =>
      var a := s.attempts[id];
      Advance(s.(db := PutObject(s.db, Payload(a.provider, id))), id, Committing(a.stage.deadline))
    case UploadFails(id) => Advance(s, id, Releasing(s.attempts[id].stage.deadline))
    case Commit(id) =>
      var a := s.attempts[id];
      End(s.(db := Promote(s.db, id, Artifact(a.provider, a.sizeBytes))), id)
    case CommitFails(id) => Advance(s, id, Compensating(s.attempts[id].stage.deadline))
    case Compensate(id) =>
      var a := s.attempts[id];
      Advance(s.(db := DeleteObject(s.db, Payload(a.provider, id))), id, Releasing(a.stage.deadline))
    case DropReservation(id) => End(s.(db := Release(s.db, id)), id)
    case Die(id) => End(s, id)
  }

  ghost predicate Possible(s: State, steps: seq<Step>)
    decreases |steps|
  {
    steps == [] || (Enabled(s, steps[0]) && Possible(Apply(s, steps[0]), steps[1..]))
  }

  ghost function Run(s: State, steps: seq<Step>): State
    requires Possible(s, steps)
    decreases |steps|
  {
    if steps == [] then s else Run(Apply(s, steps[0]), steps[1..])
  }

  ghost predicate AllTimely(s: State, steps: seq<Step>)
    requires Possible(s, steps)
    decreases |steps|
  {
    steps == [] || (Timely(s, steps[0]) && AllTimely(Apply(s, steps[0]), steps[1..]))
  }

  predicate Initial(s: State) {
    && s.db.artifacts == map[]
    && s.db.reservations == map[]
    && s.db.objects == {}
    && s.attempts == map[]
  }

  /******* No stored object without a row, no artifact without its object *******/

  ghost predicate Consistent(db: Db) {
    && db.artifacts.Keys !! db.reservations.Keys
    && (forall id | id in db.artifacts :: Payload(db.artifacts[id].provider, id) in db.objects)
    && (forall key | key in db.objects ::
          || (key.id in db.artifacts && db.artifacts[key.id].provider == key.provider)
          || (key.id in db.reservations && db.reservations[key.id].provider == key.provider))
  }

  /******* What every run keeps of the rows *******/

  /** The reservation of a running attempt, if it is still there, is the one the attempt made. */
  predicate OwnReservation(db: Db, id: Id, a: Attempt, deadline: int) {
    id in db.reservations ==> db.reservations[id] == Reservation(a.provider, a.sizeBytes, deadline)
  }

  predicate RowOk(s: State, id: Id)
    requires id in s.attempts
  {
    var a := s.attempts[id];
    && id in s.issued
    && id !in s.db.artifacts
    && match a.stage {
         case Cleaning(cutoff) => id !in s.db.reservations && cutoff <= s.now
         case Deleting(cutoff, _, _) => id !in s.db.reservations && cutoff <= s.now
         case Uploading(d) => OwnReservation(s.db, id, a, d) && (s.now < d ==> id in s.db.reservations)
         case Committing(d) => OwnReservation(s.db, id, a, d) && (s.now < d ==> id in s.db.reservations)
         case Compensating(d) => OwnReservation(s.db, id, a, d)
         case Releasing(d) => OwnReservation(s.db, id, a, d)
         case _ => id !in s.db.reservations
       }
  }

  predicate RowsOk(s: State) {
    && s.db.artifacts.Keys !! s.db.reservations.Keys
    && s.db.artifacts.Keys <= s.issued
    && s.db.reservations.Keys <= s.issued
    && (forall id | id in s.attempts :: RowOk(s, id))
  }

  /** The attempt that takes a step; a tick belongs to none. */
  function Actor(step: Step): Option<Id> {
    match step
    case Tick(_) => None
    case _ => Some(step.id)
  }

  /** The acting attempt's rows fit its new stage. */
  lemma ActorKeepsRowOk(s: State, step: Step)
    requires RowsOk(s) && Enabled(s, step) && Actor(step).Some? && Actor(step).value in Apply(s, step).attempts
    ensures RowOk(Apply(s, step), Actor(step).value)
  {
    hide Unlocked, IsBatch, Admission, ArtifactSizes, LiveReservationSizes;
    var id := Actor(step).value;
    assert id in s.attempts ==> RowOk(s, id);
  }

  /** No other attempt touches the rows that it relies on. */
  lemma OthersKeepRowOk(s: State, step: Step, id: Id)
    requires RowsOk(s) && Enabled(s, step) && id in s.attempts && Actor(step) != Some(id)
    ensures id in Apply(s, step).attempts && RowOk(Apply(s, step), id)
  {
    hide Unlocked, IsBatch, Admission, ArtifactSizes, LiveReservationSizes;
    assert RowOk(s, id);
    if step.DeleteRows? {
      assert RowOk(s, step.id);
    }
  }

  /** Timely or not, no step loses track of a row. */
  lemma StepKeepsRows(s: State, step: Step)
    requires RowsOk(s) && Enabled(s, step)
    ensures RowsOk(Apply(s, step))
  {
    hide Unlocked, IsBatch, Admission, ArtifactSizes, LiveReservationSizes;
    var s' := Apply(s, step);
    assert Actor(step).Some? && Actor(step).value in s.attempts ==> RowOk(s, Actor(step).value);
    forall id | id in s'.attempts
      ensures RowOk(s', id)
    {
      if Actor(step) == Some(id) {
        ActorKeepsRowOk(s, step);
      } else {
        OthersKeepRowOk(s, step, id);
      }
    }
    hide RowOk;
  }

  /******* What every safe run keeps of the objects *******/

  /** A batch holds reservations of its cleaner's provider that no attempt can use any more in time. */
  ghost predicate StaleBatch(s: State, p: ProviderId, cutoff: int, batch: seq<Id>, next: nat) {
    && batch != []
    && next <= |batch|
    && (forall i, j | 0 <= i < j < |batch| :: batch[i] != batch[j])
    && (forall i | 0 <= i < |batch| :: batch[i] in s.issued && batch[i] !in s.db.artifacts)
    && (forall i | 0 <= i < |batch| && batch[i] in s.attempts :: Outlived(s.attempts[batch[i]], p, cutoff))
    && (forall i | 0 <= i < next :: Payload(p, batch[i]) !in s.db.objects)
  }

  /** The attempt's reservation expired at or before the cutoff of a cleanup of its provider. */
  predicate Outlived(a: Attempt, p: ProviderId, cutoff: int) {
    && a.provider == p
    && (a.stage.Uploading? || a.stage.Committing? || a.stage.Compensating? || a.stage.Releasing?)
    && a.stage.deadline <= cutoff
  }

  ghost predicate ObjectOk(s: State, id: Id)
    requires id in s.attempts
  {
    var a := s.attempts[id];
    match a.stage
    case Deleting(cutoff, batch, next) => StaleBatch(s, a.provider, cutoff, batch, next)
    case Uploading(_) => Payload(a.provider, id) !in s.db.objects
    case Committing(d) => s.now < d ==> Payload(a.provider, id) in s.db.objects
    case Releasing(_) => Payload(a.provider, id) !in s.db.objects
    case _ => true
  }

  ghost predicate Inv(s: State) {
    && RowsOk(s)
    && Consistent(s.db)
    && (forall id | id in s.attempts :: ObjectOk(s, id))
  }

  /** Attempt `c` is a cleanup that has yet to delete, or has already deleted, the object of `id`. */
  predicate HasInBatch(s: State, c: Id, id: Id) {
    c in s.attempts && s.attempts[c].stage.Deleting? && id in s.attempts[c].stage.batch
  }

  /** Attempt `c` is a cleanup that has already deleted the object of `id` and will drop its reservation. */
  predicate HasPassed(s: State, c: Id, id: Id) {
    c in s.attempts && s.attempts[c].stage.Deleting? && s.attempts[c].stage.next <= |s.attempts[c].stage.batch|
    && id in s.attempts[c].stage.batch[..s.attempts[c].stage.next]
  }

  /**
   What makes an upload or commit safe whatever its time: no running cleanup is about to take away
   what it relies on.
   */
  predicate Safe(s: State, step: Step) {
    match step
    case Upload(id) => id in s.db.reservations && forall c | c in s.attempts :: !HasPassed(s, c, id)
    case Commit(id) =>
      id in s.attempts && Payload(s.attempts[id].provider, id) in s.db.objects
      && forall c | c in s.attempts :: !HasInBatch(s, c, id)
    case _ => true
  }

  ghost predicate AllSafe(s: State, steps: seq<Step>)
    requires Possible(s, steps)
    decreases |steps|
  {
    steps == [] || (Safe(s, steps[0]) && AllSafe(Apply(s, steps[0]), steps[1..]))
  }

  /** Before its reservation expires, every step of an attempt is safe. */
  lemma TimelyIsSafe(s: State, step: Step)
    requires Inv(s) && Enabled(s, step) && Timely(s, step)
    ensures Safe(s, step)
  {
    hide Unlocked, IsBatch, Admission;
    if (step.Upload? || step.Commit?) {
      assert RowOk(s, step.id) && ObjectOk(s, step.id);
      forall c | c in s.attempts
        ensures !HasInBatch(s, c, step.id)
      {
        assert RowOk(s, c) && ObjectOk(s, c);
      }
    }
  }

  /** No step gives an attempt its time back. */
  lemma OutlivedStays(s: State, step: Step, id: Id, p: ProviderId, cutoff: int)
    requires Enabled(s, step) && id in s.issued && id in Apply(s, step).attempts
    requires id in s.attempts ==> Outlived(s.attempts[id], p, cutoff)
    ensures Outlived(Apply(s, step).attempts[id], p, cutoff)
  {
    hide Unlocked, IsBatch, Admission, ArtifactSizes, LiveReservationSizes;
  }

  /** Only an unsafe upload stores an object that a running cleanup has passed. */
  lemma PassedStaysDeleted(s: State, step: Step, c: Id, i: nat)
    requires Enabled(s, step) && Safe(s, step) && c in s.attempts && s.attempts[c].stage.Deleting?
    requires i < s.attempts[c].stage.next <= |s.attempts[c].stage.batch|
    requires Payload(s.attempts[c].provider, s.attempts[c].stage.batch[i]) !in s.db.objects
    ensures Payload(s.attempts[c].provider, s.attempts[c].stage.batch[i]) !in Apply(s, step).db.objects
  {
    hide Unlocked, IsBatch, Admission, ArtifactSizes, LiveReservationSizes;
    var st := s.attempts[c].stage;
    assert st.batch[i] == st.batch[..st.next][i];
    assert HasPassed(s, c, st.batch[i]);
  }

  /** Only an unsafe commit makes an artifact of a row that a running cleanup has selected. */
  lemma SelectedStaysUncommitted(s: State, step: Step, c: Id, id: Id)
    requires Enabled(s, step) && Safe(s, step) && HasInBatch(s, c, id) && id !in s.db.artifacts
    ensures id !in Apply(s, step).db.artifacts
  {
    hide Unlocked, IsBatch, Admission, ArtifactSizes, LiveReservationSizes;
  }

  lemma StaleBatchStays(s: State, step: Step, c: Id)
    requires Inv(s) && Enabled(s, step) && Safe(s, step) && c in s.attempts && s.attempts[c].stage.Deleting?
    requires Actor(step) != Some(c)
    ensures ObjectOk(Apply(s, step), c)
  {
    assert ObjectOk(s, c);
    var a, s' := s.attempts[c], Apply(s, step);
    var batch := a.stage.batch;
    assert s.issued <= s'.issued && c in s'.attempts && s'.attempts[c] == a;
    hide Safe, Enabled, Apply, Inv, HasPassed, Outlived;
    forall i | 0 <= i < |batch|
      ensures batch[i] !in s'.db.artifacts
      ensures batch[i] in s'.attempts ==> Outlived(s'.attempts[batch[i]], a.provider, a.stage.cutoff)
    {
      SelectedStaysUncommitted(s, step, c, batch[i]);
      if batch[i] in s'.attempts {
        OutlivedStays(s, step, batch[i], a.provider, a.stage.cutoff);
      }
    }
    forall i | 0 <= i < a.stage.next
      ensures Payload(a.provider, batch[i]) !in s'.db.objects
    {
      PassedStaysDeleted(s, step, c, i);
    }
  }

  /** What a cleanup selects is stale: only attempts past their deadline have expired reservations. */
  lemma SelectedIsStale(s: State, step: Step)
    requires Inv(s) && step.QueryExpired? && Enabled(s, step)
    ensures ObjectOk(Apply(s, step), step.id)
  {
    hide Unlocked, Admission, ArtifactSizes, LiveReservationSizes;
    var a := s.attempts[step.id];
    forall i | 0 <= i < |step.batch| && step.batch[i] in s.attempts
      ensures Outlived(s.attempts[step.batch[i]], a.provider, a.stage.cutoff) && step.batch[i] != step.id
    {
      assert RowOk(s, step.batch[i]) && RowOk(s, step.id);
      assert step.batch[i] in Expired(s.db, a.provider, a.stage.cutoff);
    }
  }

  lemma ActorKeepsObjectOk(s: State, step: Step)
    requires Inv(s) && Enabled(s, step) && Actor(step).Some? && Actor(step).value in Apply(s, step).attempts
    ensures ObjectOk(Apply(s, step), Actor(step).value)
  {
    var id := Actor(step).value;
    if step.QueryExpired? {
      SelectedIsStale(s, step);
    } else {
      hide Unlocked, IsBatch, Admission, ArtifactSizes, LiveReservationSizes, Consistent;
      if id in s.attempts {
        assert RowOk(s, id) && ObjectOk(s, id);
      }
      if step.ReserveQuota? {
        assert Payload(s.attempts[id].provider, id) !in s.db.objects by {
          assert id !in s.db.reservations && id !in s.db.artifacts;
          NoRowNoObject(s.db, Payload(s.attempts[id].provider, id));
        }
      }
    }
  }

  lemma NoRowNoObject(db: Db, key: ObjectKey)
    requires Consistent(db) && key.id !in db.artifacts && key.id !in db.reservations
    ensures key !in db.objects
  {
  }

  lemma OthersKeepObjectOk(s: State, step: Step, id: Id)
    requires Inv(s) && Enabled(s, step) && Safe(s, step)
    requires id in s.attempts && Actor(step) != Some(id)
    ensures id in Apply(s, step).attempts && ObjectOk(Apply(s, step), id)
  {
    if s.attempts[id].stage.Deleting? {
      StaleBatchStays(s, step, id);
    } else {
      hide Unlocked, IsBatch, Admission, ArtifactSizes, LiveReservationSizes, Consistent;
      assert RowOk(s, id) && ObjectOk(s, id);
      if step.DeleteStale? {
        assert RowOk(s, step.id) && ObjectOk(s, step.id);
      }
    }
  }

  lemma StepKeepsConsistent(s: State, step: Step)
    requires Inv(s) && Enabled(s, step) && Safe(s, step)
    ensures Consistent(Apply(s, step).db)
  {
    hide Unlocked, IsBatch, Admission, ArtifactSizes, LiveReservationSizes;
    if Actor(step).Some? && Actor(step).value in s.attempts {
      assert RowOk(s, Actor(step).value) && ObjectOk(s, Actor(step).value);
    }
    StepKeepsRows(s, step);
  }

  lemma StepKeepsInv(s: State, step: Step)
    requires Inv(s) && Enabled(s, step) && Safe(s, step)
    ensures Inv(Apply(s, step))
  {
    var s' := Apply(s, step);
    StepKeepsRows(s, step);
    StepKeepsConsistent(s, step);
    forall id | id in s'.attempts
      ensures ObjectOk(s', id)
    {
      if Actor(step) == Some(id) {
        ActorKeepsObjectOk(s, step);
      } else {
        OthersKeepObjectOk(s, step, id);
      }
    }
  }

  /** In every interleaving of safe steps, with crashes anywhere, rows and objects stay consistent. */
  lemma {:induction false} RunKeepsInv(s: State, steps: seq<Step>)
    requires Inv(s) && Possible(s, steps) && AllSafe(s, steps)
    ensures Inv(Run(s, steps))
    decreases |steps|
  {
    if steps != [] {
      StepKeepsInv(s, steps[0]);
      RunKeepsInv(Apply(s, steps[0]), steps[1..]);
    }
  }

  lemma {:induction false} TimelyRunIsSafe(s: State, steps: seq<Step>)
    requires Inv(s) && Possible(s, steps) && AllTimely(s, steps)
    ensures AllSafe(s, steps)
    decreases |steps|
  {
    if steps != [] {
      TimelyIsSafe(s, steps[0]);
      StepKeepsInv(s, steps[0]);
      TimelyRunIsSafe(Apply(s, steps[0]), steps[1..]);
    }
  }

  /** The promise of the protocol for every timely run that starts from an empty installation. */
  lemma NoOrphanEver(s: State, steps: seq<Step>)
    requires Initial(s) && Possible(s, steps) && AllTimely(s, steps)
    ensures Consistent(Run(s, steps).db)
  {
    TimelyRunIsSafe(s, steps);
    RunKeepsInv(s, steps);
  }

  lemma RunCons(s: State, step: Step, rest: seq<Step>)
    requires Enabled(s, step) && Possible(Apply(s, step), rest)
    ensures Possible(s, [step] + rest) && Run(s, [step] + rest) == Run(Apply(s, step), rest)
    ensures Timely(s, step) && AllTimely(Apply(s, step), rest) ==> AllTimely(s, [step] + rest)
  {
    assert ([step] + rest)[1..] == rest;
  }

  lemma {:induction false} RunAppend(s: State, first: seq<Step>, second: seq<Step>)
    requires Possible(s, first) && Possible(Run(s, first), second)
    ensures Possible(s, first + second) && Run(s, first + second) == Run(Run(s, first), second)
    ensures AllTimely(s, first) && AllTimely(Run(s, first), second) ==> AllTimely(s, first + second)
    decreases |first|
  {
    if first == [] {
      assert first + second == second;
    } else {
      assert (first + second)[0] == first[0] && (first + second)[1..] == first[1..] + second;
      RunAppend(Apply(s, first[0]), first[1..], second);
    }
  }

  lemma RunOne(s: State, first: seq<Step>, mid: State, step: Step, last: State)
    requires Possible(s, first) && Run(s, first) == mid
    requires Enabled(mid, step) && Apply(mid, step) == last
    ensures Possible(s, first + [step]) && Run(s, first + [step]) == last
    ensures AllTimely(s, first) && Timely(mid, step) ==> AllTimely(s, first + [step])
  {
    RunCons(mid, step, []);
    assert [step] + [] == [step];
    RunAppend(s, first, [step]);
  }

  /******* The cleanup loop ends *******/

  /** What one attempt's cleanup may still have to delete at its fixed cutoff. */
  ghost function CleanupWork(s: State, id: Id): set<Id> {
    if id !in s.attempts then {}
    else
      var a := s.attempts[id];
      match a.stage
      case Cleaning(cutoff) => Expired(s.db, a.provider, cutoff)
      case Deleting(cutoff, batch, _) => Expired(s.db, a.provider, cutoff) + SetOf(batch)
      case _ => {}
  }

  function RoundsOf(id: Id, steps: seq<Step>): nat {
    if steps == [] then 0 else (if steps[0] == DeleteRows(id) then 1 else 0) + RoundsOf(id, steps[1..])
  }

  /** Nobody adds to the work of a running cleanup, and each round of its own takes some away. */
  lemma CleanupProgress(s: State, step: Step, id: Id)
    requires Inv(s) && Enabled(s, step) && Timely(s, step) && id in s.issued
    ensures CleanupWork(Apply(s, step), id) <= CleanupWork(s, id)
    ensures step == DeleteRows(id) ==> CleanupWork(Apply(s, step), id) < CleanupWork(s, id)
  {
    if id in s.attempts {
      assert RowOk(s, id) && ObjectOk(s, id);
      if step == DeleteRows(id) {
        var batch := s.attempts[id].stage.batch;
        assert batch[0] in CleanupWork(s, id) && batch[0] !in CleanupWork(Apply(s, step), id);
      }
    }
  }

  lemma ProperSubsetIsSmaller<T>(small: set<T>, big: set<T>)
    requires small <= big
    ensures |small| <= |big| && (small != big ==> |small| < |big|)
  {
    assert big == small + (big - small);
  }

  /** However the other attempts interleave, one attempt deletes at most as many batches as rows were expired. */
  lemma {:induction false} CleanupTerminates(s: State, steps: seq<Step>, id: Id)
    requires Inv(s) && Possible(s, steps) && AllTimely(s, steps) && id in s.issued
    ensures RoundsOf(id, steps) <= |CleanupWork(s, id)|
    decreases |steps|
  {
    if steps != [] {
      var s' := Apply(s, steps[0]);
      CleanupProgress(s, steps[0], id);
      ProperSubsetIsSmaller(CleanupWork(s', id), CleanupWork(s, id));
      TimelyIsSafe(s, steps[0]);
      StepKeepsInv(s, steps[0]);
      hide Inv, Enabled, Timely, Safe, CleanupWork, Apply;
      CleanupTerminates(s', steps[1..], id);
    }
  }
}
