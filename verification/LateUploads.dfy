/**
 What happens when an attempt outlives its reservation. For every step that an attempt takes too late, the
 exact condition under which rows and objects stay consistent from then on.
 */
module LateUploads {
  import opened Wrappers
  import opened Sums
  import opened UploadProtocol

  /** A continuation in which every attempt is timely and which leaves rows and objects consistent. */
  ghost predicate EndsConsistent(s: State, steps: seq<Step>) {
    Possible(s, steps) && AllTimely(s, steps) ==> Consistent(Run(s, steps).db)
  }

  ghost predicate StaysConsistent(s: State) {
    forall steps: seq<Step> :: EndsConsistent(s, steps)
  }

  /** The state in which cleanup `c` has deleted the objects of its batch up to `k`. */
  function Swept(s: State, c: Id, k: nat): State
    requires c in s.attempts && s.attempts[c].stage.Deleting?
    requires s.attempts[c].stage.next <= k <= |s.attempts[c].stage.batch|
  {
    var a := s.attempts[c];
    var gone := set i | a.stage.next <= i < k :: Payload(a.provider, a.stage.batch[i]);
    Advance(s.(db := s.db.(objects := s.db.objects - gone)), c, a.stage.(next := k))
  }

  lemma SweptOnce(s: State, c: Id, k: nat)
    requires c in s.attempts && s.attempts[c].stage.Deleting?
    requires s.attempts[c].stage.next < k <= |s.attempts[c].stage.batch|
    ensures Enabled(s, DeleteStale(c)) && Swept(Apply(s, DeleteStale(c)), c, k) == Swept(s, c, k)
  {
    var a, s' := s.attempts[c], Apply(s, DeleteStale(c));
    var first := Payload(a.provider, a.stage.batch[a.stage.next]);
    var gone := set i | a.stage.next <= i < k :: Payload(a.provider, a.stage.batch[i]);
    var later := set i | a.stage.next + 1 <= i < k :: Payload(a.provider, a.stage.batch[i]);
    assert gone == {first} + later;
    assert s.db.objects - gone == s.db.objects - {first} - later;
  }

  /** A running cleanup can go on deleting the objects of its batch. */
  lemma {:induction false} SweepOn(s: State, c: Id, k: nat) returns (steps: seq<Step>)
    requires c in s.attempts && s.attempts[c].stage.Deleting?
    requires s.attempts[c].stage.next <= k <= |s.attempts[c].stage.batch|
    ensures Possible(s, steps) && AllTimely(s, steps) && Run(s, steps) == Swept(s, c, k)
    decreases k - s.attempts[c].stage.next
  {
    if s.attempts[c].stage.next == k {
      steps := [];
    } else {
      SweptOnce(s, c, k);
      var rest := SweepOn(Apply(s, DeleteStale(c)), c, k);
      hide Swept, Possible, AllTimely, Run, Apply;
      RunCons(s, DeleteStale(c), rest);
      steps := [DeleteStale(c)] + rest;
    }
  }

  /** A commit whose object is gone, or is in the batch of a running cleanup, can leave a row without its object. */
  lemma UnsafeCommitLosesTheObject(s: State, id: Id)
    requires Inv(s) && Enabled(s, Commit(id)) && !Safe(s, Commit(id))
    ensures !StaysConsistent(Apply(s, Commit(id)))
  {
    var a, s' := s.attempts[id], Apply(s, Commit(id));
    var steps: seq<Step> := [];
    if Payload(a.provider, id) in s.db.objects {
      var c :| c in s.attempts && HasInBatch(s, c, id);
      assert ObjectOk(s, c);
      var batch := s.attempts[c].stage.batch;
      var i :| 0 <= i < |batch| && batch[i] == id;
      assert s'.attempts[c] == s.attempts[c] && c != id;
      steps := SweepOn(s', c, i + 1);
      SweptTakes(s', c, i + 1, i);
    }
    assert id in Run(s', steps).db.artifacts && Run(s', steps).db.artifacts[id].provider == a.provider;
    assert !EndsConsistent(s', steps);
  }

  lemma SweptTakes(s: State, c: Id, k: nat, i: nat)
    requires c in s.attempts && s.attempts[c].stage.Deleting?
    requires s.attempts[c].stage.next <= i < k <= |s.attempts[c].stage.batch|
    ensures Payload(s.attempts[c].provider, s.attempts[c].stage.batch[i]) !in Swept(s, c, k).db.objects
    ensures Swept(s, c, k).db.artifacts == s.db.artifacts
  {
  }

  /** An upload whose reservation is gone, or has been passed by a running cleanup, can leave an object without a row. */
  lemma UnsafeUploadLosesTheRow(s: State, id: Id)
    requires Inv(s) && Enabled(s, Upload(id)) && !Safe(s, Upload(id))
    ensures !StaysConsistent(Apply(s, Upload(id)))
  {
    var a, s' := s.attempts[id], Apply(s, Upload(id));
    assert RowOk(s, id);
    var steps: seq<Step> := [];
    if id in s.db.reservations {
      var c :| c in s.attempts && HasPassed(s, c, id);
      assert ObjectOk(s, c);
      steps := FinishBatch(s', c, id, a.provider);
    }
    assert Payload(a.provider, id) in Run(s', steps).db.objects && id !in Run(s', steps).db.artifacts;
    assert !EndsConsistent(s', steps);
  }

  /** A cleanup that has passed a row finishes its batch: the row goes, the object stays. */
  lemma FinishBatch(s: State, c: Id, id: Id, p: ProviderId) returns (steps: seq<Step>)
    requires HasPassed(s, c, id) && s.attempts[c].provider == p
    requires forall i, j | 0 <= i < j < |s.attempts[c].stage.batch| :: s.attempts[c].stage.batch[i] != s.attempts[c].stage.batch[j]
    requires id in Expired(s.db, p, s.attempts[c].stage.cutoff) && Payload(p, id) in s.db.objects
    ensures Possible(s, steps) && AllTimely(s, steps)
    ensures id !in Run(s, steps).db.reservations && Payload(p, id) in Run(s, steps).db.objects
    ensures Run(s, steps).db.artifacts == s.db.artifacts
  {
    var batch := s.attempts[c].stage.batch;
    var swept := Swept(s, c, |batch|);
    var first := SweepOn(s, c, |batch|);
    assert id in SetOf(batch);
    var last := Apply(swept, DeleteRows(c));
    RunOne(s, first, swept, DeleteRows(c), last);
    steps := first + [DeleteRows(c)];
  }

  /**
   For every step of every attempt, timely or not: all timely continuations keep rows and objects consistent
   if and only if the step is safe. So a late commit is safe exactly when its object is stored and in no running
   cleanup's batch, a late upload exactly when its reservation row is there and no running cleanup has passed it.
   */
  lemma StepIsSafeIff(s: State, step: Step)
    requires Inv(s) && Enabled(s, step)
    ensures StaysConsistent(Apply(s, step)) <==> Safe(s, step)
  {
    if Safe(s, step) {
      StepKeepsInv(s, step);
      InvStaysConsistent(Apply(s, step));
    } else if step.Commit? {
      UnsafeCommitLosesTheObject(s, step.id);
    } else {
      UnsafeUploadLosesTheRow(s, step.id);
    }
  }

  lemma InvStaysConsistent(s: State)
    requires Inv(s)
    ensures StaysConsistent(s)
  {
    forall steps: seq<Step>
      ensures EndsConsistent(s, steps)
    {
      if Possible(s, steps) && AllTimely(s, steps) {
        TimelyRunIsSafe(s, steps);
        RunKeepsInv(s, steps);
      }
    }
  }

  /** At every moment of the run, all timely continuations keep rows and objects consistent. */
  ghost predicate NeverLoses(s: State, steps: seq<Step>)
    requires Possible(s, steps)
    decreases |steps|
  {
    StaysConsistent(s) && (steps != [] ==> NeverLoses(Apply(s, steps[0]), steps[1..]))
  }

  /** A whole run, timely or not, never puts an object or a row at risk if and only if each of its steps is safe. */
  lemma {:induction false} RunIsSafeIff(s: State, steps: seq<Step>)
    requires Inv(s) && Possible(s, steps)
    ensures NeverLoses(s, steps) <==> AllSafe(s, steps)
    decreases |steps|
  {
    InvStaysConsistent(s);
    if steps != [] {
      var s', rest := Apply(s, steps[0]), steps[1..];
      StepIsSafeIff(s, steps[0]);
      hide Inv, Safe, StaysConsistent, Enabled, Apply;
      if Safe(s, steps[0]) {
        StepKeepsInv(s, steps[0]);
        RunIsSafeIff(s', rest);
      } else {
        assert !NeverLoses(s', rest);
      }
    }
  }

  /******* The shortest loss from an empty installation *******/

  /** The databases of a run in which attempt 1 commits after attempt 2 cleaned up its reservation. */
  function Bare(): Db {
    Db(map[0 := Provider(true, 0)], map[], map[], {})
  }

  function Held(): Db {
    Bare().(reservations := map[1 := Reservation(0, 5, RESERVATION_TTL)])
  }

  function Stored(): Db {
    Held().(objects := {Payload(0, 1)})
  }

  /** Attempt 1 alone, and with attempt 2 beside it. */
  function Alone(db: Db, now: int, stage: Stage): State {
    State(db, now, {1}, map[1 := Attempt(0, 5, stage)])
  }

  function Both(db: Db, stage: Stage): State {
    State(db, RESERVATION_TTL, {1, 2}, map[1 := Attempt(0, 5, Committing(RESERVATION_TTL)), 2 := Attempt(0, 5, stage)])
  }

  function LateState(k: nat): State
    requires k <= 14
  {
    match k
    case 0 => State(Bare(), 0, {}, map[])
    case 1 => Alone(Bare(), 0, Cleaning(0))
    case 2 => Alone(Bare(), 0, Reserving)
    case 3 => Alone(Bare(), 0, Locked)
    case 4 => Alone(Bare(), 0, Timed(0))
    case 5 => Alone(Bare(), 0, Summed(0, 0))
    case 6 => Alone(Bare(), 0, Counted(0, 0))
    case 7 => Alone(Held(), 0, Uploading(RESERVATION_TTL))
    case 8 => Alone(Stored(), 0, Committing(RESERVATION_TTL))
    case 9 => Alone(Stored(), RESERVATION_TTL, Committing(RESERVATION_TTL))
    case 10 => Both(Stored(), Cleaning(RESERVATION_TTL))
    case 11 => Both(Stored(), Deleting(RESERVATION_TTL, [1], 0))
    case 12 => Both(Held(), Deleting(RESERVATION_TTL, [1], 1))
    case 13 => Both(Bare(), Cleaning(RESERVATION_TTL))
    case _ => State(Bare().(artifacts := map[1 := Artifact(0, 5)]), RESERVATION_TTL, {1, 2},
                    map[2 := Attempt(0, 5, Cleaning(RESERVATION_TTL))])
  }

  function LateStep(k: nat): Step
    requires k < 14
  {
    match k
    case 0 => Start(1, 0, 5)
    case 1 => QueryExpired(1, [])
    case 2 => LockProvider(1)
    case 3 => TakeTime(1)
    case 4 => SumArtifacts(1)
    case 5 => SumReservations(1)
    case 6 => ReserveQuota(1)
    case 7 => Upload(1)
    case 8 => Tick(RESERVATION_TTL)
    case 9 => Start(2, 0, 5)
    case 10 => QueryExpired(2, [1])
    case 11 => DeleteStale(2)
    case 12 => DeleteRows(2)
    case _ => Commit(1)
  }

  ghost predicate Leads(s: State, step: Step, s': State) {
    Enabled(s, step) && Apply(s, step) == s'
  }

  lemma StartLeads()
    ensures Leads(State(Bare(), 0, {}, map[]), Start(1, 0, 5), Alone(Bare(), 0, Cleaning(0)))
    ensures Leads(Alone(Stored(), RESERVATION_TTL, Committing(RESERVATION_TTL)), Start(2, 0, 5), Both(Stored(), Cleaning(RESERVATION_TTL)))
  {
  }

  lemma NothingExpiredLeads()
    ensures Leads(Alone(Bare(), 0, Cleaning(0)), QueryExpired(1, []), Alone(Bare(), 0, Reserving))
  {
    assert Expired(Bare(), 0, 0) == {};
  }

  lemma LockLeads()
    ensures Leads(Alone(Bare(), 0, Reserving), LockProvider(1), Alone(Bare(), 0, Locked))
    ensures Leads(Alone(Bare(), 0, Locked), TakeTime(1), Alone(Bare(), 0, Timed(0)))
  {
  }

  lemma SumsLead()
    ensures Leads(Alone(Bare(), 0, Timed(0)), SumArtifacts(1), Alone(Bare(), 0, Summed(0, 0)))
    ensures Leads(Alone(Bare(), 0, Summed(0, 0)), SumReservations(1), Alone(Bare(), 0, Counted(0, 0)))
  {
    assert ArtifactSizes(Bare(), 0) == map[] && LiveReservationSizes(Bare(), 0, 0) == map[];
  }

  lemma ReserveLeads()
    ensures Leads(Alone(Bare(), 0, Counted(0, 0)), ReserveQuota(1), Alone(Held(), 0, Uploading(RESERVATION_TTL)))
  {
    assert Reserve(Bare(), 1, 0, 5, 0) == Held();
  }

  lemma UploadLeads()
    ensures Leads(Alone(Held(), 0, Uploading(RESERVATION_TTL)), Upload(1), Alone(Stored(), 0, Committing(RESERVATION_TTL)))
  {
  }

  lemma TickLeads()
    ensures Leads(Alone(Stored(), 0, Committing(RESERVATION_TTL)), Tick(RESERVATION_TTL),
                  Alone(Stored(), RESERVATION_TTL, Committing(RESERVATION_TTL)))
  {
  }

  lemma OneExpiredLeads()
    ensures Leads(Both(Stored(), Cleaning(RESERVATION_TTL)), QueryExpired(2, [1]), Both(Stored(), Deleting(RESERVATION_TTL, [1], 0)))
  {
    assert Expired(Stored(), 0, RESERVATION_TTL) == {1};
  }

  lemma DeleteObjectLeads()
    ensures Leads(Both(Stored(), Deleting(RESERVATION_TTL, [1], 0)), DeleteStale(2), Both(Held(), Deleting(RESERVATION_TTL, [1], 1)))
  {
  }

  lemma DeleteRowLeads()
    ensures Leads(Both(Held(), Deleting(RESERVATION_TTL, [1], 1)), DeleteRows(2), Both(Bare(), Cleaning(RESERVATION_TTL)))
  {
    assert DeleteExpired(Held(), 0, SetOf([1]), RESERVATION_TTL).reservations == map[];
  }

  lemma LateCommitLeads()
    ensures Leads(Both(Bare(), Cleaning(RESERVATION_TTL)), Commit(1), LateState(14))
  {
    assert Both(Bare(), Cleaning(RESERVATION_TTL)).attempts - {1} == map[2 := Attempt(0, 5, Cleaning(RESERVATION_TTL))];
    assert Bare().reservations - {1} == map[];
  }

  lemma LateStepLeadsOn(k: nat)
    requires k < 14
    ensures Leads(LateState(k), LateStep(k), LateState(k + 1))
  {
    StartLeads();
    NothingExpiredLeads();
    LockLeads();
    SumsLead();
    ReserveLeads();
    UploadLeads();
    TickLeads();
    OneExpiredLeads();
    DeleteObjectLeads();
    DeleteRowLeads();
    LateCommitLeads();
    hide Leads, Bare, Held, Stored, Alone, Both;
  }

  lemma {:induction false} LateRun(k: nat) returns (steps: seq<Step>)
    requires k <= 14
    ensures Possible(LateState(0), steps) && Run(LateState(0), steps) == LateState(k)
  {
    if k == 0 {
      steps := [];
    } else {
      hide LateState, Enabled, Apply, Possible, Run;
      var first := LateRun(k - 1);
      LateStepLeadsOn(k - 1);
      RunOne(LateState(0), first, LateState(k - 1), LateStep(k - 1), LateState(k));
      steps := first + [LateStep(k - 1)];
    }
  }

  /**
   An attempt that outlives its reservation loses its object: another upload's cleanup deletes
   object and reservation, and the late commit then inserts an artifact row without an object.
   */
  lemma LateCommitLosesTheObject()
    ensures exists s, steps: seq<Step> :: Initial(s) && Possible(s, steps) && !Consistent(Run(s, steps).db)
  {
    var steps := LateRun(14);
    assert 1 in LateState(14).db.artifacts && Payload(0, 1) !in LateState(14).db.objects;
    assert Initial(LateState(0)) && !Consistent(Run(LateState(0), steps).db);
  }
}
