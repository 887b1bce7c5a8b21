/**
 An upload that runs alone, from its start to its end, is a run of the concurrent protocol, so that every
 theorem about runs holds of the service's method.
 */
module SoloUploads {
  import opened Wrappers
  import opened Sums
  import opened UploadProtocol
  import opened UploadQuota
  import opened LateUploads
  import opened ArtifactStore

  /** The end of a failed attempt: it drops its reservation, unless that throws too. */
  lemma ReleaseIsARun(s: State, id: Id, release: bool) returns (steps: seq<Step>)
    requires id in s.attempts && s.attempts[id].stage.Releasing?
    ensures Possible(s, steps) && AllTimely(s, steps) && id !in Run(s, steps).attempts
    ensures Run(s, steps).db == if release then s.db else Release(s.db, id)
  {
    steps := [if release then Die(id) else DropReservation(id)] + [];
    RunCons(s, steps[0], []);
  }

  /** The end of an attempt whose commit failed. */
  lemma UndoIsARun(s: State, id: Id, faults: Faults) returns (steps: seq<Step>)
    requires id in s.attempts && s.attempts[id].stage.Compensating?
    ensures Possible(s, steps) && AllTimely(s, steps) && id !in Run(s, steps).attempts
    ensures
      var undone := DeleteObject(s.db, Payload(s.attempts[id].provider, id));
      Run(s, steps).db == if faults.compensation then s.db else if faults.release then undone else Release(undone, id)
  {
    if faults.compensation {
      steps := [Die(id)] + [];
      RunCons(s, Die(id), []);
    } else {
      var rest := ReleaseIsARun(Apply(s, Compensate(id)), id, faults.release);
      steps := [Compensate(id)] + rest;
      RunCons(s, Compensate(id), rest);
    }
  }

  /** Whatever throws, the part of an upload after its reservation is a timely run of the protocol with the same effect. */
  lemma StoreIsARun(s: State, id: Id, faults: Faults) returns (steps: seq<Step>)
    requires id in s.attempts && s.attempts[id].stage.Uploading? && s.now < s.attempts[id].stage.deadline
    requires Unlocked(s, s.attempts[id].provider)
    ensures Possible(s, steps) && AllTimely(s, steps) && id !in Run(s, steps).attempts
    ensures Run(s, steps).db == StoreEffect(s.db, id, s.attempts[id].provider, s.attempts[id].sizeBytes, faults)
  {
    hide Possible, AllTimely, Run, Promote, PutObject, DeleteObject, Release;
    if faults.hashing || faults.upload {
      var rest := ReleaseIsARun(Apply(s, UploadFails(id)), id, faults.release);
      steps := [UploadFails(id)] + rest;
      RunCons(s, UploadFails(id), rest);
    } else {
      var stored := Apply(s, Upload(id));
      var rest := CommitIsARun(stored, id, faults);
      steps := [Upload(id)] + rest;
      RunCons(s, Upload(id), rest);
    }
  }

  /** The transaction that follows a stored object, or the undoing that follows its failure. */
  lemma CommitIsARun(s: State, id: Id, faults: Faults) returns (steps: seq<Step>)
    requires id in s.attempts && s.attempts[id].stage.Committing? && s.now < s.attempts[id].stage.deadline
    requires Unlocked(s, s.attempts[id].provider)
    ensures Possible(s, steps) && AllTimely(s, steps) && id !in Run(s, steps).attempts
    ensures
      var a := s.attempts[id];
      var undone := DeleteObject(s.db, Payload(a.provider, id));
      Run(s, steps).db ==
        if !faults.keyChanged && !faults.commit then Promote(s.db, id, Artifact(a.provider, a.sizeBytes))
        else if faults.compensation then s.db
        else if faults.release then undone else Release(undone, id)
  {
    if !faults.keyChanged && !faults.commit {
      steps := [Commit(id)] + [];
      RunCons(s, Commit(id), []);
    } else {
      var rest := UndoIsARun(Apply(s, CommitFails(id)), id, faults);
      steps := [CommitFails(id)] + rest;
      RunCons(s, CommitFails(id), rest);
    }
  }

  /******* The admission *******/

  /** An admission that runs alone reads the usage and has the effect of one atomic reservation. */
  lemma AdmissionIsARun(s: State, id: Id) returns (steps: seq<Step>)
    requires id in s.attempts && s.attempts[id].stage.Reserving? && Unlocked(s, s.attempts[id].provider)
    requires
      var a := s.attempts[id];
      Admission(s.db, a.provider, a.sizeBytes, Usage(s.db, a.provider, s.now)).Ok?
    ensures Possible(s, steps) && AllTimely(s, steps)
    ensures
      var a := s.attempts[id];
      Run(s, steps)
      == Advance(s.(db := Reserve(s.db, id, a.provider, a.sizeBytes, s.now)), id, Uploading(s.now + RESERVATION_TTL))
  {
    var a := s.attempts[id];
    var s1 := Apply(s, LockProvider(id));
    var s2 := Apply(s1, TakeTime(id));
    var s3 := Apply(s2, SumArtifacts(id));
    var s4 := Apply(s3, SumReservations(id));
    assert s4 == Advance(s, id, Counted(s.now, Usage(s.db, a.provider, s.now)));
    var s5 := Apply(s4, ReserveQuota(id));
    hide Usage, Total, Unlocked, Possible, AllTimely, Run, Apply, Enabled;
    RunNone(s);
    steps := [];
    RunOne(s, [], s, LockProvider(id), s1);
    RunOne(s, [] + [LockProvider(id)], s1, TakeTime(id), s2);
    RunOne(s, [] + [LockProvider(id)] + [TakeTime(id)], s2, SumArtifacts(id), s3);
    RunOne(s, [] + [LockProvider(id)] + [TakeTime(id)] + [SumArtifacts(id)], s3, SumReservations(id), s4);
    steps := [] + [LockProvider(id)] + [TakeTime(id)] + [SumArtifacts(id)] + [SumReservations(id)];
    RunOne(s, steps, s4, ReserveQuota(id), s5);
    steps := steps + [ReserveQuota(id)];
  }

  lemma RunNone(s: State)
    ensures Possible(s, []) && AllTimely(s, []) && Run(s, []) == s
  {
  }

  /******* The cleanup *******/

  /** A selection can always be completed to a batch. */
  lemma {:induction false} SelectMore(reservations: map<Id, Reservation>, expired: set<Id>, batch: seq<Id>, rest: set<Id>)
    returns (full: seq<Id>, left: set<Id>)
    requires expired <= reservations.Keys && Selected(reservations, expired, batch, rest) && |batch| <= CLEANUP_BATCH
    ensures Selected(reservations, expired, full, left) && |full| <= CLEANUP_BATCH
    ensures |full| == CLEANUP_BATCH || left == {}
    decreases rest
  {
    if |batch| == CLEANUP_BATCH || rest == {} {
      full, left := batch, rest;
    } else {
      var id := OldestExists(reservations, rest);
      SelectedGrows(reservations, expired, batch, rest, id);
      hide Selected;
      full, left := SelectMore(reservations, expired, batch + [id], rest - {id});
    }
  }

  lemma BatchExists(db: Db, p: ProviderId, cutoff: int) returns (batch: seq<Id>)
    ensures IsBatch(db, p, cutoff, batch)
  {
    var left;
    batch, left := SelectMore(db.reservations, Expired(db, p, cutoff), [], Expired(db, p, cutoff));
  }

  /** The database after one round of a cleanup. */
  function RoundOf(db: Db, p: ProviderId, cutoff: int, batch: seq<Id>): Db {
    var gone := set i | 0 <= i < |batch| :: Payload(p, batch[i]);
    DeleteExpired(db.(objects := db.objects - gone), p, SetOf(batch), cutoff)
  }

  /** One round that runs alone: select, delete the objects one by one, delete the rows. */
  lemma RoundIsARun(s: State, id: Id, batch: seq<Id>) returns (steps: seq<Step>)
    requires id in s.attempts && s.attempts[id].stage.Cleaning? && batch != []
    requires IsBatch(s.db, s.attempts[id].provider, s.attempts[id].stage.cutoff, batch)
    ensures Possible(s, steps) && AllTimely(s, steps)
    ensures Run(s, steps) == s.(db := RoundOf(s.db, s.attempts[id].provider, s.attempts[id].stage.cutoff, batch))
  {
    var a := s.attempts[id];
    var s1 := Apply(s, QueryExpired(id, batch));
    var sweep := SweepOn(s1, id, |batch|);
    var s2 := Swept(s1, id, |batch|);
    var s3 := Apply(s2, DeleteRows(id));
    assert s3.db == RoundOf(s.db, a.provider, a.stage.cutoff, batch);
    assert s3.attempts == s.attempts;
    RunOne(s1, sweep, s2, DeleteRows(id), s3);
    hide Swept, IsBatch, Possible, AllTimely, Run, Apply, Enabled, RoundOf;
    RunCons(s, QueryExpired(id, batch), sweep + [DeleteRows(id)]);
    steps := [QueryExpired(id, batch)] + (sweep + [DeleteRows(id)]);
  }

  lemma RoundShrinks(db: Db, p: ProviderId, cutoff: int, batch: seq<Id>)
    requires IsBatch(db, p, cutoff, batch) && batch != []
    ensures Expired(RoundOf(db, p, cutoff, batch), p, cutoff) < Expired(db, p, cutoff)
    ensures Cleaned(RoundOf(db, p, cutoff, batch), p, cutoff) == Cleaned(db, p, cutoff)
  {
    var db', stale := RoundOf(db, p, cutoff, batch), Expired(db, p, cutoff);
    assert SetOf(batch) <= stale;
    assert Expired(db', p, cutoff) == stale - SetOf(batch);
    assert batch[0] in stale && batch[0] in SetOf(batch);
    assert db'.reservations - (stale - SetOf(batch)) == db.reservations - stale;
    forall key | key in db.objects
      ensures key in Cleaned(db', p, cutoff).objects <==> key in Cleaned(db, p, cutoff).objects
    {
      assert key.id in SetOf(batch) ==> exists i | 0 <= i < |batch| :: batch[i] == key.id;
    }
  }

  /** A cleanup that runs alone ends with the cleaned tables. */
  lemma {:induction false} CleanupIsARun(s: State, id: Id) returns (steps: seq<Step>)
    requires id in s.attempts && s.attempts[id].stage.Cleaning?
    ensures Possible(s, steps) && AllTimely(s, steps)
    ensures
      var a := s.attempts[id];
      Run(s, steps) == Advance(s.(db := Cleaned(s.db, a.provider, a.stage.cutoff)), id, Reserving)
    decreases |Expired(s.db, s.attempts[id].provider, s.attempts[id].stage.cutoff)|
  {
    var a := s.attempts[id];
    var p, cutoff := a.provider, a.stage.cutoff;
    var batch := BatchExists(s.db, p, cutoff);
    if batch == [] {
      assert Expired(s.db, p, cutoff) == {};
      assert Cleaned(s.db, p, cutoff) == s.db;
      steps := [QueryExpired(id, [])] + [];
      RunCons(s, QueryExpired(id, []), []);
    } else {
      var first := RoundIsARun(s, id, batch);
      RoundShrinks(s.db, p, cutoff, batch);
      var s' := s.(db := RoundOf(s.db, p, cutoff, batch));
      ProperSubsetIsSmaller(Expired(s'.db, p, cutoff), Expired(s.db, p, cutoff));
      hide IsBatch, RoundOf, Expired, Cleaned;
      var rest := CleanupIsARun(s', id);
      hide Possible, AllTimely, Run;
      RunAppend(s, first, rest);
      steps := first + rest;
    }
  }

  /******* The whole upload *******/

  /** What follows the cleanup: refused, or reserved, stored and committed or undone. */
  lemma AdmittedIsARun(s: State, id: Id, faults: Faults) returns (steps: seq<Step>)
    requires id in s.attempts && s.attempts[id].stage.Reserving? && Unlocked(s, s.attempts[id].provider)
    requires id !in s.db.artifacts && id !in s.db.reservations && Payload(s.attempts[id].provider, id) !in s.db.objects
    requires Consistent(s.db)
    ensures Possible(s, steps) && AllTimely(s, steps) && id !in Run(s, steps).attempts
    ensures
      var a := s.attempts[id];
      Run(s, steps).db
      == UploadEffect(s.db, id, a.provider, a.sizeBytes, s.now, AdmittedResult(s.db, a.provider, a.sizeBytes, s.now, faults), faults)
  {
    var a := s.attempts[id];
    hide Usage;
    if Admission(s.db, a.provider, a.sizeBytes, Usage(s.db, a.provider, s.now)).Err? {
      steps := [Die(id)] + [];
      RunCons(s, Die(id), []);
    } else {
      var first := AdmissionIsARun(s, id);
      var reserved := Reserve(s.db, id, a.provider, a.sizeBytes, s.now);
      var s' := Advance(s.(db := reserved), id, Uploading(s.now + RESERVATION_TTL));
      assert Unlocked(s', a.provider) by {
        assert forall x | x in s'.attempts && x != id :: !HoldsLock(s, x, a.provider) && s'.attempts[x] == s.attempts[x];
      }
      var rest := StoreIsARun(s', id, faults);
      AllOrNothing(s.db, id, a.provider, a.sizeBytes, s.now, AdmittedResult(s.db, a.provider, a.sizeBytes, s.now, faults), faults);
      hide Possible, AllTimely, Run, StoreEffect, UploadEffect, Reserve, AdmittedResult, Admission, Consistent;
      RunAppend(s, first, rest);
      steps := first + rest;
    }
  }

  /**
   Whatever the quota says and whatever throws after the cleanup, an upload that runs alone is a timely run of
   the protocol with the method's effect.
   */
  lemma UploadIsARun(s: State, id: Id, p: ProviderId, sizeBytes: nat, cutoff: int, now: int, faults: Faults)
    returns (steps: seq<Step>)
    requires Inv(s) && id !in s.issued && sizeBytes > 0 && s.now <= cutoff <= now && Unlocked(s, p)
    ensures Possible(s, steps) && AllTimely(s, steps) && id !in Run(s, steps).attempts
    ensures
      var r := UploadResult(s.db, p, sizeBytes, cutoff, now, {}, faults);
      Run(s, steps).db == UploadEffect(Cleaned(s.db, p, cutoff), id, p, sizeBytes, now, r, faults)
  {
    var s1 := Apply(s, Tick(cutoff));
    var s2 := Apply(s1, Start(id, p, sizeBytes));
    var cleanup := CleanupIsARun(s2, id);
    var s3 := Run(s2, cleanup);
    var s4 := Apply(s3, Tick(now));
    assert Unlocked(s4, p) by {
      assert forall x | x in s4.attempts && x != id :: !HoldsLock(s, x, p) && s4.attempts[x] == s.attempts[x];
    }
    CleanedIsPartlyCleaned(s.db, p, cutoff);
    PartlyCleanedIsConsistent(s.db, s4.db, p, cutoff);
    NoRowNoObject(s.db, Payload(p, id));
    var rest := AdmittedIsARun(s4, id, faults);
    hide Inv, Unlocked, Possible, AllTimely, Run, Enabled, Apply, UploadEffect, Consistent, Cleaned;
    RunCons(s3, Tick(now), rest);
    RunAppend(s2, cleanup, [Tick(now)] + rest);
    steps := cleanup + ([Tick(now)] + rest);
    RunCons(s1, Start(id, p, sizeBytes), steps);
    steps := [Start(id, p, sizeBytes)] + steps;
    RunCons(s, Tick(cutoff), steps);
    steps := [Tick(cutoff)] + steps;
  }

  /**
   An upload that runs alone and meets no failure ends with its artifact row and its object if and only if the provider
   takes the file, with the artifacts and the unexpired reservations at the time of the admission as its usage.
   */
  lemma FaultFreeUpload(s: State, id: Id, p: ProviderId, sizeBytes: nat, cutoff: int, now: int) returns (steps: seq<Step>)
    requires Inv(s) && id !in s.issued && sizeBytes > 0 && s.now <= cutoff <= now && Unlocked(s, p)
    ensures Possible(s, steps) && AllTimely(s, steps)
    ensures
      var taken := Takes(s.db, p, sizeBytes, Usage(s.db, p, now));
      var last := Run(s, steps).db;
      && (UploadResult(s.db, p, sizeBytes, cutoff, now, {}, NoFaults()) == Ok(Artifact(p, sizeBytes)) <==> taken)
      && (id in last.artifacts <==> taken)
      && (taken ==> last.artifacts[id] == Artifact(p, sizeBytes) && Payload(p, id) in last.objects)
      && id !in last.reservations
  {
    steps := UploadIsARun(s, id, p, sizeBytes, cutoff, now, NoFaults());
    CleanupAndQuotaAgree(s.db, p, cutoff, now);
    AdmissionOutcome(s.db, p, sizeBytes, Usage(s.db, p, now));
    assert Admission(Cleaned(s.db, p, cutoff), p, sizeBytes, Usage(s.db, p, now)) == Admission(s.db, p, sizeBytes, Usage(s.db, p, now));
    hide Possible, AllTimely, Run, Usage;
  }

  function NoFaults(): Faults {
    Faults(false, false, false, false, false, false)
  }

  lemma CleanedIsPartlyCleaned(db: Db, p: ProviderId, cutoff: int)
    ensures PartlyCleaned(db, Cleaned(db, p, cutoff), p, cutoff)
  {
  }
}
