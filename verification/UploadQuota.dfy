/**
 The quota of a provider, statement by statement. An admission reads its two sums one after the other
 while other attempts go on; the lock on the provider's row keeps every charge out of the gap.
 */
module UploadQuota {
  import opened Wrappers
  import opened Sums
  import opened UploadProtocol

  ghost predicate WithinQuota(s: State) {
    forall p | p in s.db.providers && s.db.providers[p].quotaBytes > 0 ::
      Usage(s.db, p, s.now) <= s.db.providers[p].quotaBytes
  }

  /** What an admission has read is not less than what is true now. */
  ghost predicate CountOk(s: State, id: Id)
    requires id in s.attempts
  {
    var a := s.attempts[id];
    match a.stage
    case Timed(at) => at <= s.now
    case Summed(at, artifacts) => at <= s.now && Total(ArtifactSizes(s.db, a.provider)) <= artifacts
    case Counted(at, usage) => at <= s.now && Usage(s.db, a.provider, s.now) <= usage
    case _ => true
  }

  /** At most one admission holds a provider's row, and its sums are never too low. */
  ghost predicate LocksOk(s: State) {
    && (forall p, x, y | HoldsLock(s, x, p) && HoldsLock(s, y, p) :: x == y)
    && (forall id | id in s.attempts :: CountOk(s, id))
  }

  ghost predicate QuotaInv(s: State) {
    RowsOk(s) && LocksOk(s)
  }

  predicate HasLiveReservation(s: State, id: Id) {
    id in s.db.reservations && s.db.reservations[id].expiresAt > s.now
  }

  /** Replacing a live reservation by an artifact row of the same provider and size. */
  lemma SwapConservesUsage(db: Db, db': Db, id: Id, p: ProviderId, now: int)
    requires id in db.reservations && db.reservations[id].expiresAt > now && id !in db.artifacts && id in db'.artifacts
    requires db'.artifacts[id].provider == db.reservations[id].provider
    requires db'.artifacts[id].sizeBytes == db.reservations[id].sizeBytes
    requires db'.artifacts == db.artifacts[id := db'.artifacts[id]] && db'.reservations == db.reservations - {id}
    ensures Usage(db', p, now) == Usage(db, p, now)
  {
    var size, artifacts, live := db.reservations[id].sizeBytes, ArtifactSizes(db, p), LiveReservationSizes(db, p, now);
    if db.reservations[id].provider == p {
      TotalAdd(artifacts, id, size);
      assert ArtifactSizes(db', p) == artifacts[id := size];
      TotalRemove(live, id);
      assert LiveReservationSizes(db', p, now) == live - {id};
    } else {
      assert ArtifactSizes(db', p) == artifacts;
      assert LiveReservationSizes(db', p, now) == live;
    }
  }

  /** A commit without a live reservation adds its bytes. */
  lemma BareCommitCharges(db: Db, id: Id, a: Artifact, p: ProviderId, now: int)
    requires id !in db.artifacts && (id in db.reservations ==> db.reservations[id].expiresAt <= now)
    ensures Usage(Promote(db, id, a), p, now) == Usage(db, p, now) + if p == a.provider then a.sizeBytes else 0
  {
    var db' := Promote(db, id, a);
    assert LiveReservationSizes(db', p, now) == LiveReservationSizes(db, p, now);
    if p == a.provider {
      TotalAdd(ArtifactSizes(db, p), id, a.sizeBytes);
      assert ArtifactSizes(db', p) == ArtifactSizes(db, p)[id := a.sizeBytes];
    } else {
      assert ArtifactSizes(db', p) == ArtifactSizes(db, p);
    }
  }

  /**
   A commit moves bytes from the reservations to the artifacts of a provider and changes no sum while its
   reservation is live; a later one adds its bytes to its own provider.
   */
  lemma CommitCharges(s: State, id: Id, p: ProviderId)
    requires RowsOk(s) && Enabled(s, Commit(id))
    ensures
      var a := s.attempts[id];
      Usage(Apply(s, Commit(id)).db, p, s.now)
      == Usage(s.db, p, s.now) + if p == a.provider && !HasLiveReservation(s, id) then a.sizeBytes else 0
  {
    var a := s.attempts[id];
    assert RowOk(s, id);
    hide Usage, Unlocked;
    if HasLiveReservation(s, id) {
      SwapConservesUsage(s.db, Apply(s, Commit(id)).db, id, p, s.now);
    } else {
      BareCommitCharges(s.db, id, Artifact(a.provider, a.sizeBytes), p, s.now);
    }
  }

  /** Admission charges exactly the reserved bytes, to the one provider, until the reservation expires. */
  lemma ReserveCharges(s: State, id: Id, p: ProviderId)
    requires RowsOk(s) && Enabled(s, ReserveQuota(id))
    ensures
      var a := s.attempts[id];
      Usage(Apply(s, ReserveQuota(id)).db, p, s.now)
      == Usage(s.db, p, s.now) + if p == a.provider && s.now < a.stage.at + RESERVATION_TTL then a.sizeBytes else 0
  {
    var a := s.attempts[id];
    assert RowOk(s, id);
    ReservationCharges(s.db, id, a.provider, a.sizeBytes, a.stage.at, p, s.now);
  }

  lemma ReservationCharges(db: Db, id: Id, provider: ProviderId, sizeBytes: nat, at: int, p: ProviderId, now: int)
    requires id !in db.reservations
    ensures Usage(Reserve(db, id, provider, sizeBytes, at), p, now)
         == Usage(db, p, now) + if p == provider && now < at + RESERVATION_TTL then sizeBytes else 0
  {
    var db', live := Reserve(db, id, provider, sizeBytes, at), LiveReservationSizes(db, p, now);
    assert ArtifactSizes(db', p) == ArtifactSizes(db, p);
    if p == provider && now < at + RESERVATION_TTL {
      assert LiveReservationSizes(db', p, now) == live[id := sizeBytes];
      TotalAdd(live, id, sizeBytes);
    } else {
      assert LiveReservationSizes(db', p, now) == live;
    }
  }

  /** The provider that a step may charge. */
  predicate MayCharge(s: State, step: Step, p: ProviderId) {
    (step.Commit? || step.ReserveQuota?) && step.id in s.attempts && s.attempts[step.id].provider == p
  }

  /** No other step raises the usage of any provider, or the sum of its artifacts. */
  lemma OtherStepsNeverCharge(s: State, step: Step, p: ProviderId)
    requires RowsOk(s) && Enabled(s, step) && !MayCharge(s, step, p)
    ensures Usage(Apply(s, step).db, p, Apply(s, step).now) <= Usage(s.db, p, s.now)
    ensures Total(ArtifactSizes(Apply(s, step).db, p)) <= Total(ArtifactSizes(s.db, p))
  {
    hide Unlocked, IsBatch, Admission, Total;
    var s' := Apply(s, step);
    TotalMonotone(ArtifactSizes(s'.db, p), ArtifactSizes(s.db, p));
    TotalMonotone(LiveReservationSizes(s'.db, p, s'.now), LiveReservationSizes(s.db, p, s.now));
  }

  /** While an admission holds its provider's row, nobody else charges the provider. */
  lemma LockKeepsChargesOut(s: State, step: Step, id: Id)
    requires QuotaInv(s) && Enabled(s, step) && id in s.attempts && Admitting(s.attempts[id].stage)
    requires Actor(step) != Some(id)
    ensures !MayCharge(s, step, s.attempts[id].provider)
  {
    var p := s.attempts[id].provider;
    assert HoldsLock(s, id, p);
    assert step.ReserveQuota? && MayCharge(s, step, p) ==> HoldsLock(s, step.id, p);
  }

  lemma OthersKeepCountOk(s: State, step: Step, id: Id)
    requires QuotaInv(s) && Enabled(s, step) && id in s.attempts && Actor(step) != Some(id)
    ensures id in Apply(s, step).attempts && CountOk(Apply(s, step), id)
  {
    assert CountOk(s, id);
    if Admitting(s.attempts[id].stage) {
      LockKeepsChargesOut(s, step, id);
      hide MayCharge;
      OtherStepsNeverCharge(s, step, s.attempts[id].provider);
    }
    hide Unlocked, IsBatch, Admission, Total, Usage, ArtifactSizes, LocksOk, RowsOk;
  }

  /** The second sum completes the first: what was read is not less than the usage at that moment. */
  lemma SecondSumCompletes(s: State, id: Id)
    requires QuotaInv(s) && Enabled(s, SumReservations(id))
    ensures CountOk(Apply(s, SumReservations(id)), id)
  {
    var a := s.attempts[id];
    assert CountOk(s, id);
    TotalMonotone(LiveReservationSizes(s.db, a.provider, s.now), LiveReservationSizes(s.db, a.provider, a.stage.at));
  }

  lemma StepKeepsLocks(s: State, step: Step)
    requires QuotaInv(s) && Enabled(s, step)
    ensures QuotaInv(Apply(s, step))
  {
    var s' := Apply(s, step);
    StepKeepsRows(s, step);
    forall id | id in s'.attempts
      ensures CountOk(s', id)
    {
      if Actor(step) != Some(id) {
        OthersKeepCountOk(s, step, id);
      } else if step.SumReservations? {
        SecondSumCompletes(s, id);
      } else {
        assert id in s.attempts ==> CountOk(s, id);
      }
    }
    forall p, x, y | HoldsLock(s', x, p) && HoldsLock(s', y, p)
      ensures x == y
    {
      StillHolds(s, step, x, p);
      StillHolds(s, step, y, p);
    }
  }

  /** A lock is old, or it was granted because nobody held it. */
  lemma StillHolds(s: State, step: Step, id: Id, p: ProviderId)
    requires Enabled(s, step) && HoldsLock(Apply(s, step), id, p)
    ensures HoldsLock(s, id, p) || (step == LockProvider(id) && Unlocked(s, p))
  {
    hide IsBatch, Admission, Total, Usage, ArtifactSizes, LiveReservationSizes;
  }

  /******* What an admission decides *******/

  /** A provider takes a file when it is active and has no quota, or is below 95 percent of it and has room for the file. */
  predicate Takes(db: Db, p: ProviderId, sizeBytes: nat, usage: nat) {
    && p in db.providers && db.providers[p].isActive
    && (db.providers[p].quotaBytes <= 0
        || (100 * usage < 95 * db.providers[p].quotaBytes && usage + sizeBytes <= db.providers[p].quotaBytes))
  }

  /** The outcome of an admission and, in their order, the conditions of its refusals. */
  lemma AdmissionOutcome(db: Db, p: ProviderId, sizeBytes: nat, usage: nat)
    ensures
      var r := Admission(db, p, sizeBytes, usage);
      && (r.Ok? <==> Takes(db, p, sizeBytes, usage))
      && (r == Err(ProviderMissing) <==> p !in db.providers)
      && (r == Err(ProviderInactive) <==> p in db.providers && !db.providers[p].isActive)
      && (r == Err(QuotaExceeded) <==>
            && p in db.providers && db.providers[p].isActive
            && db.providers[p].quotaBytes > 0 && 100 * usage >= 95 * db.providers[p].quotaBytes)
      && (r == Err(FileTooLarge) <==>
            && p in db.providers && db.providers[p].isActive
            && db.providers[p].quotaBytes > 0 && 100 * usage < 95 * db.providers[p].quotaBytes
            && usage + sizeBytes > db.providers[p].quotaBytes)
  {
  }

  lemma {:induction false} RunKeepsQuotaInv(s: State, steps: seq<Step>)
    requires QuotaInv(s) && Possible(s, steps)
    ensures QuotaInv(Run(s, steps))
    decreases |steps|
  {
    if steps != [] {
      StepKeepsLocks(s, steps[0]);
      hide QuotaInv, Apply, Enabled;
      RunKeepsQuotaInv(Apply(s, steps[0]), steps[1..]);
    }
  }

  /**
   In every run from an empty installation, a step that writes a reservation ends an admission whose sums, and the true
   usage with them, are below 95 percent of a positive quota and leave room for the file. It runs for seven days.
   */
  lemma ReservationsAreAdmitted(s: State, steps: seq<Step>, step: Step, id: Id)
    requires Initial(s) && Possible(s, steps) && Enabled(Run(s, steps), step)
    requires id !in Run(s, steps).db.reservations && id in Apply(Run(s, steps), step).db.reservations
    ensures
      var last := Run(s, steps);
      && step == ReserveQuota(id) && id in last.attempts && last.attempts[id].stage.Counted?
      && var a := last.attempts[id];
      && Takes(last.db, a.provider, a.sizeBytes, a.stage.usage)
      && Takes(last.db, a.provider, a.sizeBytes, Usage(last.db, a.provider, last.now))
      && Apply(last, step).db.reservations[id] == Reservation(a.provider, a.sizeBytes, a.stage.at + 7 * 86_400_000)
  {
    EmptyIsWithinQuota(s);
    RunKeepsQuotaInv(s, steps);
    var last := Run(s, steps);
    hide Run, Possible, Usage;
    assert step == ReserveQuota(id);
    var a := last.attempts[id];
    assert CountOk(last, id);
    AdmissionOutcome(last.db, a.provider, a.sizeBytes, a.stage.usage);
  }

  /** A commit fits when its reservation is still live, or the bytes that it adds do. */
  ghost predicate Fits(s: State, step: Step) {
    step.Commit? && step.id in s.attempts ==>
      var a := s.attempts[step.id];
      a.provider in s.db.providers && s.db.providers[a.provider].quotaBytes > 0 && !HasLiveReservation(s, step.id) ==>
        Usage(s.db, a.provider, s.now) + a.sizeBytes <= s.db.providers[a.provider].quotaBytes
  }

  /** The only step that can exceed a quota is a commit that does not fit. */
  lemma StepKeepsQuotaIff(s: State, step: Step)
    requires QuotaInv(s) && WithinQuota(s) && Enabled(s, step)
    ensures WithinQuota(Apply(s, step)) <==> Fits(s, step)
    ensures Apply(s, step).db.providers == s.db.providers
  {
    var s' := Apply(s, step);
    assert s'.db.providers == s.db.providers;
    forall p | p in s.db.providers && s.db.providers[p].quotaBytes > 0
      ensures
        Usage(s'.db, p, s'.now) <= s.db.providers[p].quotaBytes
        <==> (MayCharge(s, step, p) ==> Fits(s, step))
    {
      if MayCharge(s, step, p) {
        if step.Commit? {
          CommitCharges(s, step.id, p);
        } else {
          ReserveCharges(s, step.id, p);
          assert CountOk(s, step.id);
        }
      } else {
        OtherStepsNeverCharge(s, step, p);
      }
    }
    hide Usage, LocksOk, RowsOk;
    if !Fits(s, step) {
      assert MayCharge(s, step, s.attempts[step.id].provider);
    }
  }

  ghost predicate AlwaysWithinQuota(s: State, steps: seq<Step>)
    requires Possible(s, steps)
    decreases |steps|
  {
    WithinQuota(s) && (steps != [] ==> AlwaysWithinQuota(Apply(s, steps[0]), steps[1..]))
  }

  ghost predicate AllFit(s: State, steps: seq<Step>)
    requires Possible(s, steps)
    decreases |steps|
  {
    steps == [] || (Fits(s, steps[0]) && AllFit(Apply(s, steps[0]), steps[1..]))
  }

  /**
   In every run, timely or not, with all admissions and commits interleaved statement by statement: artifacts
   and unexpired reservations never exceed a positive quota if and only if every commit fits.
   */
  lemma {:induction false} QuotaKeptIff(s: State, steps: seq<Step>)
    requires QuotaInv(s) && WithinQuota(s) && Possible(s, steps)
    ensures AlwaysWithinQuota(s, steps) <==> AllFit(s, steps)
    decreases |steps|
  {
    if steps != [] {
      hide QuotaInv, WithinQuota, Enabled, Apply, Fits;
      StepKeepsLocks(s, steps[0]);
      StepKeepsQuotaIff(s, steps[0]);
      var s', rest := Apply(s, steps[0]), steps[1..];
      if WithinQuota(s') {
        QuotaKeptIff(s', rest);
      } else {
        assert !AlwaysWithinQuota(s', rest);
      }
    }
  }

  /** Timely commits fit: their reservations are live. */
  lemma {:induction false} TimelyRunFits(s: State, steps: seq<Step>)
    requires RowsOk(s) && Possible(s, steps) && AllTimely(s, steps)
    ensures AllFit(s, steps)
    decreases |steps|
  {
    if steps != [] {
      if steps[0].Commit? {
        assert RowOk(s, steps[0].id);
      }
      StepKeepsRows(s, steps[0]);
      hide RowsOk, Apply, RowOk, Usage;
      TimelyRunFits(Apply(s, steps[0]), steps[1..]);
    }
  }

  lemma {:induction false} EndsWithinQuota(s: State, steps: seq<Step>)
    requires Possible(s, steps) && AlwaysWithinQuota(s, steps)
    ensures WithinQuota(Run(s, steps))
    decreases |steps|
  {
    if steps != [] {
      EndsWithinQuota(Apply(s, steps[0]), steps[1..]);
    }
  }

  /** An empty installation without attempts is within every positive quota. */
  lemma EmptyIsWithinQuota(s: State)
    requires Initial(s)
    ensures QuotaInv(s) && WithinQuota(s)
  {
    forall p
      ensures Usage(s.db, p, s.now) == 0
    {
      assert ArtifactSizes(s.db, p) == map[] && LiveReservationSizes(s.db, p, s.now) == map[];
    }
  }

  /** No timely run ever exceeds a positive quota, at any moment. */
  lemma QuotaNeverExceeded(s: State, steps: seq<Step>)
    requires QuotaInv(s) && WithinQuota(s) && Possible(s, steps) && AllTimely(s, steps)
    ensures AlwaysWithinQuota(s, steps) && WithinQuota(Run(s, steps))
  {
    TimelyRunFits(s, steps);
    QuotaKeptIff(s, steps);
    EndsWithinQuota(s, steps);
  }
}
