/**
 One upload of the artifact service, statement by statement, on the tables and object stores it
 updates in place. Each statement has the effect of one step of the upload protocol.
 */
module ArtifactStore {
  import opened Wrappers
  import opened Sums
  import opened UploadProtocol
  import opened UploadQuota

  datatype UploadError =
    | Rejected(reason: AdmissionError)
    | CleanupFailed
    | UploadInterrupted

  /** Which calls into storage or the database throw during one upload. */
  datatype Faults = Faults(
    hashing: bool, upload: bool, keyChanged: bool, commit: bool, compensation: bool, release: bool)

  /** The batch holds the oldest of the expired rows in order, and `rest` the others. */
  predicate Selected(reservations: map<Id, Reservation>, expired: set<Id>, batch: seq<Id>, rest: set<Id>)
    requires expired <= reservations.Keys
  {
    && rest <= expired && |batch| + |rest| == |expired|
    && (forall x | x in expired :: x in rest || x in batch)
    && (forall i | 0 <= i < |batch| :: batch[i] in expired && batch[i] !in rest)
    && (forall i, j | 0 <= i < j < |batch| :: batch[i] != batch[j] && NoLater(reservations, batch[i], batch[j]))
    && (forall i, x | 0 <= i < |batch| && x in rest :: NoLater(reservations, batch[i], x))
  }

  /** Both rows are there and the first expires no later than the second. */
  predicate NoLater(reservations: map<Id, Reservation>, x: Id, y: Id) {
    x in reservations && y in reservations && reservations[x].expiresAt <= reservations[y].expiresAt
  }

  predicate IsOldest(reservations: map<Id, Reservation>, ids: set<Id>, id: Id) {
    id in ids && forall y | y in ids :: NoLater(reservations, id, y)
  }

  lemma {:induction false} OldestExists(reservations: map<Id, Reservation>, ids: set<Id>) returns (id: Id)
    requires ids != {} && ids <= reservations.Keys
    ensures IsOldest(reservations, ids, id)
  {
    var x :| x in ids;
    id := x;
    if ids != {x} {
      var m := OldestExists(reservations, ids - {x});
      id := if NoLater(reservations, x, m) then x else m;
      assert forall y | y in ids :: y == x || y in ids - {x};
    }
  }

  lemma SelectedGrows(reservations: map<Id, Reservation>, expired: set<Id>, batch: seq<Id>, rest: set<Id>, id: Id)
    requires expired <= reservations.Keys && Selected(reservations, expired, batch, rest)
    requires IsOldest(reservations, rest, id)
    ensures Selected(reservations, expired, batch + [id], rest - {id})
  {
    hide NoLater;
    var more := batch + [id];
    assert more[|batch|] == id && forall i | 0 <= i < |batch| :: more[i] == batch[i];
    assert id in more && forall x | x in batch :: x in more;
  }

  class Store {
    var providers: map<ProviderId, Provider>
    var artifacts: map<Id, Artifact>
    var reservations: map<Id, Reservation>
    var objects: set<ObjectKey>

    constructor (providers: map<ProviderId, Provider>)
      ensures Contents() == Db(providers, map[], map[], {})
    {
      this.providers := providers;
      artifacts, reservations, objects := map[], map[], {};
    }

    function Contents(): Db
      reads this
    {
      Db(providers, artifacts, reservations, objects)
    }

    /** SELECT sum(size_bytes) over the selected rows. */
    static method SumSizes(sizes: map<Id, nat>) returns (total: nat)
      ensures total == Total(sizes)
    {
      var rest := sizes;
      total := 0;
      while rest != map[]
        invariant total + Total(rest) == Total(sizes)
        decreases |rest|
      {
        var id :| id in rest;
        TotalRemove(rest, id);
        total := total + rest[id];
        rest := rest - {id};
      }
    }

    method ReserveQuota(id: Id, p: ProviderId, sizeBytes: nat, now: int) returns (r: Result<(), AdmissionError>)
      modifies this`reservations
      ensures r == Admission(old(Contents()), p, sizeBytes, Usage(old(Contents()), p, now))
      ensures r.Ok? <==> Takes(old(Contents()), p, sizeBytes, Usage(old(Contents()), p, now))
      ensures Contents() == if r.Ok? then Reserve(old(Contents()), id, p, sizeBytes, now) else old(Contents())
    {
      if p !in providers {
        return Err(ProviderMissing);
      }
      if !providers[p].isActive {
        return Err(ProviderInactive);
      }
      var artifactsUsage := SumSizes(ArtifactSizes(Contents(), p));
      var reservationsUsage := SumSizes(LiveReservationSizes(Contents(), p, now));
      var currentUsage := artifactsUsage + reservationsUsage;
      var quota := providers[p].quotaBytes;
      if quota > 0 {
        if currentUsage * 100 >= 95 * quota {
          return Err(QuotaExceeded);
        }
        if currentUsage + sizeBytes > quota {
          return Err(FileTooLarge);
        }
      }
      reservations := reservations[id := Reservation(p, sizeBytes, now + RESERVATION_TTL)];
      return Ok(());
    }

    /** SELECT ... WHERE expires_at <= now ORDER BY expires_at LIMIT 100. */
    method SelectExpired(p: ProviderId, cutoff: int) returns (batch: seq<Id>)
      ensures IsBatch(Contents(), p, cutoff, batch) && |batch| <= 100
    {
      var expired := Expired(Contents(), p, cutoff);
      var rest := expired;
      batch := [];
      while |batch| < CLEANUP_BATCH && rest != {}
        invariant |batch| <= CLEANUP_BATCH
        invariant Selected(reservations, expired, batch, rest)
        decreases rest
      {
        ghost var oldest := OldestExists(reservations, rest);
        var id :| IsOldest(reservations, rest, id);
        SelectedGrows(reservations, expired, batch, rest, id);
        batch := batch + [id];
        rest := rest - {id};
      }
    }

    /**
     Retries the cleanup of abandoned uploads, batch by batch, until nothing that expired at the
     fixed time `now` is left. Deleting an object in `unreachable` throws and ends the method.
     */
    method CleanupExpiredReservations(p: ProviderId, now: int, unreachable: set<Id>) returns (ok: bool)
      modifies this`reservations, this`objects
      ensures ok <==> Expired(old(Contents()), p, now) !! unreachable
      ensures ok ==> Contents() == Cleaned(old(Contents()), p, now)
      ensures PartlyCleaned(old(Contents()), Contents(), p, now)
    {
      hide PartlyCleaned, IsBatch, Cleaned;
      ghost var before := Contents();
      NothingCleanedYet(before, p, now);
      while true
        invariant PartlyCleaned(before, Contents(), p, now)
        invariant Expired(before, p, now) - Expired(Contents(), p, now) !! unreachable
        decreases |Expired(Contents(), p, now)|
      {
        var expired := SelectExpired(p, now);
        BatchMembers(Contents(), p, now, expired);
        ghost var stale := Expired(Contents(), p, now);
        if |expired| == 0 {
          NothingLeftMeansCleaned(before, Contents(), p, now);
          return true;
        }
        var i := 0;
        while i < |expired|
          invariant 0 <= i <= |expired|
          invariant stale == Expired(Contents(), p, now)
          invariant PartlyCleaned(before, Contents(), p, now)
          invariant forall j | 0 <= j < i :: expired[j] !in unreachable && Payload(p, expired[j]) !in objects
        {
          StillExpired(before, Contents(), p, now, expired[i]);
          if expired[i] in unreachable {
            return false;
          }
          ObjectDeleted(before, Contents(), p, now, expired[i]);
          objects := objects - {Payload(p, expired[i])};
          i := i + 1;
        }
        RowsDeleted(before, Contents(), p, now, expired);
        reservations := reservations - (SetOf(expired) * Expired(Contents(), p, now));
        ProperSubsetIsSmaller(Expired(Contents(), p, now), stale);
        assert expired[0] in stale && expired[0] !in Expired(Contents(), p, now);
      }
    }

    /** The part of an upload that follows its reservation: store, commit, and undo on failure. */
    method StoreReserved(id: Id, p: ProviderId, sizeBytes: nat, faults: Faults) returns (ok: bool)
      modifies this`artifacts, this`reservations, this`objects
      ensures ok <==> !faults.hashing && !faults.upload && !faults.keyChanged && !faults.commit
      ensures Contents() == StoreEffect(old(Contents()), id, p, sizeBytes, faults)
    {
      var objectStored := false;
      if !faults.hashing && !faults.upload {
        objects := objects + {Payload(p, id)};
        objectStored := true;
        if !faults.keyChanged && !faults.commit {
          artifacts := artifacts[id := Artifact(p, sizeBytes)];
          reservations := reservations - {id};
          return true;
        }
      }
      var cleanupSucceeded := !objectStored;
      if objectStored && !faults.compensation {
        objects := objects - {Payload(p, id)};
        cleanupSucceeded := true;
      }
      if cleanupSucceeded && !faults.release {
        reservations := reservations - {id};
      }
      return false;
    }

    /**
     One upload after its metadata was validated; `id` is a fresh UUID. The cleanup takes its time at its
     start and the admission takes its own under the lock. The upload succeeds exactly when nothing throws
     and the quota admits it, and its effect is all or nothing.
     */
    method UploadArtifact(id: Id, p: ProviderId, sizeBytes: nat, cutoff: int, now: int, unreachable: set<Id>, faults: Faults)
      returns (r: Result<Artifact, UploadError>)
      requires id !in artifacts && id !in reservations && Payload(p, id) !in objects
      requires Consistent(Contents())
      modifies this
      ensures Consistent(Contents())
      ensures r == UploadResult(old(Contents()), p, sizeBytes, cutoff, now, unreachable, faults)
      ensures r == Err(CleanupFailed) ==> PartlyCleaned(old(Contents()), Contents(), p, cutoff)
      ensures r != Err(CleanupFailed) ==>
                Contents() == UploadEffect(Cleaned(old(Contents()), p, cutoff), id, p, sizeBytes, now, r, faults)
    {
      ghost var before := Contents();
      var cleanedUp := CleanupExpiredReservations(p, cutoff, unreachable);
      PartlyCleanedIsConsistent(before, Contents(), p, cutoff);
      if !cleanedUp {
        return Err(CleanupFailed);
      }
      ghost var cleaned := Contents();
      var admitted := ReserveQuota(id, p, sizeBytes, now);
      if admitted.Err? {
        return Err(Rejected(admitted.error));
      }
      var ok := StoreReserved(id, p, sizeBytes, faults);
      r := if ok then Ok(Artifact(p, sizeBytes)) else Err(UploadInterrupted);
      AllOrNothing(cleaned, id, p, sizeBytes, now, r, faults);
    }
  }

  /** The outcome of an upload as a function of the database and of what throws. */
  ghost function UploadResult(
    db: Db, p: ProviderId, sizeBytes: nat, cutoff: int, now: int, unreachable: set<Id>, faults: Faults)
    : Result<Artifact, UploadError>
  {
    if !(Expired(db, p, cutoff) !! unreachable) then Err(CleanupFailed)
    else AdmittedResult(Cleaned(db, p, cutoff), p, sizeBytes, now, faults)
  }

  ghost function AdmittedResult(cleaned: Db, p: ProviderId, sizeBytes: nat, now: int, faults: Faults)
    : Result<Artifact, UploadError>
  {
    var admission := Admission(cleaned, p, sizeBytes, Usage(cleaned, p, now));
    if admission.Err? then Err(Rejected(admission.error))
    else if faults.hashing || faults.upload || faults.keyChanged || faults.commit then Err(UploadInterrupted)
    else Ok(Artifact(p, sizeBytes))
  }

  /** The branches that follow a reservation, as a chain of protocol effects. */
  function StoreEffect(reserved: Db, id: Id, p: ProviderId, sizeBytes: nat, faults: Faults): Db {
    var key := Payload(p, id);
    if faults.hashing || faults.upload then
      if faults.release then reserved else Release(reserved, id)
    else if !faults.keyChanged && !faults.commit then Promote(PutObject(reserved, key), id, Artifact(p, sizeBytes))
    else if faults.compensation then PutObject(reserved, key)
    else
      var undone := DeleteObject(PutObject(reserved, key), key);
      if faults.release then undone else Release(undone, id)
  }

  /**
   What an upload leaves behind. Success adds one artifact row and its object. A failed upload
   leaves nothing at all, except that a failed compensation keeps object and reservation together
   and a failed release keeps the reservation alone; both are found by a later cleanup.
   */
  function UploadEffect(cleaned: Db, id: Id, p: ProviderId, sizeBytes: nat, now: int,
                        r: Result<Artifact, UploadError>, faults: Faults): Db {
    var reserved := Reserve(cleaned, id, p, sizeBytes, now);
    if r.Ok? then cleaned.(artifacts := cleaned.artifacts[id := r.value],
                           objects := cleaned.objects + {Payload(p, id)})
    else if !r.error.UploadInterrupted? then cleaned
    else if !faults.hashing && !faults.upload && faults.compensation then PutObject(reserved, Payload(p, id))
    else if faults.release then reserved
    else cleaned
  }

  /** The chain of effects of an admitted upload collapses to one of four outcomes, each consistent. */
  lemma AllOrNothing(cleaned: Db, id: Id, p: ProviderId, sizeBytes: nat, now: int,
                     r: Result<Artifact, UploadError>, faults: Faults)
    requires Consistent(cleaned)
    requires id !in cleaned.artifacts && id !in cleaned.reservations && Payload(p, id) !in cleaned.objects
    requires r == if faults.hashing || faults.upload || faults.keyChanged || faults.commit
                  then Err(UploadInterrupted) else Ok(Artifact(p, sizeBytes))
    ensures var final := UploadEffect(cleaned, id, p, sizeBytes, now, r, faults);
            Consistent(final) && StoreEffect(Reserve(cleaned, id, p, sizeBytes, now), id, p, sizeBytes, faults) == final
  {
  }

  function Cleaned(db: Db, p: ProviderId, now: int): Db {
    var stale := Expired(db, p, now);
    db.(reservations := db.reservations - stale, objects := set key | key in db.objects && !(key.provider == p && key.id in stale))
  }

  /** Between `before` and its cleaned form: only expired rows and their objects may be gone, objects first. */
  ghost predicate PartlyCleaned(before: Db, after: Db, p: ProviderId, now: int) {
    && after.providers == before.providers
    && after.artifacts == before.artifacts
    && after.reservations.Keys <= before.reservations.Keys
    && (forall id | id in after.reservations :: after.reservations[id] == before.reservations[id])
    && before.reservations.Keys - after.reservations.Keys <= Expired(before, p, now)
    && after.objects <= before.objects
    && (forall key | key in before.objects && key !in after.objects :: key.provider == p && key.id in Expired(before, p, now))
    && (forall id | id in before.reservations && id !in after.reservations :: Payload(p, id) !in after.objects)
  }

  /** A cleanup takes exactly the provider's reservations that have expired by its time, and the objects under them. */
  lemma CleanedExactly(db: Db, p: ProviderId, now: int, id: Id, key: ObjectKey)
    ensures
      var cleaned := Cleaned(db, p, now);
      && (id in cleaned.reservations <==>
            id in db.reservations && (db.reservations[id].provider != p || now < db.reservations[id].expiresAt))
      && (id in cleaned.reservations ==> cleaned.reservations[id] == db.reservations[id])
      && (key in cleaned.objects <==>
            && key in db.objects
            && !(&& key.provider == p && key.id in db.reservations
                 && db.reservations[key.id].provider == p && db.reservations[key.id].expiresAt <= now))
      && cleaned.artifacts == db.artifacts && cleaned.providers == db.providers
  {
  }

  /** Cleanup and quota agree on what has expired: every reservation that a cleanup leaves is charged, and no charge is lost. */
  lemma CleanupAndQuotaAgree(db: Db, p: ProviderId, cutoff: int, now: int)
    requires cutoff <= now
    ensures Usage(Cleaned(db, p, cutoff), p, now) == Usage(db, p, now)
    ensures
      var left := Cleaned(db, p, cutoff).reservations;
      LiveReservationSizes(Cleaned(db, p, cutoff), p, cutoff)
      == map id | id in left && left[id].provider == p :: left[id].sizeBytes
  {
    assert LiveReservationSizes(Cleaned(db, p, cutoff), p, now) == LiveReservationSizes(db, p, now);
    assert ArtifactSizes(Cleaned(db, p, cutoff), p) == ArtifactSizes(db, p);
  }

  lemma NothingLeftMeansCleaned(before: Db, after: Db, p: ProviderId, now: int)
    requires PartlyCleaned(before, after, p, now) && Expired(after, p, now) == {}
    ensures after == Cleaned(before, p, now)
  {
    var stale := Expired(before, p, now);
    forall id | id in stale
      ensures id !in after.reservations && Payload(p, id) !in after.objects
    {
      assert id in after.reservations ==> id in Expired(after, p, now);
    }
    assert after.reservations == before.reservations - stale;
    assert after.objects == Cleaned(before, p, now).objects;
  }

  lemma NothingCleanedYet(db: Db, p: ProviderId, now: int)
    ensures PartlyCleaned(db, db, p, now)
  {
  }

  lemma BatchMembers(db: Db, p: ProviderId, now: int, batch: seq<Id>)
    requires IsBatch(db, p, now, batch)
    ensures forall i | 0 <= i < |batch| :: batch[i] in Expired(db, p, now)
    ensures batch == [] ==> Expired(db, p, now) == {}
  {
  }

  lemma StillExpired(before: Db, after: Db, p: ProviderId, now: int, id: Id)
    requires PartlyCleaned(before, after, p, now) && id in Expired(after, p, now)
    ensures id in Expired(before, p, now)
  {
  }

  lemma ObjectDeleted(before: Db, after: Db, p: ProviderId, now: int, id: Id)
    requires PartlyCleaned(before, after, p, now) && id in Expired(after, p, now)
    ensures PartlyCleaned(before, DeleteObject(after, Payload(p, id)), p, now)
  {
  }

  lemma RowsDeleted(before: Db, after: Db, p: ProviderId, now: int, batch: seq<Id>)
    requires PartlyCleaned(before, after, p, now)
    requires forall i | 0 <= i < |batch| :: Payload(p, batch[i]) !in after.objects
    ensures PartlyCleaned(before, DeleteExpired(after, p, SetOf(batch), now), p, now)
  {
  }

  lemma PartlyCleanedIsConsistent(before: Db, after: Db, p: ProviderId, now: int)
    requires Consistent(before) && PartlyCleaned(before, after, p, now)
    ensures Consistent(after)
  {
    forall id | id in after.artifacts
      ensures Payload(after.artifacts[id].provider, id) in after.objects
    {
      assert id in before.artifacts && id !in before.reservations;
    }
    forall key | key in after.objects && key.id !in after.artifacts
      ensures key.id in after.reservations
    {
      assert key in before.objects && key.id in before.reservations;
      assert key.id in Expired(before, p, now) ==> key.provider == p ==> key == Payload(p, key.id);
    }
  }
}
