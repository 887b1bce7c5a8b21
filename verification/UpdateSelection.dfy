/**
 Which release an updater client is offered: the newest eligible artifact, the update check
 against the client's version, the pages of the release listing, and the version filter of the
 administration pages, all against one order of versions.
 */
module UpdateSelection {
  import opened Wrappers
  import opened ReleaseVisibility
  import SemVer

  /** What a client asks for, once its software, platform and architecture are resolved. */
  datatype Query = Query(software: Id, platform: Id, architecture: Id, channel: string)

  predicate Eligible(db: Db, q: Query, id: Id) {
    && Public(db, id)
    && db.versions[db.artifacts[id].version].software == q.software
    && db.artifacts[id].platform == q.platform
    && db.artifacts[id].architecture == q.architecture
    && db.artifacts[id].channel == q.channel
  }

  function EligibleIds(db: Db, q: Query): set<Id> {
    set id | id in db.artifacts && Eligible(db, q, id)
  }

  function VersionOf(db: Db, id: Id): SemVer.Version
    requires id in db.artifacts && HasVersion(db, db.artifacts[id])
  {
    var v := db.versions[db.artifacts[id].version];
    SemVer.Release(v.major, v.minor, v.patch)
  }

  /** The unique constraint uq_versions_software_semver. */
  predicate UniqueVersions(versions: map<Id, Version>) {
    forall i, j | i in versions && j in versions && SameNumbers(versions[i], versions[j]) :: i == j
  }

  predicate SameNumbers(v: Version, w: Version) {
    v.software == w.software && v.major == w.major && v.minor == w.minor && v.patch == w.patch
  }

  /** With the unique constraint uq_artifacts_system_channel. */
  predicate Unique(db: Db) {
    && UniqueVersions(db.versions)
    && UniqueArtifacts(db.artifacts)
  }

  predicate UniqueArtifacts(artifacts: map<Id, Artifact>) {
    forall i, j | i in artifacts && j in artifacts && SameSlot(artifacts[i], artifacts[j]) :: i == j
  }

  predicate SameSlot(a: Artifact, b: Artifact) {
    a.version == b.version && a.platform == b.platform && a.architecture == b.architecture && a.channel == b.channel
  }

  lemma EligibleDiffer(db: Db, q: Query, i: Id, j: Id)
    requires Unique(db) && Eligible(db, q, i) && Eligible(db, q, j) && VersionOf(db, i) == VersionOf(db, j)
    ensures i == j
  {
    assert SameNumbers(db.versions[db.artifacts[i].version], db.versions[db.artifacts[j].version]);
    assert SameSlot(db.artifacts[i], db.artifacts[j]);
  }

  ghost predicate Rows(db: Db, ids: set<Id>) {
    forall id | id in ids :: id in db.artifacts && HasVersion(db, db.artifacts[id])
  }

  /******* The newest release and the update check *******/

  /** No row of the set is newer: the ways in which major, minor and patch, descending, put a row first. */
  ghost predicate Newest(db: Db, ids: set<Id>, id: Id)
    requires Rows(db, ids)
  {
    id in ids && forall j | j in ids :: !SemVer.CoreLess(VersionOf(db, id), VersionOf(db, j))
  }

  lemma {:induction false} NewestExists(db: Db, ids: set<Id>)
    requires Rows(db, ids) && ids != {}
    ensures exists id :: Newest(db, ids, id)
    decreases |ids|
  {
    var some :| some in ids;
    var rest := ids - {some};
    if rest == {} {
      assert ids == {some};
      assert Newest(db, ids, some);
    } else {
      NewestExists(db, rest);
      var best :| Newest(db, rest, best);
      if SemVer.CoreLess(VersionOf(db, best), VersionOf(db, some)) {
        assert Newest(db, ids, some);
      } else {
        assert Newest(db, ids, best);
      }
    }
  }

  /** `ORDER BY major DESC, minor DESC, patch DESC LIMIT 1`; ties would be broken arbitrarily. */
  ghost function First(db: Db, ids: set<Id>): (first: Option<Id>)
    requires Rows(db, ids)
    ensures first.None? <==> ids == {}
    ensures first.Some? ==> Newest(db, ids, first.value)
  {
    if ids == {} then None
    else
      NewestExists(db, ids);
      var id :| Newest(db, ids, id);
      Some(id)
  }

  ghost function GetLatest(db: Db, q: Query): Option<Id> {
    First(db, EligibleIds(db, q))
  }

  /** The WHERE clause of the update check. */
  predicate NewerThanClient(current: SemVer.Version, v: SemVer.Version) {
    || v.major > current.major
    || (v.major == current.major && v.minor > current.minor)
    || (v.major == current.major && v.minor == current.minor && v.patch > current.patch)
    || (current.prerelease != [] && v.major == current.major && v.minor == current.minor && v.patch == current.patch)
  }

  ghost function CheckForUpdate(db: Db, q: Query, current: SemVer.Version): Option<Id> {
    First(db, set id | id in EligibleIds(db, q) && NewerThanClient(current, VersionOf(db, id)))
  }

  /** The WHERE clause selects exactly the releases that come after the client's version. */
  lemma NewerIsPrecedence(current: SemVer.Version, v: SemVer.Version)
    requires v.prerelease == []
    ensures NewerThanClient(current, v) <==> SemVer.Less(current, v)
  {
  }

  /**
   The update check offers an artifact exactly when the latest release comes after the client's
   version; it then offers that release.
   */
  lemma UpdateIsTheLatestWhenNewer(db: Db, q: Query, current: SemVer.Version)
    requires Unique(db)
    ensures
      var latest := GetLatest(db, q);
      CheckForUpdate(db, q, current)
      == if latest.Some? && SemVer.Less(current, VersionOf(db, latest.value)) then latest else None
  {
    var ids := EligibleIds(db, q);
    var newer := set id | id in ids && NewerThanClient(current, VersionOf(db, id));
    var latest, update := GetLatest(db, q), CheckForUpdate(db, q, current);
    if latest.Some? {
      var top := latest.value;
      NewerIsPrecedence(current, VersionOf(db, top));
      if top in newer {
        EligibleDiffer(db, q, top, update.value);
      } else {
        forall id | id in ids
          ensures id !in newer
        {
          NewerIsPrecedence(current, VersionOf(db, id));
          SemVer.PrecedenceIsTotalOrder(current, VersionOf(db, id), VersionOf(db, top));
        }
        assert newer == {};
      }
    } else {
      assert newer == {};
    }
  }

  /** A client that installed the offered release is offered nothing more. */
  lemma UpdatedClientIsCurrent(db: Db, q: Query, current: SemVer.Version)
    requires Unique(db) && CheckForUpdate(db, q, current).Some?
    ensures CheckForUpdate(db, q, VersionOf(db, CheckForUpdate(db, q, current).value)) == None
  {
  }

  /******* Requests by name *******/

  predicate Named(targets: map<Id, Target>, name: string, id: Id) {
    id in targets && !targets[id].isDeleted && targets[id].name == name
  }

  /** Platform and architecture names are unique. */
  ghost function FindByName(targets: map<Id, Target>, name: string): (found: Option<Id>)
    ensures found.Some? ==> Named(targets, name, found.value)
    ensures found.None? ==> forall id :: !Named(targets, name, id)
  {
    if exists id :: Named(targets, name, id) then
      var id :| Named(targets, name, id);
      Some(id)
    else None
  }

  datatype Failure = InvalidVersion | SoftwareMissing | TargetMissing

  /** `software` is the active product that the slug or the default names, `version` the parsed client version. */
  ghost function Check(
    db: Db, software: Option<Id>, platform: string, architecture: string, version: Option<SemVer.Version>, channel: string)
    : Result<Option<Id>, Failure>
  {
    var p, a := FindByName(db.platforms, platform), FindByName(db.architectures, architecture);
    if version.None? then Err(InvalidVersion)
    else if software.None? then Err(SoftwareMissing)
    else if p.None? || a.None? then Err(TargetMissing)
    else Ok(CheckForUpdate(db, Query(software.value, p.value, a.value, channel), version.value))
  }

  /** An unknown platform or architecture has no release; it is not an error here. */
  ghost function Latest(db: Db, software: Option<Id>, platform: string, architecture: string, channel: string)
    : Result<Option<Id>, Failure>
  {
    var p, a := FindByName(db.platforms, platform), FindByName(db.architectures, architecture);
    if software.None? then Err(SoftwareMissing)
    else if p.None? || a.None? then Ok(None)
    else Ok(GetLatest(db, Query(software.value, p.value, a.value, channel)))
  }

  /**
   The two endpoints agree: a check with a parsed version fails exactly when the product is
   missing, or when a target is unknown, for which there is no latest release either. Otherwise
   it offers the latest release exactly when the other endpoint reports `hasUpdate`.
   */
  lemma CheckAgreesWithLatest(
    db: Db, software: Option<Id>, platform: string, architecture: string, version: SemVer.Version, channel: string)
    requires Unique(db)
    ensures
      var check := Check(db, software, platform, architecture, Some(version), channel);
      var latest := Latest(db, software, platform, architecture, channel);
      match check
      case Err(failure) => if failure.TargetMissing? then latest == Ok(None) else latest == Err(failure)
      case Ok(offered) =>
        && latest.Ok?
        && (latest.value.Some? ==> latest.value.value in db.artifacts && HasVersion(db, db.artifacts[latest.value.value]))
        && offered == if latest.value.Some? && SemVer.Less(version, VersionOf(db, latest.value.value)) then latest.value else None
  {
    var p, a := FindByName(db.platforms, platform), FindByName(db.architectures, architecture);
    if software.Some? && p.Some? && a.Some? {
      UpdateIsTheLatestWhenNewer(db, Query(software.value, p.value, a.value, channel), version);
    }
  }

  /** The artifact is public and is for exactly this product, platform, architecture and channel, by name. */
  predicate IsFor(db: Db, id: Id, software: Id, platform: string, architecture: string, channel: string) {
    && Public(db, id)
    && var a := db.artifacts[id];
    && db.versions[a.version].software == software
    && db.platforms[a.platform].name == platform
    && db.architectures[a.architecture].name == architecture
    && a.channel == channel
  }

  /** Whatever the two endpoints offer is for what was asked; and something is offered for everything that a public artifact is for. */
  lemma OfferedIsAsked(
    db: Db, software: Id, platform: string, architecture: string, version: SemVer.Version, channel: string)
    ensures
      var check := Check(db, Some(software), platform, architecture, Some(version), channel);
      check.Ok? && check.value.Some? ==>
        IsFor(db, check.value.value, software, platform, architecture, channel)
        && SemVer.Less(version, VersionOf(db, check.value.value))
    ensures
      var latest := Latest(db, Some(software), platform, architecture, channel);
      latest.Ok? && latest.value.Some? ==> IsFor(db, latest.value.value, software, platform, architecture, channel)
  {
    hide Public;
    var p, a := FindByName(db.platforms, platform), FindByName(db.architectures, architecture);
    if p.Some? && a.Some? {
      var q := Query(software, p.value, a.value, channel);
      var offered := CheckForUpdate(db, q, version);
      assert offered.Some? ==> Eligible(db, q, offered.value);
      assert GetLatest(db, q).Some? ==> Eligible(db, q, GetLatest(db, q).value);
      if offered.Some? {
        PublicHasVersion(db, offered.value);
        NewerIsPrecedence(version, VersionOf(db, offered.value));
      }
    }
  }

  /** A platform or architecture of the name that is not deleted. */
  predicate IsKnown(targets: map<Id, Target>, name: string) {
    exists id :: id in targets && !targets[id].isDeleted && targets[id].name == name
  }

  lemma FoundIfKnown(targets: map<Id, Target>, name: string)
    ensures FindByName(targets, name).Some? <==> IsKnown(targets, name)
  {
    if id :| id in targets && !targets[id].isDeleted && targets[id].name == name {
      assert Named(targets, name, id);
    }
  }

  /** When the check fails, in the order of its answers. */
  lemma CheckFails(
    db: Db, software: Option<Id>, platform: string, architecture: string, version: Option<SemVer.Version>, channel: string)
    ensures
      var check := Check(db, software, platform, architecture, version, channel);
      var known := IsKnown(db.platforms, platform) && IsKnown(db.architectures, architecture);
      && (check == Err(InvalidVersion) <==> version.None?)
      && (check == Err(SoftwareMissing) <==> version.Some? && software.None?)
      && (check == Err(TargetMissing) <==> version.Some? && software.Some? && !known)
      && (check.Ok? <==> version.Some? && software.Some? && known)
  {
    FoundIfKnown(db.platforms, platform);
    FoundIfKnown(db.architectures, architecture);
  }

  /** Target names are unique, as the database demands of them. */
  predicate UniqueNames(targets: map<Id, Target>) {
    forall i, j | i in targets && j in targets && targets[i].name == targets[j].name :: i == j
  }

  /** A public artifact newer than the client, for what the client asks, makes the check offer a release at least as new. */
  lemma NewerIsOffered(
    db: Db, software: Id, platform: string, architecture: string, version: SemVer.Version, channel: string, id: Id)
    requires UniqueNames(db.platforms) && UniqueNames(db.architectures)
    requires IsFor(db, id, software, platform, architecture, channel) && SemVer.Less(version, VersionOf(db, id))
    ensures
      var check := Check(db, Some(software), platform, architecture, Some(version), channel);
      && check.Ok? && check.value.Some?
      && check.value.value in db.artifacts && HasVersion(db, db.artifacts[check.value.value])
      && !SemVer.CoreLess(VersionOf(db, check.value.value), VersionOf(db, id))
  {
    hide Public;
    PublicHasVersion(db, id);
    var p, a := FindByName(db.platforms, platform), FindByName(db.architectures, architecture);
    assert Named(db.platforms, platform, db.artifacts[id].platform);
    assert Named(db.architectures, architecture, db.artifacts[id].architecture);
    var q := Query(software, p.value, a.value, channel);
    assert Eligible(db, q, id);
    NewerMakesAnOffer(db, q, version, id);
  }

  lemma NewerMakesAnOffer(db: Db, q: Query, current: SemVer.Version, id: Id)
    requires Eligible(db, q, id) && SemVer.Less(current, VersionOf(db, id))
    ensures
      var offered := CheckForUpdate(db, q, current);
      && offered.Some? && offered.value in db.artifacts && HasVersion(db, db.artifacts[offered.value])
      && !SemVer.CoreLess(VersionOf(db, offered.value), VersionOf(db, id))
  {
    NewerIsPrecedence(current, VersionOf(db, id));
    var newer := set j | j in EligibleIds(db, q) && NewerThanClient(current, VersionOf(db, j));
    assert id in newer;
  }

  lemma PublicHasVersion(db: Db, id: Id)
    ensures Public(db, id) ==>
              && id in db.artifacts && HasVersion(db, db.artifacts[id])
              && HasTarget(db.platforms, db.artifacts[id].platform) && HasTarget(db.architectures, db.artifacts[id].architecture)
  {
  }

  /******* The release listing and its pages *******/

  /** The order of the listing: newest first, then by identifier. */
  predicate Before(db: Db, i: Id, j: Id)
    requires Rows(db, {i, j})
  {
    SemVer.CoreLess(VersionOf(db, j), VersionOf(db, i))
    || (VersionOf(db, i) == VersionOf(db, j) && i < j)
  }

  /** The list holds exactly the given rows, each before those that follow it. */
  ghost predicate Sorted(db: Db, ids: set<Id>, list: seq<Id>)
    requires Rows(db, ids)
  {
    && (forall id | id in list :: id in ids)
    && (forall id | id in ids :: id in list)
    && (forall i, j | 0 <= i < j < |list| :: Before(db, list[i], list[j]))
  }

  /** The database returns the rows in an order that it can choose nothing about. */
  lemma {:induction false} SortedIsUnique(db: Db, ids: set<Id>, a: seq<Id>, b: seq<Id>)
    requires Rows(db, ids) && Sorted(db, ids, a) && Sorted(db, ids, b)
    ensures a == b
    decreases |a|
  {
    EmptyWhenNoRows(db, ids, a);
    EmptyWhenNoRows(db, ids, b);
    if a != [] {
      FirstIsLeast(db, ids, a, b[0]);
      FirstIsLeast(db, ids, b, a[0]);
      RestIsSorted(db, ids, a);
      RestIsSorted(db, ids, b);
      SortedIsUnique(db, ids - {a[0]}, a[1..], b[1..]);
      assert a == [a[0]] + a[1..] && b == [b[0]] + b[1..];
    }
  }

  lemma EmptyWhenNoRows(db: Db, ids: set<Id>, list: seq<Id>)
    requires Rows(db, ids) && Sorted(db, ids, list)
    ensures list == [] <==> ids == {}
  {
    if list != [] {
      assert list[0] in ids;
    } else {
      assert forall id | id in ids :: id in list;
    }
  }

  lemma FirstIsLeast(db: Db, ids: set<Id>, list: seq<Id>, id: Id)
    requires Rows(db, ids) && Sorted(db, ids, list) && id in ids
    ensures list[0] == id || Before(db, list[0], id)
  {
  }

  lemma RestIsSorted(db: Db, ids: set<Id>, list: seq<Id>)
    requires Rows(db, ids) && Sorted(db, ids, list) && list != []
    ensures Sorted(db, ids - {list[0]}, list[1..])
  {
  }

  /** The row that comes before every other row. */
  lemma {:induction false} LeastExists(db: Db, ids: set<Id>)
    requires Rows(db, ids) && ids != {}
    ensures exists id :: Least(db, ids, id)
    decreases |ids|
  {
    var some :| some in ids;
    var rest := ids - {some};
    if rest == {} {
      assert ids == {some};
      assert Least(db, ids, some);
    } else {
      LeastExists(db, rest);
      var best :| Least(db, rest, best);
      if Before(db, some, best) {
        forall j | j in ids - {some}
          ensures Before(db, some, j)
        {
          assert j == best || Before(db, best, j);
        }
        assert Least(db, ids, some);
      } else {
        assert Least(db, ids, best);
      }
    }
  }

  ghost predicate Least(db: Db, ids: set<Id>, id: Id)
    requires Rows(db, ids)
  {
    id in ids && forall j | j in ids - {id} :: Before(db, id, j)
  }

  ghost function SortRows(db: Db, ids: set<Id>): (list: seq<Id>)
    requires Rows(db, ids)
    ensures Sorted(db, ids, list) && |list| == |ids|
  {
    if ids == {} then []
    else
      LeastExists(db, ids);
      var id :| Least(db, ids, id);
      [id] + SortRows(db, ids - {id})
  }

  ghost function Listing(db: Db, q: Query): seq<Id> {
    SortRows(db, EligibleIds(db, q))
  }

  function Min(a: nat, b: nat): nat {
    if a < b then a else b
  }

  /** `LIMIT limit OFFSET (page - 1) * limit`, pages counted from one. */
  function Page<T>(list: seq<T>, page: nat, limit: nat): seq<T>
    requires page >= 1
  {
    list[Min((page - 1) * limit, |list|)..Min((page - 1) * limit + limit, |list|)]
  }

  function TotalPages(total: nat, limit: nat): nat
    requires limit > 0
  {
    (total + limit - 1) / limit
  }

  function FirstPages<T>(list: seq<T>, limit: nat, count: nat): seq<T> {
    if count == 0 then [] else FirstPages(list, limit, count - 1) + Page(list, count, limit)
  }

  lemma {:induction false} FirstPagesArePrefix<T>(list: seq<T>, limit: nat, count: nat)
    ensures FirstPages(list, limit, count) == list[..Min(count * limit, |list|)]
  {
    if count > 0 {
      FirstPagesArePrefix(list, limit, count - 1);
    }
  }

  /** The first `TotalPages` pages, one after the other, are the whole list; none is empty, and all later ones are. */
  lemma PagesCover<T>(list: seq<T>, limit: nat)
    requires limit > 0
    ensures FirstPages(list, limit, TotalPages(|list|, limit)) == list
    ensures forall page | 1 <= page <= TotalPages(|list|, limit) :: 1 <= |Page(list, page, limit)| <= limit
    ensures forall page | page > TotalPages(|list|, limit) :: Page(list, page, limit) == []
  {
    var total := TotalPages(|list|, limit);
    FirstPagesArePrefix(list, limit, total);
    PageStart(|list|, limit, 1);
    assert list[..|list|] == list;
    hide TotalPages;
    forall page | page >= 1
      ensures page <= total ==> 1 <= |Page(list, page, limit)| <= limit
      ensures page > total ==> Page(list, page, limit) == []
    {
      PageStart(|list|, limit, page);
    }
  }

  /**
   On one database state the pages of the listing, one after the other, are the eligible artifacts
   in order, without loss or repeat.
   */
  lemma PagesAreTheListing(db: Db, q: Query, limit: nat)
    requires limit > 0
    ensures
      var list := Listing(db, q);
      && Sorted(db, EligibleIds(db, q), list)
      && |list| == |EligibleIds(db, q)|
      && FirstPages(list, limit, TotalPages(|list|, limit)) == list
  {
    PagesCover(Listing(db, q), limit);
  }

  /** The listing holds an artifact if and only if it is public and for exactly the product, targets and channel of the query. */
  lemma ListedIsAsked(db: Db, q: Query, id: Id)
    ensures
      id in Listing(db, q)
      <==> && Public(db, id)
           && db.versions[db.artifacts[id].version].software == q.software
           && db.artifacts[id].platform == q.platform && db.artifacts[id].architecture == q.architecture
           && db.artifacts[id].channel == q.channel
  {
    hide Public;
    PublicHasVersion(db, id);
    assert id in EligibleIds(db, q) <==> id in db.artifacts && Eligible(db, q, id);
  }

  lemma PageStart(total: nat, limit: nat, page: nat)
    requires limit > 0 && page >= 1
    ensures page <= TotalPages(total, limit) <==> (page - 1) * limit < total
    ensures total <= TotalPages(total, limit) * limit
  {
    var pages := TotalPages(total, limit);
    assert pages * limit <= total + limit - 1 < (pages + 1) * limit;
    if page <= pages {
      assert (page - 1) * limit <= (pages - 1) * limit;
    } else {
      assert (page - 1) * limit >= pages * limit;
    }
  }

  lemma LatestComesFirst(db: Db, q: Query)
    requires Unique(db)
    ensures GetLatest(db, q) == if Listing(db, q) == [] then None else Some(Listing(db, q)[0])
  {
  }
}
