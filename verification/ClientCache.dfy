/** The cache of S3 clients: an insertion-ordered map, used as a list of the 32 most recently used clients. */
module ClientCache {
  import opened Crypto

  const MAX_CACHED_CLIENTS := 32

  /******* Recency *******/

  predicate Distinct(s: seq<Digest>) {
    forall i, j | 0 <= i < j < |s| :: s[i] != s[j]
  }

  function Without(s: seq<Digest>, f: Digest): seq<Digest> {
    if s == [] then [] else (if s[0] == f then [] else [s[0]]) + Without(s[1..], f)
  }

  lemma {:induction false} WithoutMembers(s: seq<Digest>, f: Digest)
    ensures forall g :: g in Without(s, f) <==> g in s && g != f
  {
    if s != [] {
      WithoutMembers(s[1..], f);
      assert s == [s[0]] + s[1..];
    }
  }

  lemma DistinctTail(s: seq<Digest>)
    requires s != []
    ensures Distinct(s) <==> Distinct(s[1..]) && s[0] !in s[1..]
  {
  }

  lemma {:induction false} WithoutDistinct(s: seq<Digest>, f: Digest)
    requires Distinct(s)
    ensures Distinct(Without(s, f))
    ensures |Without(s, f)| == |s| - if f in s then 1 else 0
    ensures f !in s ==> Without(s, f) == s
  {
    if s != [] {
      DistinctTail(s);
      WithoutDistinct(s[1..], f);
      WithoutMembers(s[1..], f);
      assert s == [s[0]] + s[1..];
      if s[0] != f {
        DistinctTail(Without(s, f));
      }
    }
  }

  function Last(s: seq<Digest>, n: nat): (r: seq<Digest>)
    ensures |r| <= n
  {
    if |s| <= n then s else s[|s| - n..]
  }

  /** The fingerprints of a sequence of calls, each once, the least recently used first. */
  function Recency(calls: seq<Digest>): (r: seq<Digest>)
    ensures Distinct(r)
    ensures forall f :: f in r <==> f in calls
  {
    if calls == [] then []
    else
      var f := calls[|calls| - 1];
      var before := Recency(calls[..|calls| - 1]);
      assert calls == calls[..|calls| - 1] + [f];
      WithoutMembers(before, f);
      WithoutDistinct(before, f);
      Without(before, f) + [f]
  }

  /** The position of the last call with a fingerprint. */
  function LastUse(calls: seq<Digest>, f: Digest): (i: nat)
    requires f in calls
    ensures i < |calls| && calls[i] == f && forall j | i < j < |calls| :: calls[j] != f
  {
    if calls[|calls| - 1] == f then |calls| - 1
    else
      assert calls == calls[..|calls| - 1] + [calls[|calls| - 1]];
      LastUse(calls[..|calls| - 1], f)
  }

  /** The order of `Recency` is the order of last use. */
  lemma {:induction false} RecencyIsByLastUse(calls: seq<Digest>)
    ensures forall i, j | 0 <= i < j < |Recency(calls)| ::
              LastUse(calls, Recency(calls)[i]) < LastUse(calls, Recency(calls)[j])
  {
    if calls != [] {
      var before, f := calls[..|calls| - 1], calls[|calls| - 1];
      RecencyIsByLastUse(before);
      var r := Recency(calls);
      var kept := Without(Recency(before), f);
      assert r == kept + [f];
      WithoutKeepsOrder(before, Recency(before), f);
      WithoutMembers(Recency(before), f);
      forall i, j | 0 <= i < j < |r|
        ensures LastUse(calls, r[i]) < LastUse(calls, r[j])
      {
        assert r[i] == kept[i] && kept[i] in kept;
        assert LastUse(calls, r[i]) == LastUse(before, r[i]);
        if j < |kept| {
          assert r[j] == kept[j] && kept[j] in kept;
        }
      }
    }
  }

  ghost predicate ByLastUse(calls: seq<Digest>, s: seq<Digest>) {
    (forall i | 0 <= i < |s| :: s[i] in calls)
    && forall i, j | 0 <= i < j < |s| :: LastUse(calls, s[i]) < LastUse(calls, s[j])
  }

  lemma {:induction false} WithoutKeepsOrder(calls: seq<Digest>, s: seq<Digest>, f: Digest)
    requires ByLastUse(calls, s)
    ensures ByLastUse(calls, Without(s, f))
  {
    hide LastUse;
    if s != [] {
      var tail := s[1..];
      var rest := Without(tail, f);
      assert ByLastUse(calls, tail) by {
        assert forall i | 0 <= i < |tail| :: tail[i] == s[i + 1];
      }
      WithoutKeepsOrder(calls, tail, f);
      WithoutMembers(tail, f);
      if s[0] != f {
        forall j | 0 <= j < |rest|
          ensures LastUse(calls, s[0]) < LastUse(calls, rest[j])
        {
          assert rest[j] in tail;
          var k :| 0 <= k < |tail| && tail[k] == rest[j];
          assert s[k + 1] == rest[j];
        }
        PrependKeepsOrder(calls, s[0], rest);
      }
    }
  }

  lemma PrependKeepsOrder(calls: seq<Digest>, f: Digest, s: seq<Digest>)
    requires f in calls && ByLastUse(calls, s)
    requires forall j | 0 <= j < |s| :: LastUse(calls, f) < LastUse(calls, s[j])
    ensures ByLastUse(calls, [f] + s)
  {
    hide LastUse;
    var r := [f] + s;
    forall i, j | 0 <= i < j < |r|
      ensures r[i] in calls && r[j] in calls && LastUse(calls, r[i]) < LastUse(calls, r[j])
    {
      assert r[j] == s[j - 1];
      assert i > 0 ==> r[i] == s[i - 1];
    }
  }

  /******* Touching the list *******/

  /** What one call makes of the cached fingerprints: the called one moves to the end, and beyond 32 the first goes. */
  function Touch(order: seq<Digest>, f: Digest): seq<Digest> {
    Last(Without(order, f) + [f], MAX_CACHED_CLIENTS)
  }

  lemma {:induction false} WithoutConcat(a: seq<Digest>, b: seq<Digest>, f: Digest)
    ensures Without(a + b, f) == Without(a, f) + Without(b, f)
  {
    if a == [] {
      assert a + b == b;
    } else {
      WithoutConcat(a[1..], b, f);
      assert (a + b)[1..] == a[1..] + b;
      var first := if a[0] == f then [] else [a[0]];
      assert first + (Without(a[1..], f) + Without(b, f)) == first + Without(a[1..], f) + Without(b, f);
    }
  }

  /** Touching the last 32 fingerprints gives the last 32 of the list in which the called one moved to the end. */
  lemma TouchFollowsRecency(r: seq<Digest>, f: Digest)
    requires Distinct(r)
    ensures Touch(Last(r, MAX_CACHED_CLIENTS), f) == Last(Without(r, f) + [f], MAX_CACHED_CLIENTS)
  {
    if |r| > MAX_CACHED_CLIENTS {
      var a, b := r[..|r| - MAX_CACHED_CLIENTS], r[|r| - MAX_CACHED_CLIENTS..];
      assert Distinct(b) by {
        assert forall i | 0 <= i < |b| :: b[i] == r[|a| + i];
      }
      assert r == a + b;
      hide Without, Distinct, Touch;
      TouchFullList(a, b, f);
    }
  }

  lemma TouchFullList(a: seq<Digest>, b: seq<Digest>, f: Digest)
    requires Distinct(b) && |b| == MAX_CACHED_CLIENTS
    ensures Touch(b, f) == Last(Without(a + b, f) + [f], MAX_CACHED_CLIENTS)
  {
    hide Without, Distinct, Last;
    WithoutDistinct(b, f);
    WithoutConcat(a, b, f);
    LastOfConcat(Without(a, f), Without(b, f) + [f]);
    assert Without(a + b, f) + [f] == Without(a, f) + (Without(b, f) + [f]);
  }

  lemma LastOfConcat(a: seq<Digest>, b: seq<Digest>)
    requires |b| >= MAX_CACHED_CLIENTS
    ensures Last(a + b, MAX_CACHED_CLIENTS) == Last(b, MAX_CACHED_CLIENTS)
  {
  }

  function TouchAll(calls: seq<Digest>): seq<Digest> {
    if calls == [] then [] else Touch(TouchAll(calls[..|calls| - 1]), calls[|calls| - 1])
  }

  /** Over every sequence of calls, the cache holds the 32 most recently used fingerprints in the order of their last use. */
  lemma {:induction false} CacheIsLeastRecentlyUsed(calls: seq<Digest>)
    ensures TouchAll(calls) == Last(Recency(calls), 32)
  {
    if calls != [] {
      var before := calls[..|calls| - 1];
      CacheIsLeastRecentlyUsed(before);
      TouchFollowsRecency(Recency(before), calls[|calls| - 1]);
    }
  }

  /** The fingerprints used after the last use of one. */
  function UsedAfter(calls: seq<Digest>, f: Digest): set<Digest>
    requires f in calls
  {
    set g | g in calls && LastUse(calls, f) < LastUse(calls, g)
  }

  /** A fingerprint is cached exactly when it was used and fewer than 32 others were used after it. */
  lemma CachedMeansRecent(calls: seq<Digest>, f: Digest)
    ensures f in TouchAll(calls) <==> f in calls && |UsedAfter(calls, f)| < 32
  {
    CacheIsLeastRecentlyUsed(calls);
    hide TouchAll, UsedAfter;
    var r := Recency(calls);
    if f in calls {
      var i :| 0 <= i < |r| && r[i] == f;
      UsedAfterCount(calls, i);
      hide Recency, Last;
      InLast(r, i);
    } else {
      hide Recency;
      assert forall g | g in Last(r, MAX_CACHED_CLIENTS) :: g in r;
    }
  }

  lemma UsedAfterCount(calls: seq<Digest>, i: nat)
    requires i < |Recency(calls)|
    ensures |UsedAfter(calls, Recency(calls)[i])| == |Recency(calls)| - 1 - i
  {
    var r := Recency(calls);
    RecencyIsByLastUse(calls);
    hide Recency, LastUse;
    AfterIsLater(calls, r, i);
    SizeOfKeys(r[i + 1..], UsedAfter(calls, r[i]));
  }

  lemma AfterIsLater(calls: seq<Digest>, r: seq<Digest>, i: nat)
    requires r == Recency(calls) && i < |r|
    requires forall i, j | 0 <= i < j < |r| :: LastUse(calls, r[i]) < LastUse(calls, r[j])
    ensures forall g | g in calls :: LastUse(calls, r[i]) < LastUse(calls, g) <==> g in r[i + 1..]
    ensures forall g | g in r[i + 1..] :: g in calls
    ensures Distinct(r[i + 1..])
  {
  }

  /** A list without repeats is as long as the set of its elements. */
  lemma {:induction false} SizeOfKeys(s: seq<Digest>, keys: set<Digest>)
    requires Distinct(s) && forall f :: f in s <==> f in keys
    ensures |keys| == |s|
  {
    if s != [] {
      var front, f := s[..|s| - 1], s[|s| - 1];
      assert s == front + [f];
      SizeOfKeys(front, keys - {f});
    } else {
      assert keys == {};
    }
  }

  lemma InLast(r: seq<Digest>, i: nat)
    requires Distinct(r) && i < |r|
    ensures r[i] in Last(r, MAX_CACHED_CLIENTS) <==> |r| - 1 - i < MAX_CACHED_CLIENTS
  {
  }

  /******* The map and its clients *******/

  class S3Client {
    /** The normalised configuration, as the JSON text that is hashed. */
    const config: Bytes
    var destroyed: bool

    constructor (config: Bytes)
      ensures this.config == config && !destroyed
    {
      this.config := config;
      destroyed := false;
    }

    method Destroy()
      modifies this
      ensures destroyed
    {
      destroyed := true;
    }
  }

  function FingerprintOf(config: Bytes): Digest {
    Sha256(config)
  }

  /** The order lists exactly the keys of the map, each once. */
  ghost predicate Listed(order: seq<Digest>, keys: set<Digest>) {
    Distinct(order) && forall f :: f in order <==> f in keys
  }

  ghost predicate BuiltFor(clients: map<Digest, S3Client>) {
    forall f | f in clients :: FingerprintOf(clients[f].config) == f
  }

  /** The clients that stay are the same objects; only the first in the order may have gone. */
  ghost predicate Evicted(order: seq<Digest>, clients: map<Digest, S3Client>, clients': map<Digest, S3Client>) {
    && (forall f | f in clients && f in clients' :: clients'[f] == clients[f])
    && (forall f | f in clients && f !in clients' :: order != [] && f == order[0])
  }

  class Cache {
    /** The keys of the map in the order of their insertion. */
    var order: seq<Digest>
    var clients: map<Digest, S3Client>
    /** History: the fingerprints asked for since the last shutdown. */
    ghost var calls: seq<Digest>

    ghost predicate Valid()
      reads this, clients.Values
    {
      && Listed(order, clients.Keys)
      && order == Last(Recency(calls), MAX_CACHED_CLIENTS)
      && BuiltFor(clients)
      && forall f | f in clients :: !clients[f].destroyed
    }

    constructor ()
      ensures Valid() && order == [] && calls == []
    {
      order, clients, calls := [], map[], [];
    }

    /** Answers the cached client of the configuration or a new one, and destroys the least recently used one beyond 32. */
    method GetClient(config: Bytes) returns (client: S3Client)
      requires Valid()
      modifies this, clients.Values
      ensures Valid()
      ensures calls == old(calls) + [FingerprintOf(config)]
      ensures order == Touch(old(order), FingerprintOf(config))
      ensures FingerprintOf(config) in clients && clients[FingerprintOf(config)] == client
      ensures client.config == config && !client.destroyed
      ensures if FingerprintOf(config) in old(clients) then client == old(clients)[FingerprintOf(config)] else fresh(client)
      ensures Evicted(old(order), old(clients), clients)
      ensures forall f | f in old(clients) && f !in clients :: old(clients)[f].destroyed
    {
      hide Recency, Touch, Last, Without, Listed, FingerprintOf, BuiltFor;
      var f := FingerprintOf(config);
      if f in clients {
        OneMoreCall(calls, f);
        TouchKeepsListed(order, clients.Keys, f);
        CachedForConfig(clients, config);
        client := clients[f];
        order := Without(order, f) + [f];
        calls := calls + [f];
      } else {
        client := AddClient(config);
      }
    }

    /** Caches a new client; beyond 32 clients, destroys and forgets the one that was inserted first. */
    method AddClient(config: Bytes) returns (client: S3Client)
      requires Valid() && FingerprintOf(config) !in clients
      modifies this, clients.Values
      ensures Valid()
      ensures calls == old(calls) + [FingerprintOf(config)]
      ensures order == Touch(old(order), FingerprintOf(config))
      ensures FingerprintOf(config) in clients && clients[FingerprintOf(config)] == client
      ensures client.config == config && fresh(client)
      ensures Evicted(old(order), old(clients), clients)
      ensures forall f | f in old(clients) && f !in clients :: old(clients)[f].destroyed
    {
      hide Recency, Touch, Last, Without, Listed, FingerprintOf, BuiltFor, Evicted;
      var f := FingerprintOf(config);
      OneMoreCall(calls, f);
      TouchKeepsListed(order, clients.Keys, f);
      calls := calls + [f];
      client := new S3Client(config);
      clients := clients[f := client];
      order := order + [f];
      OneMoreKey(old(clients), f, client);
      OnlyTheFirstGoes(old(order), old(clients), f, client);
      assert forall g | g in clients :: !clients[g].destroyed;
      if |clients| > MAX_CACHED_CLIENTS {
        DropOldest();
      }
    }

    /** Destroys and forgets the client that was inserted first. */
    method DropOldest()
      requires order != [] && order[0] in clients && BuiltFor(clients)
      modifies `order, `clients, clients.Values
      ensures order == old(order)[1..] && clients == old(clients) - {old(order)[0]}
      ensures clients.Keys == old(clients).Keys - {old(order)[0]}
      ensures old(clients)[old(order)[0]].destroyed && BuiltFor(clients)
      ensures (forall f | f in old(clients) :: !old(clients[f].destroyed)) ==> forall f | f in clients :: !clients[f].destroyed
    {
      var oldest := order[0];
      clients[oldest].Destroy();
      clients := clients - {oldest};
      order := order[1..];
    }

    /** Destroys exactly the cached clients, oldest first, and empties the map. */
    method Shutdown()
      requires Valid()
      modifies this, clients.Values
      ensures Valid() && order == [] && clients == map[] && calls == []
      ensures forall f | f in old(clients) :: old(clients)[f].destroyed
    {
      var i := 0;
      while i < |order|
        invariant 0 <= i <= |order| && order == old(order) && clients == old(clients) && calls == old(calls)
        invariant forall j | 0 <= j < i :: order[j] in clients && clients[order[j]].destroyed
        invariant forall f :: f in order <==> f in clients
      {
        clients[order[i]].Destroy();
        i := i + 1;
      }
      order, clients, calls := [], map[], [];
    }
  }

  lemma OneMoreCall(calls: seq<Digest>, f: Digest)
    ensures Last(Recency(calls + [f]), MAX_CACHED_CLIENTS) == Touch(Last(Recency(calls), MAX_CACHED_CLIENTS), f)
  {
    assert (calls + [f])[..|calls + [f]| - 1] == calls;
    TouchFollowsRecency(Recency(calls), f);
  }

  lemma OneMoreKey(clients: map<Digest, S3Client>, f: Digest, client: S3Client)
    requires f !in clients
    ensures clients[f := client].Keys == clients.Keys + {f} && |clients[f := client]| == |clients.Keys| + 1
    ensures BuiltFor(clients) && FingerprintOf(client.config) == f ==> BuiltFor(clients[f := client])
  {
  }

  lemma OnlyTheFirstGoes(order: seq<Digest>, clients: map<Digest, S3Client>, f: Digest, client: S3Client)
    requires f !in clients
    ensures Evicted(order, clients, clients[f := client])
    ensures order != [] ==> Evicted(order, clients, clients[f := client] - {(order + [f])[0]})
  {
  }

  lemma CachedForConfig(clients: map<Digest, S3Client>, config: Bytes)
    requires BuiltFor(clients) && FingerprintOf(config) in clients
    ensures clients[FingerprintOf(config)].config == config
  {
  }

  /** A touch keeps the list and the map's keys in step; it drops the first key only when a 33rd comes. */
  lemma TouchKeepsListed(order: seq<Digest>, keys: set<Digest>, f: Digest)
    requires Listed(order, keys) && |order| <= MAX_CACHED_CLIENTS
    ensures |keys| == |order| && (f in order <==> f in keys) && (order != [] ==> order[0] in keys)
    ensures f in keys ==> Touch(order, f) == Without(order, f) + [f] && Listed(Touch(order, f), keys)
    ensures f !in keys && |order| < MAX_CACHED_CLIENTS ==>
              Touch(order, f) == order + [f] && Listed(Touch(order, f), keys + {f})
    ensures f !in keys && |order| == MAX_CACHED_CLIENTS ==>
              Touch(order, f) == (order + [f])[1..] && Listed(Touch(order, f), keys + {f} - {order[0]})
  {
    SizeOfKeys(order, keys);
    if f in keys {
      TouchHit(order, f);
    } else {
      TouchMiss(order, f);
    }
  }

  lemma TouchHit(order: seq<Digest>, f: Digest)
    requires Distinct(order) && |order| <= MAX_CACHED_CLIENTS && f in order
    ensures Touch(order, f) == Without(order, f) + [f] && Distinct(Touch(order, f))
    ensures forall g :: g in Touch(order, f) <==> g in order
  {
    WithoutMembers(order, f);
    WithoutDistinct(order, f);
  }

  lemma TouchMiss(order: seq<Digest>, f: Digest)
    requires Distinct(order) && |order| <= MAX_CACHED_CLIENTS && f !in order
    ensures Touch(order, f) == if |order| == MAX_CACHED_CLIENTS then (order + [f])[1..] else order + [f]
    ensures Distinct(Touch(order, f))
    ensures forall g :: g in Touch(order, f)
              <==> g == f || (g in order && (|order| < MAX_CACHED_CLIENTS || g != order[0]))
  {
    WithoutDistinct(order, f);
    if |order| == MAX_CACHED_CLIENTS {
      DistinctTail(order);
      assert (order + [f])[1..] == order[1..] + [f] && order == [order[0]] + order[1..];
    }
  }
}
