/** Failure types and the symbolic cryptography shared by every component of the model. */
module Wrappers {
  datatype Option<+T> = None | Some(value: T)

  datatype Result<+T, +E> = Ok(value: T) | Err(error: E)
}

/**
 Hashes are symbolic terms: equal digests have equal preimages, which is the collision
 freedom that the services rely on. Signature verification is never defined; it is passed
 around as an arbitrary function, so every theorem holds for every verification function.
 */
module Crypto {
  type byte = n: int | 0 <= n < 256

  type Bytes = seq<byte>

  /**
   A digest of bytes, or a signing request identifier: the hash of product, key identifier and
   payload bytes with separators, a preimage that RequestIdentity proves to be injective.
   */
  datatype Digest = Sha256(preimage: Bytes) | RequestId(product: string, keyId: Digest, payload: Bytes)

  /** A public key, given by its DER bytes. */
  datatype PublicKey = PublicKey(der: Bytes)

  type Verifier = (PublicKey, Bytes, Bytes) -> bool

  /** The key identifier used everywhere: the SHA-256 fingerprint of the DER encoding. */
  function Fingerprint(key: PublicKey): Digest {
    Sha256(key.der)
  }
}

/** Sums of the values of a finite map. */
module Sums {
  ghost function Total<K>(m: map<K, nat>): nat {
    if m == map[] then 0
    else
      var k :| k in m;
      m[k] + Total(m - {k})
  }

  /** The total does not depend on the order in which the entries are taken. */
  lemma {:induction false} TotalRemove<K>(m: map<K, nat>, k: K)
    requires k in m
    ensures Total(m) == m[k] + Total(m - {k})
    decreases |m|
  {
    var picked :| picked in m && Total(m) == m[picked] + Total(m - {picked});
    if picked != k {
      TotalRemove(m - {picked}, k);
      TotalRemove(m - {k}, picked);
      assert m - {picked} - {k} == m - {k} - {picked};
    }
  }

  lemma TotalAdd<K>(m: map<K, nat>, k: K, v: nat)
    requires k !in m
    ensures Total(m[k := v]) == v + Total(m)
  {
    TotalRemove(m[k := v], k);
    assert m[k := v] - {k} == m;
  }

  lemma {:induction false} TotalMonotone<K>(small: map<K, nat>, big: map<K, nat>)
    requires forall k :: k in small ==> k in big && big[k] == small[k]
    ensures Total(small) <= Total(big)
    decreases |small|
  {
    if small != map[] {
      var k :| k in small;
      TotalRemove(small, k);
      TotalRemove(big, k);
      TotalMonotone(small - {k}, big - {k});
    }
  }
}
