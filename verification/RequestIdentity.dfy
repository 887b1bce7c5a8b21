/**
 The identity of a signing request on both sides of the wire: its preimage, and the consumer's test
 of the signer's answers.
 */
module RequestIdentity {
  import opened Wrappers
  import opened Crypto
  import opened Decimal
  import opened SignerProtocol
  import Base64Url
  import ManifestJson
  import PayloadParser
  import ReleaseVisibility
  import SlugAllocator
  import Utf8

  /******* The preimage *******/

  /** What the signer hashes: a prefix, product and key identifier, each closed by a zero byte, and the payload bytes. */
  function SignerPreimage(product: string, keyId: string, bytes: Bytes): Bytes {
    Utf8.Encode("reeva-signer-v1\0") + (Utf8.Encode(product) + ([0] + (Utf8.Encode(keyId) + ([0] + bytes))))
  }

  /** What the release service hashes; it decodes the payload text leniently. */
  function ServicePreimage(product: string, keyId: string, payload: string): Bytes
    requires Base64Url.IsBase64Url(payload)
  {
    Utf8.Encode("reeva-signer-v1\0" + product + "\0" + keyId + "\0") + Base64Url.Decode(payload)
  }

  predicate NoZero(s: string) {
    forall i | 0 <= i < |s| :: s[i] != '\0'
  }

  lemma {:induction false} EncodedHasNoZero(s: string)
    requires NoZero(s)
    ensures 0 !in Utf8.Encode(s)
  {
    if s != "" {
      assert 0 !in Utf8.EncodeChar(s[0]);
      assert NoZero(s[1..]) by {
        assert forall i | 0 <= i < |s[1..]| :: s[1..][i] == s[i + 1];
      }
      EncodedHasNoZero(s[1..]);
    }
  }

  lemma EncodedInjective(s: string, t: string)
    requires Utf8.Encode(s) == Utf8.Encode(t)
    ensures s == t
  {
    Utf8.DecodeEncode(s);
    Utf8.DecodeEncode(t);
  }

  lemma FirstZero(a: Bytes, x: Bytes, b: Bytes, y: Bytes)
    requires 0 !in a && 0 !in b && a + ([0] + x) == b + ([0] + y)
    ensures a == b && x == y
  {
    var s, t := a + ([0] + x), b + ([0] + y);
    if |a| < |b| {
      ZeroInside(a, x, b, y);
    } else if |b| < |a| {
      ZeroInside(b, y, a, x);
    } else {
      assert s[..|a|] == a && t[..|b|] == b;
      assert s[|a| + 1..] == x && t[|b| + 1..] == y;
    }
  }

  lemma ZeroInside(a: Bytes, x: Bytes, b: Bytes, y: Bytes)
    requires |a| < |b| && a + ([0] + x) == b + ([0] + y)
    ensures 0 in b
  {
    assert (a + ([0] + x))[|a|] == 0;
    assert (b + ([0] + y))[|a|] == b[|a|];
  }

  lemma SlugHasNoZero(s: string)
    requires SlugAllocator.ValidSlug(s) || ReleaseVisibility.IsHex64(s)
    ensures NoZero(s)
  {
  }

  lemma SamePrefix(prefix: Bytes, x: Bytes, y: Bytes)
    requires prefix + x == prefix + y
    ensures x == y
  {
    assert (prefix + x)[|prefix|..] == x && (prefix + y)[|prefix|..] == y;
  }

  /** Different requests have different preimages, whatever the payload bytes are. */
  lemma PreimageInjective(product: string, keyId: string, bytes: Bytes, product': string, keyId': string, bytes': Bytes)
    requires SlugAllocator.ValidSlug(product) && SlugAllocator.ValidSlug(product')
    requires ReleaseVisibility.IsHex64(keyId) && ReleaseVisibility.IsHex64(keyId')
    requires SignerPreimage(product, keyId, bytes) == SignerPreimage(product', keyId', bytes')
    ensures product == product' && keyId == keyId' && bytes == bytes'
  {
    hide SlugAllocator.ValidSlug, ReleaseVisibility.IsHex64, NoZero, Utf8.Encode;
    SlugHasNoZero(product);
    SlugHasNoZero(product');
    SlugHasNoZero(keyId);
    SlugHasNoZero(keyId');
    EncodedHasNoZero(product);
    EncodedHasNoZero(product');
    EncodedHasNoZero(keyId);
    EncodedHasNoZero(keyId');
    var p, p', k, k' := Utf8.Encode(product), Utf8.Encode(product'), Utf8.Encode(keyId), Utf8.Encode(keyId');
    SamePrefix(Utf8.Encode("reeva-signer-v1\0"), p + ([0] + (k + ([0] + bytes))), p' + ([0] + (k' + ([0] + bytes'))));
    FirstZero(p, k + ([0] + bytes), p', k' + ([0] + bytes'));
    FirstZero(k, bytes, k', bytes');
    EncodedInjective(product, product');
    EncodedInjective(keyId, keyId');
  }

  lemma {:induction false} EncodeConcat(s: string, t: string)
    ensures Utf8.Encode(s + t) == Utf8.Encode(s) + Utf8.Encode(t)
  {
    hide Utf8.EncodeChar;
    if s == "" {
      assert s + t == t;
    } else {
      EncodeConcat(s[1..], t);
      assert (s + t)[1..] == s[1..] + t;
      var first := Utf8.EncodeChar(s[0]);
      assert first + (Utf8.Encode(s[1..]) + Utf8.Encode(t)) == first + Utf8.Encode(s[1..]) + Utf8.Encode(t);
    }
  }

  lemma Reassociate(a: Bytes, b: Bytes, z: Bytes, c: Bytes, d: Bytes)
    ensures a + b + z + c + z + d == a + (b + (z + (c + (z + d))))
  {
  }

  /** For every payload that the signer accepts, both languages build the same preimage. */
  lemma BothLanguagesAgree(product: string, keyId: string, payload: string)
    requires Base64Url.SignerAccepts(payload)
    ensures Base64Url.IsBase64Url(payload) && Base64Url.DecodeStrict(payload).Some?
    ensures ServicePreimage(product, keyId, payload)
         == SignerPreimage(product, keyId, Base64Url.DecodeStrict(payload).value)
  {
    Base64Url.BothServicesAgree(payload);
    hide Base64Url.Decode, Base64Url.DecodeStrict;
    var prefix := "reeva-signer-v1\0";
    assert Utf8.Encode("\0") == [0] by {
      assert Utf8.Encode("\0") == Utf8.EncodeChar('\0') + Utf8.Encode("");
    }
    hide Utf8.Encode;
    EncodeConcat(prefix + product + "\0" + keyId, "\0");
    EncodeConcat(prefix + product + "\0", keyId);
    EncodeConcat(prefix + product, "\0");
    EncodeConcat(prefix, product);
    Reassociate(Utf8.Encode(prefix), Utf8.Encode(product), [0], Utf8.Encode(keyId), Base64Url.Decode(payload));
  }

  /******* The consumer's test *******/

  datatype ManagedKey = ManagedKey(product: string, keyVersion: int, keyId: Digest, publicKey: PublicKey)

  datatype StatusText = PendingText | SignedText | OtherText

  /** The signer's answer as JSON gives it. */
  datatype Reply = Reply(
    id: Digest, product: string, payload: string, payloadDigest: Digest, keyId: Digest, keyVersion: int,
    publicKey: PublicKey, status: StatusText, signature: Option<string>, expiresAt: int)

  function ReplyOf(id: Digest, row: Row): Reply {
    Reply(id, row.product, row.payload, row.payloadDigest, row.keyId, row.keyVersion, row.publicKey,
          if row.status.Signed? then SignedText else PendingText, row.signature, row.expiresAt)
  }

  function KeyOf(reply: Reply, product: string): Result<ManagedKey, string> {
    if reply.product != product || reply.keyVersion < 1 then Err("Invalid managed signing key response.")
    else if reply.keyId != Fingerprint(reply.publicKey) then Err("Managed signing key fingerprint mismatch.")
    else Ok(ManagedKey(product, reply.keyVersion, reply.keyId, reply.publicKey))
  }

  /** The payload is one that the service built itself. */
  function SigningRequest(verify: Verifier, answer: Option<Reply>, key: ManagedKey, payload: string): Result<Option<Reply>, string>
    requires Base64Url.IsBase64Url(payload)
  {
    if answer.None? then Ok(None)
    else
      var r := answer.value;
      var actual := KeyOf(r, key.product);
      var bytes := Base64Url.Decode(payload);
      if actual.Err? then Err(actual.error)
      else if actual.value.keyId != key.keyId || actual.value.keyVersion != key.keyVersion
              || r.id != RequestId(key.product, key.keyId, bytes) || r.payload != payload
              || r.payloadDigest != Sha256(bytes) || r.status.OtherText?
              || !(-(MAX_SAFE_INTEGER as int) <= r.expiresAt <= MAX_SAFE_INTEGER) then
        Err("Managed signing request does not match this release.")
      else if r.status.SignedText?
              && !(r.signature.Some? && ReleaseVisibility.VerifyOta(verify, payload, r.signature.value, key.publicKey)) then
        Err("Managed signer returned an invalid release signature.")
      else if r.status.PendingText? && r.signature.Some? then Err("Invalid pending signing request.")
      else Ok(Some(r))
  }

  lemma AcceptedIsTheAnswer(verify: Verifier, answer: Option<Reply>, key: ManagedKey, payload: string)
    requires Base64Url.IsBase64Url(payload)
    ensures var r := SigningRequest(verify, answer, key, payload); r.Ok? ==> r.value == answer
  {
    hide ReleaseVisibility.VerifyOta;
  }

  /** An answer is accepted if and only if it is the key's signing request for the payload, consistently signed or pending. */
  lemma AcceptedIff(verify: Verifier, reply: Reply, key: ManagedKey, payload: string)
    requires Base64Url.IsBase64Url(payload)
    ensures
      SigningRequest(verify, Some(reply), key, payload).Ok?
      <==> var bytes := Base64Url.Decode(payload);
           && reply.product == key.product && reply.keyVersion == key.keyVersion && key.keyVersion >= 1
           && reply.keyId == key.keyId && reply.keyId == Fingerprint(reply.publicKey)
           && reply.id == RequestId(key.product, key.keyId, bytes)
           && reply.payload == payload && reply.payloadDigest == Sha256(bytes)
           && -9_007_199_254_740_991 <= reply.expiresAt <= 9_007_199_254_740_991
           && ((reply.status.PendingText? && reply.signature.None?)
               || (reply.status.SignedText? && reply.signature.Some?
                   && ReleaseVisibility.VerifyOta(verify, payload, reply.signature.value, key.publicKey)))
  {
    hide ReleaseVisibility.VerifyOta, Base64Url.Decode, Base64Url.IsBase64Url;
  }

  /** Nothing the signer answers makes the consumer accept a signature that does not verify, or another request. */
  lemma AcceptedMeansVerified(verify: Verifier, reply: Reply, key: ManagedKey, payload: string)
    requires Base64Url.IsBase64Url(payload) && Fingerprint(key.publicKey) == key.keyId
    requires SigningRequest(verify, Some(reply), key, payload).Ok?
    ensures reply.id == RequestId(key.product, key.keyId, Base64Url.Decode(payload)) && reply.payload == payload
    ensures reply.product == key.product && reply.publicKey == key.publicKey && reply.keyVersion == key.keyVersion
    ensures reply.signature.Some? <==> reply.status.SignedText?
    ensures reply.signature.Some? ==> ReleaseVisibility.VerifyOta(verify, payload, reply.signature.value, key.publicKey)
  {
  }

  /******* The signer's world *******/

  /** What an approval must name, from the signer's own reading of the payload. */
  function ParseFacts(payload: string, product: string): Option<Facts> {
    var parsed := PayloadParser.ParsePayload(payload, product);
    if parsed.Err? then None else Some(Facts(parsed.value.0, parsed.value.1.sha256, parsed.value.1.sizeBytes))
  }

  function SignerWorld(verify: Verifier): World {
    World(ParseFacts, verify)
  }

  lemma ParsedPayloadIsCanonical(payload: string, product: string)
    requires ParseFacts(payload, product).Some?
    ensures Base64Url.ServiceAccepts(payload) && Base64Url.IsBase64Url(payload)
    ensures ParseFacts(payload, product).value.bytes == Base64Url.Decode(payload)
  {
    hide PayloadParser.ReadManifest, PayloadParser.Supported;
    assert Base64Url.DecodeStrict(payload).Some?;
    PayloadParser.AsciiLength(payload);
    assert Base64Url.SignerAccepts(payload);
    Base64Url.BothServicesAgree(payload);
  }

  /** What the signer's invariant says of a row, in the consumer's terms. */
  lemma RowForConsumer(verify: Verifier, id: Digest, row: Row)
    requires var w := SignerWorld(verify); RowOk(w, id, row) && SignedOk(w, row)
    ensures Base64Url.IsBase64Url(row.payload) && id == RequestId(row.product, row.keyId, Base64Url.Decode(row.payload))
    ensures row.payloadDigest == Sha256(Base64Url.Decode(row.payload)) && row.keyVersion > 0
    ensures Fingerprint(row.publicKey) == row.keyId && (row.status.Signed? <==> row.signature.Some?)
    ensures row.signature.Some? ==> ReleaseVisibility.VerifyOta(verify, row.payload, row.signature.value, row.publicKey)
  {
    ParsedPayloadIsCanonical(row.payload, row.product);
    hide ParseFacts, Base64Url.Decode, Base64Url.IsSignatureText, Base64Url.ServiceAccepts;
  }

  lemma MatchingReplyIsAccepted(verify: Verifier, r: Reply, key: ManagedKey, payload: string)
    requires Base64Url.IsBase64Url(payload) && Fingerprint(key.publicKey) == key.keyId
    requires r.product == key.product && r.keyId == key.keyId && r.keyVersion == key.keyVersion && r.payload == payload
    requires r.keyVersion >= 1 && Fingerprint(r.publicKey) == r.keyId && 0 <= r.expiresAt <= MAX_SAFE_INTEGER
    requires r.id == RequestId(r.product, r.keyId, Base64Url.Decode(payload)) && r.payloadDigest == Sha256(Base64Url.Decode(payload))
    requires if r.status.SignedText? then r.signature.Some? else r.status.PendingText? && r.signature.None?
    requires r.signature.Some? ==> ReleaseVisibility.VerifyOta(verify, payload, r.signature.value, r.publicKey)
    ensures SigningRequest(verify, Some(r), key, payload) == Ok(Some(r))
  {
    hide ReleaseVisibility.VerifyOta, Base64Url.Decode, Base64Url.IsBase64Url;
    assert r.publicKey == PublicKey(key.publicKey.der);
  }

  /**
   The consumer accepts a row that satisfies the signer's invariant exactly when the row is for its
   key, key version and payload; no such row is refused for its identifier, digest or signature.
   */
  lemma ConsumerAcceptsSignerRows(verify: Verifier, id: Digest, row: Row, key: ManagedKey, payload: string)
    requires var w := SignerWorld(verify); RowOk(w, id, row) && SignedOk(w, row)
    requires Base64Url.IsBase64Url(payload) && Fingerprint(key.publicKey) == key.keyId
    requires 0 <= row.expiresAt <= MAX_SAFE_INTEGER
    ensures SigningRequest(verify, Some(ReplyOf(id, row)), key, payload) == Ok(Some(ReplyOf(id, row)))
      <==> row.product == key.product && row.keyId == key.keyId && row.keyVersion == key.keyVersion && row.payload == payload
  {
    hide SignerWorld, RowOk, SignedOk, SigningRequest, Fingerprint, ReleaseVisibility.VerifyOta, Base64Url.Decode, Base64Url.IsBase64Url;
    RowForConsumer(verify, id, row);
    var reply := ReplyOf(id, row);
    if SigningRequest(verify, Some(reply), key, payload).Ok? {
      AcceptedMeansVerified(verify, reply, key, payload);
    }
    if row.product == key.product && row.keyId == key.keyId && row.keyVersion == key.keyVersion && row.payload == payload {
      MatchingReplyIsAccepted(verify, reply, key, payload);
    }
  }

  /** Some run of the signer leaves the row. */
  ghost predicate Reached(verify: Verifier, s: State, steps: seq<Step>, id: Digest, row: Row) {
    Initial(s) && Possible(SignerWorld(verify), s, steps)
    && id in Run(SignerWorld(verify), s, steps).db.rows && Run(SignerWorld(verify), s, steps).db.rows[id] == row
  }

  lemma ReachedRowOk(verify: Verifier, s: State, steps: seq<Step>, id: Digest, row: Row)
    requires Reached(verify, s, steps, id, row)
    ensures var w := SignerWorld(verify); RowOk(w, id, row) && SignedOk(w, row)
  {
    InitialOk(SignerWorld(verify), s);
    RunKeepsInv(SignerWorld(verify), s, steps);
    InvMeansRowsOk(SignerWorld(verify), Run(SignerWorld(verify), s, steps));
    hide Possible, Run, RowOk, SignedOk;
  }

  /**
   In every run of the signer, what a consumer with the right key reads for its own payload is
   accepted, and a signature it then holds verifies.
   */
  lemma ReadingIsAccepted(verify: Verifier, s: State, steps: seq<Step>, id: Digest, row: Row, key: ManagedKey, payload: string)
    requires Reached(verify, s, steps, id, row)
    requires Base64Url.IsBase64Url(payload) && Fingerprint(key.publicKey) == key.keyId && 0 <= row.expiresAt <= MAX_SAFE_INTEGER
    requires row.product == key.product && row.keyId == key.keyId && row.keyVersion == key.keyVersion && row.payload == payload
    ensures id == RequestId(key.product, key.keyId, Base64Url.Decode(payload))
    ensures SigningRequest(verify, Some(ReplyOf(id, row)), key, payload) == Ok(Some(ReplyOf(id, row)))
    ensures row.status.Signed? ==>
              row.signature.Some? && ReleaseVisibility.VerifyOta(verify, payload, row.signature.value, key.publicKey)
  {
    ReachedRowOk(verify, s, steps, id, row);
    hide Reached, RowOk, SignedOk, SigningRequest;
    ConsumerAcceptsSignerRows(verify, id, row, key, payload);
    AcceptedMeansVerified(verify, ReplyOf(id, row), key, payload);
  }
}
