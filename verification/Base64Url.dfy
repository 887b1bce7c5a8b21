/**
 base64url without padding (sections 3.5 and 5 of RFC 4648), as the release service and the
 signer use it: both decode and then require that encoding gives the same text back.
 */
module Base64Url {
  import opened Wrappers
  import opened Crypto

  type Sextet = n: int | 0 <= n < 64

  const MAX_PAYLOAD_LENGTH := 120_000

  predicate InAlphabet(c: char) {
    'A' <= c <= 'Z' || 'a' <= c <= 'z' || '0' <= c <= '9' || c == '-' || c == '_'
  }

  function Symbol(v: Sextet): (c: char)
    ensures InAlphabet(c)
  {
    if v < 26 then 'A' + v as char
    else if v < 52 then 'a' + (v - 26) as char
    else if v < 62 then '0' + (v - 52) as char
    else if v == 62 then '-' else '_'
  }

  function Value(c: char): (v: Sextet)
    requires InAlphabet(c)
    ensures Symbol(v) == c
  {
    if 'A' <= c <= 'Z' then (c - 'A') as int
    else if 'a' <= c <= 'z' then (c - 'a') as int + 26
    else if '0' <= c <= '9' then (c - '0') as int + 52
    else if c == '-' then 62 else 63
  }

  /** Table 2 of RFC 4648: the "URL and Filename safe" alphabet. */
  const ALPHABET: string := UPPER + LOWER + OTHERS

  const UPPER := "ABCDEFGHIJKLMNOPQRSTUVWXYZ"

  const LOWER := "abcdefghijklmnopqrstuvwxyz"

  const OTHERS := "0123456789-_"

  lemma SymbolIsTheAlphabets(v: Sextet)
    ensures |ALPHABET| == 64 && Symbol(v) == ALPHABET[v]
  {
    if v < 26 {
      UpperSymbols(v);
    } else if v < 52 {
      LowerSymbols(v);
    } else {
      OtherSymbols(v);
    }
    hide UPPER, LOWER, OTHERS, Symbol;
  }

  lemma UpperSymbols(v: Sextet)
    requires v < 26
    ensures Symbol(v) == UPPER[v]
  {
  }

  lemma LowerSymbols(v: Sextet)
    requires 26 <= v < 52
    ensures Symbol(v) == LOWER[v - 26]
  {
  }

  lemma OtherSymbols(v: Sextet)
    requires 52 <= v
    ensures Symbol(v) == OTHERS[v - 52]
  {
  }

  predicate IsBase64Url(s: string) {
    forall i | 0 <= i < |s| :: InAlphabet(s[i])
  }

  /** Three bytes as four sextets; a group that ends early is padded with zero bytes and cut. */
  function Split(b0: byte, b1: byte, b2: byte): (v: seq<Sextet>)
    ensures |v| == 4
  {
    [b0 / 4, b0 % 4 * 16 + b1 / 16, b1 % 16 * 4 + b2 / 64, b2 % 64]
  }

  function Join(v0: Sextet, v1: Sextet, v2: Sextet, v3: Sextet): (b: Bytes)
    ensures |b| == 3
  {
    [v0 * 4 + v1 / 16, v1 % 16 * 16 + v2 / 4, v2 % 4 * 64 + v3]
  }

  function ToSextets(b: Bytes): seq<Sextet> {
    if |b| == 0 then []
    else if |b| == 1 then Split(b[0], 0, 0)[..2]
    else if |b| == 2 then Split(b[0], b[1], 0)[..3]
    else Split(b[0], b[1], b[2]) + ToSextets(b[3..])
  }

  /** A lone last sextet and unused last bits are dropped. */
  function FromSextets(v: seq<Sextet>): Bytes {
    if |v| <= 1 then []
    else if |v| == 2 then Join(v[0], v[1], 0, 0)[..1]
    else if |v| == 3 then Join(v[0], v[1], v[2], 0)[..2]
    else Join(v[0], v[1], v[2], v[3]) + FromSextets(v[4..])
  }

  predicate NothingDropped(v: seq<Sextet>) {
    if |v| >= 4 then NothingDropped(v[4..])
    else |v| == 0 || (|v| == 2 && v[1] % 16 == 0) || (|v| == 3 && v[2] % 4 == 0)
  }

  lemma {:induction false} Lengths(b: Bytes, v: seq<Sextet>)
    ensures |ToSextets(b)| == (|b| * 4 + 2) / 3
    ensures |FromSextets(v)| == |v| * 3 / 4
    decreases |b| + |v|
  {
    if |b| >= 3 {
      Lengths(b[3..], []);
    }
    if |v| >= 4 {
      Lengths([], v[4..]);
    }
  }

  /** Only the last group matters: it is not a single sextet, and the bits it does not need are zero. */
  lemma {:induction false} LastGroup(v: seq<Sextet>)
    ensures NothingDropped(v) <==>
            match |v| % 4
            case 0 => true
            case 1 => false
            case 2 => v[|v| - 1] % 16 == 0
            case _ => v[|v| - 1] % 4 == 0
  {
    if |v| >= 4 {
      LastGroup(v[4..]);
    }
  }

  lemma DivMod(q: int, r: int)
    ensures 0 <= r < 4 ==> (q * 4 + r) / 4 == q && (q * 4 + r) % 4 == r
    ensures 0 <= r < 16 ==> (q * 16 + r) / 16 == q && (q * 16 + r) % 16 == r
    ensures 0 <= r < 64 ==> (q * 64 + r) / 64 == q && (q * 64 + r) % 64 == r
  {
  }

  lemma SplitJoin(b0: byte, b1: byte, b2: byte)
    ensures var v := Split(b0, b1, b2); Join(v[0], v[1], v[2], v[3]) == [b0, b1, b2]
  {
  }

  lemma SplitPadding(b0: byte, b1: byte)
    ensures Split(b0, 0, 0)[1] % 16 == 0 && Split(b0, 0, 0)[2..] == [0, 0]
    ensures Split(b0, b1, 0)[2] % 4 == 0 && Split(b0, b1, 0)[3] == 0
  {
  }

  lemma JoinSplit(v0: Sextet, v1: Sextet, v2: Sextet, v3: Sextet)
    ensures var b := Join(v0, v1, v2, v3); Split(b[0], b[1], b[2]) == [v0, v1, v2, v3]
    ensures Split(Join(v0, v1, 0, 0)[0], 0, 0)[..2] == [v0, v1 / 16 * 16]
    ensures var b := Join(v0, v1, v2, 0); Split(b[0], b[1], 0)[..3] == [v0, v1, v2 / 4 * 4]
  {
    DivMod(v0, v1 / 16);
    DivMod(v1 % 16, v2 / 4);
    DivMod(v2 % 4, v3);
  }

  lemma {:induction false} SextetsBack(b: Bytes)
    ensures FromSextets(ToSextets(b)) == b && NothingDropped(ToSextets(b))
  {
    hide Split, Join;
    var v := ToSextets(b);
    if |b| == 1 {
      SplitJoin(b[0], 0, 0);
      SplitPadding(b[0], 0);
      assert v[0] == Split(b[0], 0, 0)[0] && v[1] == Split(b[0], 0, 0)[1];
    } else if |b| == 2 {
      SplitJoin(b[0], b[1], 0);
      SplitPadding(b[0], b[1]);
    } else if |b| >= 3 {
      SplitJoin(b[0], b[1], b[2]);
      SextetsBack(b[3..]);
      assert v[4..] == ToSextets(b[3..]);
      assert FromSextets(v) == b[..3] + b[3..];
    }
  }

  lemma {:induction false} BytesBack(v: seq<Sextet>)
    ensures ToSextets(FromSextets(v)) == v <==> NothingDropped(v)
  {
    hide Split, Join;
    var b := FromSextets(v);
    if |v| == 2 {
      JoinSplit(v[0], v[1], 0, 0);
    } else if |v| == 3 {
      JoinSplit(v[0], v[1], v[2], 0);
    } else if |v| >= 4 {
      JoinSplit(v[0], v[1], v[2], v[3]);
      BytesBack(v[4..]);
      assert b[3..] == FromSextets(v[4..]);
      assert ToSextets(b) == v[..4] + ToSextets(b[3..]);
      assert v == v[..4] + v[4..];
      assert ToSextets(b)[4..] == ToSextets(b[3..]);
    }
  }

  /******* The number that a text spells *******/

  function Pow(base: nat, k: nat): nat {
    if k == 0 then 1 else base * Pow(base, k - 1)
  }

  /** The digits as a number, the most significant one first. */
  function Big(digits: seq<nat>, base: nat): nat {
    if digits == [] then 0 else Big(digits[..|digits| - 1], base) * base + digits[|digits| - 1]
  }

  /** What the zero bits after the last byte multiply the number by. */
  function Padding(n: nat): nat {
    if n % 3 == 0 then 1 else if n % 3 == 1 then 16 else 4
  }

  lemma {:induction false} BigConcat(a: seq<nat>, b: seq<nat>, base: nat)
    ensures Big(a + b, base) == Big(a, base) * Pow(base, |b|) + Big(b, base)
  {
    if b == [] {
      assert a + b == a;
    } else {
      var front, last := b[..|b| - 1], b[|b| - 1];
      BigConcat(a, front, base);
      assert (a + b)[..|a + b| - 1] == a + front;
      var p := Pow(base, |front|);
      Distribute(Big(a, base), p, Big(front, base), base);
      assert Pow(base, |b|) == base * p;
    }
  }

  lemma Distribute(x: nat, p: nat, y: nat, base: nat)
    ensures (x * p + y) * base == x * (base * p) + y * base
  {
    assert (x * p + y) * base == x * p * base + y * base;
    assert x * p * base == x * (p * base);
  }

  lemma BigOfGroup(b0: byte, b1: byte, b2: byte)
    ensures Big([b0, b1, b2], 256) == b0 * 65_536 + b1 * 256 + b2
    ensures Big(Split(b0, b1, b2), 64) == b0 * 65_536 + b1 * 256 + b2
    ensures Big([b0], 256) == b0 && Big(Split(b0, 0, 0)[..2], 64) == b0 * 16
    ensures Big([b0, b1], 256) == b0 * 256 + b1 && Big(Split(b0, b1, 0)[..3], 64) == (b0 * 256 + b1) * 4
  {
    var v := Split(b0, b1, b2);
    BigOfFour(v[0], v[1], v[2], v[3]);
    assert v == [v[0], v[1], v[2], v[3]];
    BigOfFour(0, b0, b1, b2);
    BigOfThree(b0, b1, b2, 256);
    BigOfThree(0, 0, b0, 256);
    var one, two := Split(b0, 0, 0), Split(b0, b1, 0);
    BigOfTwo(one[0], one[1], 64);
    assert one[..2] == [one[0], one[1]];
    BigOfThree(two[0], two[1], two[2], 64);
    assert two[..3] == [two[0], two[1], two[2]];
    BigOfTwo(b0, b1, 256);
  }

  lemma BigOfTwo(d0: nat, d1: nat, base: nat)
    ensures Big([d0], base) == d0
    ensures Big([d0, d1], base) == d0 * base + d1
  {
    assert [d0][..0] == [] && [d0, d1][..1] == [d0];
  }

  lemma BigOfThree(d0: nat, d1: nat, d2: nat, base: nat)
    ensures Big([d0, d1, d2], base) == (d0 * base + d1) * base + d2
  {
    BigOfTwo(d0, d1, base);
    assert [d0, d1, d2][..2] == [d0, d1];
  }

  lemma BigOfFour(d0: nat, d1: nat, d2: nat, d3: nat)
    ensures Big([d0, d1, d2, d3], 64) == d0 * 262_144 + d1 * 4_096 + d2 * 64 + d3
  {
    BigOfThree(d0, d1, d2, 64);
    assert [d0, d1, d2, d3][..3] == [d0, d1, d2];
  }

  lemma {:induction false} PowersMatch(n: nat)
    ensures Pow(64, (n * 4 + 2) / 3) == Pow(256, n) * Padding(n)
  {
    if n >= 3 {
      PowersMatch(n - 3);
      var k := ((n - 3) * 4 + 2) / 3;
      assert (n * 4 + 2) / 3 == k + 4;
      PowUp(64, k);
      PowUp(256, n - 3);
      assert Padding(n) == Padding(n - 3);
      hide Pow, Padding;
      Regroup(Pow(256, n - 3), Padding(n));
    } else {
      SmallPowers();
    }
  }

  lemma SmallPowers()
    ensures Pow(64, 0) == 1 && Pow(64, 2) == 4_096 && Pow(64, 3) == 262_144
    ensures Pow(256, 0) == 1 && Pow(256, 1) == 256 && Pow(256, 2) == 65_536
  {
    assert Pow(64, 1) == 64 * Pow(64, 0) && Pow(64, 2) == 64 * Pow(64, 1) && Pow(64, 3) == 64 * Pow(64, 2);
    assert Pow(256, 1) == 256 * Pow(256, 0) && Pow(256, 2) == 256 * Pow(256, 1);
  }

  lemma PowUp(base: nat, k: nat)
    ensures Pow(base, k + 3) == base * (base * (base * Pow(base, k)))
    ensures Pow(base, k + 4) == base * (base * (base * (base * Pow(base, k))))
  {
    assert Pow(base, k + 1) == base * Pow(base, k);
    assert Pow(base, k + 2) == base * Pow(base, k + 1);
    assert Pow(base, k + 3) == base * Pow(base, k + 2);
    assert Pow(base, k + 4) == base * Pow(base, k + 3);
  }

  lemma Regroup(p: nat, f: nat)
    ensures 64 * (64 * (64 * (64 * (p * f)))) == 256 * (256 * (256 * p)) * f
  {
    assert 64 * (64 * (64 * (64 * (p * f)))) == 16_777_216 * (p * f);
    assert 256 * (256 * (256 * p)) * f == 16_777_216 * p * f;
  }

  /** Read as base 64, the sextets are the bytes read as base 256, followed by the padding's zero bits. */
  lemma {:induction false} SextetsSpellTheBytes(b: Bytes)
    ensures Big(ToSextets(b), 64) == Big(b, 256) * Padding(|b|)
  {
    hide Split, Big, Pow;
    if |b| == 0 {
      BigOfNothing();
    } else if |b| == 1 {
      BigOfGroup(b[0], 0, 0);
      assert b == [b[0]];
    } else if |b| == 2 {
      BigOfGroup(b[0], b[1], 0);
      assert b == [b[0], b[1]];
    } else {
      var group, rest := Split(b[0], b[1], b[2]), b[3..];
      SextetsSpellTheBytes(rest);
      BigOfGroup(b[0], b[1], b[2]);
      assert b == [b[0], b[1], b[2]] + rest;
      BigConcat([b[0], b[1], b[2]], rest, 256);
      BigConcat(group, ToSextets(rest), 64);
      Lengths(rest, []);
      PowersMatch(|rest|);
      assert Padding(|b|) == Padding(|rest|);
      hide Padding, ToSextets;
      ScaleSum(Big(group, 64), Pow(256, |rest|), Big(rest, 256), Padding(|b|));
    }
  }

  lemma BigOfNothing()
    ensures Big([], 64) == 0 && Big([], 256) == 0
  {
  }

  lemma ScaleSum(x: nat, p: nat, y: nat, f: nat)
    ensures x * (p * f) + y * f == (x * p + y) * f
  {
    assert x * (p * f) == x * p * f;
  }

  /******* Text *******/

  function Symbols(v: seq<Sextet>): (s: string)
    ensures IsBase64Url(s) && |s| == |v|
  {
    seq(|v|, i requires 0 <= i < |v| => Symbol(v[i]))
  }

  function Values(s: string): (v: seq<Sextet>)
    requires IsBase64Url(s)
    ensures |v| == |s|
  {
    seq(|s|, i requires 0 <= i < |s| => Value(s[i]))
  }

  lemma ValuesOfSymbols(v: seq<Sextet>)
    ensures Values(Symbols(v)) == v
  {
  }

  lemma SymbolsOfValues(s: string)
    requires IsBase64Url(s)
    ensures Symbols(Values(s)) == s
  {
  }

  function Encode(b: Bytes): (s: string)
    ensures IsBase64Url(s)
    ensures |s| == (|b| * 4 + 2) / 3
  {
    Lengths(b, []);
    Symbols(ToSextets(b))
  }

  /** The lenient decoder of the release service, on texts over the alphabet. */
  function Decode(s: string): (b: Bytes)
    requires IsBase64Url(s)
    ensures |b| == |s| * 3 / 4
  {
    Lengths([], Values(s));
    FromSextets(Values(s))
  }

  /** No lone last character, and the bits that the last character does not need are zero. */
  predicate NoLeftover(s: string)
    requires IsBase64Url(s)
  {
    NothingDropped(Values(s))
  }

  /** The strict decoder fails on foreign characters, bad lengths and nonzero unused bits. */
  function DecodeStrict(s: string): Option<Bytes> {
    if IsBase64Url(s) && NoLeftover(s) then Some(Decode(s)) else None
  }

  /** An encoding is as long as RFC 4648 says and its characters, by their places in the alphabet, spell the bytes. */
  lemma EncodeSpellsTheBytes(b: Bytes)
    ensures forall i | 0 <= i < |Encode(b)| :: Encode(b)[i] == ALPHABET[ToSextets(b)[i]]
    ensures Big(ToSextets(b), 64) == Big(b, 256) * Padding(|b|)
    ensures |Encode(b)| == |b| / 3 * 4 + (if |b| % 3 == 0 then 0 else |b| % 3 + 1)
  {
    SextetsSpellTheBytes(b);
    Lengths(b, []);
    forall i | 0 <= i < |Encode(b)|
      ensures Encode(b)[i] == ALPHABET[ToSextets(b)[i]]
    {
      SymbolIsTheAlphabets(ToSextets(b)[i]);
    }
  }

  lemma EncodeDecode(b: Bytes)
    ensures Decode(Encode(b)) == b && NoLeftover(Encode(b))
  {
    SextetsBack(b);
    ValuesOfSymbols(ToSextets(b));
  }

  /** Decoding and encoding again gives the text back exactly when nothing was dropped. */
  lemma DecodeEncode(s: string)
    requires IsBase64Url(s)
    ensures Encode(Decode(s)) == s <==> NoLeftover(s)
  {
    BytesBack(Values(s));
    SymbolsOfValues(s);
    ValuesOfSymbols(ToSextets(Decode(s)));
  }

  /** The payload test of the release service: alphabet, length, then decode and re-encode. */
  predicate ServiceAccepts(payload: string) {
    && |payload| > 0
    && IsBase64Url(payload)
    && |payload| <= MAX_PAYLOAD_LENGTH
    && |Decode(payload)| != 0
    && Encode(Decode(payload)) == payload
  }

  /** The payload test of the signer: length, strict decode, then re-encode. */
  predicate SignerAccepts(payload: string) {
    && 0 < |payload| <= MAX_PAYLOAD_LENGTH
    && DecodeStrict(payload).Some?
    && Encode(DecodeStrict(payload).value) == payload
  }

  /** On every text whatsoever, both services accept the same payloads and read the same bytes. */
  lemma BothServicesAgree(payload: string)
    ensures ServiceAccepts(payload) <==> SignerAccepts(payload)
    ensures ServiceAccepts(payload) ==> DecodeStrict(payload) == Some(Decode(payload))
  {
    if IsBase64Url(payload) {
      DecodeEncode(payload);
    }
  }

  lemma EncodedIsAccepted(b: Bytes)
    requires b != [] && |Encode(b)| <= MAX_PAYLOAD_LENGTH
    ensures SignerAccepts(Encode(b)) && DecodeStrict(Encode(b)) == Some(b)
  {
    EncodeDecode(b);
  }

  /** A signature text of 86 characters is 64 bytes, and canonical when its last four bits are zero. */
  predicate IsSignatureText(s: string) {
    && |s| == 86
    && IsBase64Url(s)
    && |Decode(s)| == 64
    && Encode(Decode(s)) == s
  }

  lemma SignatureTextLength(s: string)
    requires |s| == 86 && IsBase64Url(s)
    ensures |Decode(s)| == 64
    ensures IsSignatureText(s) <==> Value(s[85]) % 16 == 0
  {
    DecodeEncode(s);
    LastGroup(Values(s));
  }
}
