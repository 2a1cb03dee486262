/** Conversions between RSA public keys and TPM_PUBKEY, with Go's integer conversions explicit. */
module RsaKeys {
  import opened Common
  import opened BigEndian
  import opened Wire
  import opened Tpm12Formats

  /** rsa.PublicKey: a possibly nil big integer and a 64-bit exponent. */
  datatype RsaPublicKey = RsaPublicKey(n: Option<int>, e: int64)

  const DEFAULT_EXPONENT: int64 := 65537

  function Abs(x: int): nat {
    if x < 0 then -x else x
  }

  /** Go's uint32(e): the low 32 bits. */
  function ToUint32(e: int64): uint32 {
    ((e as int) % 0x1_0000_0000) as uint32
  }

  /** Go's big.Int.Int64: the low 64 bits, read as two's complement. */
  function ToInt64(v: nat): int64 {
    var low := v % 0x1_0000_0000_0000_0000;
    if low < 0x8000_0000_0000_0000 then low as int64 else (low - 0x1_0000_0000_0000_0000) as int64
  }

  /** big.Int.Bytes and BitLen look at the absolute value only. */
  function ConstructPubKey(publicKey: Option<RsaPublicKey>): Result<PubKey> {
    if publicKey.None? || publicKey.value.n.None? then Failure(NilInput)
    else
      var RsaPublicKey(n, e) := publicKey.value;
      if e as int > MAX_UINT32 then Failure(TooLong)
      else
        var exponent := ToUint32(e);
        if exponent == 0 then Failure(ZeroExponent)
        else
          var exponentBytes := if exponent != 65537 then U32(exponent) else [];
          var bitLen := BitLen(Abs(n.value));
          var key := Minimal(Abs(n.value));
          if bitLen > MAX_UINT32 || |key| > MAX_UINT32 then Failure(TooLong)
          else
            Success(PubKey(
              KeyParms(ALG_RSA, ES_RSA_OAEP_SHA1_MGF1, SS_RSA_PKCS1V15_SHA1,
                       Some(RsaKeyParms(bitLen as uint32, 2, exponentBytes)), None),
              StorePubKey(|key| as uint32, key)))
  }

  function TpmPubKeyToRSAPubKey(k: PubKey): Result<RsaPublicKey> {
    if k.algorithmParms.algId != ALG_RSA then Failure(UnsupportedAlgorithm)
    else if k.algorithmParms.rsa.None? then Failure(NilInput)
    else
      var exponent := k.algorithmParms.rsa.value.exponent;
      var e := if exponent == [] then DEFAULT_EXPONENT else ToInt64(Value(exponent));
      Success(RsaPublicKey(Some(Value(k.pubKey.key)), e))
  }

  /** Construct, serialize, parse what was printed in front of t, and convert back. */
  function Cycle(publicKey: RsaPublicKey, t: seq<byte>): Result<(RsaPublicKey, seq<byte>)> {
    var k :- ConstructPubKey(Some(publicKey));
    var b :- PubKeyBytes(k);
    var (parsed, rest) :- DecodePubKey(b + t);
    var back :- TpmPubKeyToRSAPubKey(parsed);
    Success((back, rest))
  }

  /** The exponent bytes written for e and what they are read back as. */
  lemma ExponentBack(e: uint32)
    ensures Value(U32(e)) == e as nat
    ensures ToInt64(e as nat) == e as int64
  {
    Pow256Widths();
    ValueOfFixed(e as nat, 4);
  }

  /** Every constructed key carries |N| and E mod 2^32, and ceil(bits / 8) as its byte length. */
  lemma ConstructedKey(pk: RsaPublicKey)
    requires ConstructPubKey(Some(pk)).Success?
    ensures var k := ConstructPubKey(Some(pk)).value;
            && k.pubKey.keyLength as int == |k.pubKey.key| == (BitLen(Abs(pk.n.value)) + 7) / 8
            && TpmPubKeyToRSAPubKey(k) == Success(RsaPublicKey(Some(Abs(pk.n.value)), ToUint32(pk.e) as int64))
            && (WellFormedPubKey(k) <==> pk.n.value != 0)
  {
    MinimalLength(Abs(pk.n.value));
    ValueOfMinimal(Abs(pk.n.value));
    ExponentBack(ToUint32(pk.e));
    assert pk.n.value != 0 ==> BitLen(Abs(pk.n.value)) > 0;
  }

  /**
   The parameters of a constructed key: RSA, OAEP encryption, PKCS #1 v1.5 SHA-1 signatures, the
   length of |N| in bits, two primes, and E modulo 2^32 in four bytes unless it is 65537; the key
   itself is |N| without leading zeros.
   */
  lemma ConstructedParms(pk: RsaPublicKey)
    requires ConstructPubKey(Some(pk)).Success?
    ensures var k, n := ConstructPubKey(Some(pk)).value, Abs(pk.n.value);
            && k.algorithmParms.algId == 1 && k.algorithmParms.encScheme == 3 && k.algorithmParms.sigScheme == 2
            && k.algorithmParms.rsa.Some? && k.algorithmParms.sym.None?
            && var p := k.algorithmParms.rsa.value;
            && n < Pow2(p.keyLength as nat) && (n > 0 ==> p.keyLength > 0 && Pow2(p.keyLength as nat - 1) <= n)
            && (n == 0 ==> p.keyLength == 0)
            && p.numPrimes == 2
            && (p.exponent == [] <==> pk.e as int % 0x1_0000_0000 == 65537)
            && (p.exponent != [] ==> p.exponent == Be32((pk.e as int % 0x1_0000_0000) as uint32))
            && Value(k.pubKey.key) == n && (n > 0 ==> k.pubKey.key != [] && k.pubKey.key[0] != 0)
  {
    BitLenExact(Abs(pk.n.value));
    ValueOfMinimal(Abs(pk.n.value));
    NetworkOrder(ToUint32(pk.e), 0);
  }

  /** Which TPM keys convert, and to what: the exponent modulo 2^64, or 65537 when it is absent. */
  lemma ConvertsExactly(k: PubKey, pk: RsaPublicKey)
    ensures TpmPubKeyToRSAPubKey(k) == Success(pk) <==>
            && k.algorithmParms.algId == 1 && k.algorithmParms.rsa.Some?
            && pk.n == Some(Value(k.pubKey.key))
            && var exponent := k.algorithmParms.rsa.value.exponent;
            if exponent == [] then pk.e == 65537
            else (Value(exponent) - pk.e as int) % 0x1_0000_0000_0000_0000 == 0
  {
    if k.algorithmParms.rsa.Some? {
      Congruent(Value(k.algorithmParms.rsa.value.exponent), pk.e);
    }
  }

  lemma Congruent(v: nat, e: int64)
    ensures ToInt64(v) == e <==> (v - e as int) % 0x1_0000_0000_0000_0000 == 0
  {
  }

  lemma ConstructSucceeds(pk: RsaPublicKey)
    ensures ConstructPubKey(Some(pk)).Success? <==>
            && pk.n.Some? && BitLen(Abs(pk.n.value)) <= 0xFFFF_FFFF
            && pk.e as int <= 0xFFFF_FFFF && pk.e as int % 0x1_0000_0000 != 0
  {
    if pk.n.Some? {
      MinimalLength(Abs(pk.n.value));
    }
  }

  lemma ExponentRange(e: int64)
    requires e as int <= MAX_UINT32
    ensures ToUint32(e) as int64 == e <==> 0 <= e as int
  {
  }

  lemma CycleOfNonZero(pk: RsaPublicKey, t: seq<byte>)
    requires ConstructPubKey(Some(pk)).Success? && pk.n.value != 0
    ensures Cycle(pk, t) == Success((RsaPublicKey(Some(Abs(pk.n.value)), ToUint32(pk.e) as int64), t))
  {
    ConstructedKey(pk);
    DecodePubKeyBack(ConstructPubKey(Some(pk)).value, t);
  }

  lemma ZeroKeyLengthRejected(p: RsaKeyParms)
    requires p.keyLength == 0 && RsaKeyParmsBytes(p).Success?
    ensures DecodeRsaKeyParms(RsaKeyParmsBytes(p).value) == Failure(ZeroValue)
  {
    var rest := U32(p.numPrimes) + (U32(|p.exponent| as uint32) + p.exponent);
    assert RsaKeyParmsBytes(p).value == U32(0) + rest;
    TakeU32Back(0, rest);
  }

  lemma ZeroBitsRejected(k: KeyParms, t: seq<byte>)
    requires k.algId == ALG_RSA && k.rsa.Some? && k.rsa.value.keyLength == 0 && KeyParmsBytes(k).Success?
    ensures DecodeKeyParms(KeyParmsBytes(k).value + t) == Failure(ZeroValue)
  {
    var params := RsaKeyParmsBytes(k.rsa.value).value;
    var h := Header(k.algId, k.encScheme, k.sigScheme, |params| as uint32);
    Reassociate(KeyParmsHeader(h.alg, h.enc, h.sig, h.size), params, t);
    DecodeHeaderBack(h, params + t);
    TakeBytesBack(h.size, params, t);
    ZeroKeyLengthRejected(k.rsa.value);
  }

  lemma CycleOfZero(pk: RsaPublicKey, t: seq<byte>)
    requires ConstructPubKey(Some(pk)).Success? && pk.n.value == 0
    ensures Cycle(pk, t) == Failure(ZeroValue)
  {
    var k := ConstructPubKey(Some(pk)).value;
    var store := StorePubKeyBytes(k.pubKey);
    var parms := KeyParmsBytes(k.algorithmParms).value;
    Reassociate(parms, store, t);
    ZeroBitsRejected(k.algorithmParms, store + t);
  }

  /**
   The full cycle gives back exactly (N, E), leaving exactly the tail, if and only if N is
   positive with a 32-bit bit length and E lies in 1 .. 2^32 - 1; 65537 included, although it
   is not written. A negative N loses its sign, a negative E is read back modulo 2^32, a zero
   N is printed but not parsed.
   */
  lemma RsaCycleExact(pk: RsaPublicKey, t: seq<byte>)
    ensures Cycle(pk, t) == Success((pk, t)) <==>
            && pk.n.Some? && pk.n.value > 0
            && BitLen(pk.n.value) <= MAX_UINT32
            && 1 <= pk.e as int <= MAX_UINT32
  {
    ConstructSucceeds(pk);
    if ConstructPubKey(Some(pk)).Success? {
      ExponentRange(pk.e);
      if pk.n.value == 0 {
        CycleOfZero(pk, t);
      } else {
        CycleOfNonZero(pk, t);
      }
    } else {
      assert Cycle(pk, t).Failure?;
    }
  }
}
