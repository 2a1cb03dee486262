/**
 The TPM 1.2 structures: their values, the bytes the serializers produce, the
 decoders that specify the parsers, and the theorems connecting the two. Layouts are
 those of TPM Main Part 2 Structures, version 1.2 revision 116.
 */
module Tpm12Formats {
  import opened Common
  import opened BigEndian
  import opened Wire

  // TPM_ALGORITHM_ID values (section 4.8 of TPM Main Part 2).
  const ALG_RSA: uint32 := 1
  const ALG_SHA: uint32 := 4
  const ALG_HMAC: uint32 := 5
  const ALG_AES128: uint32 := 6
  const ALG_MGF1: uint32 := 7
  const ALG_AES192: uint32 := 8
  const ALG_AES256: uint32 := 9

  const ES_RSA_PKCSV15: uint16 := 2
  const ES_RSA_OAEP_SHA1_MGF1: uint16 := 3
  const ES_SYM_CBC_PKCS5: uint16 := 0xFF
  const SS_NONE: uint16 := 1
  const SS_RSA_PKCS1V15_SHA1: uint16 := 2
  const SS_RSA_PKCS1V15_DER: uint16 := 3

  const DIGEST_SIZE := 20

  predicate KnownAlgorithm(alg: uint32) {
    alg in {ALG_RSA, ALG_SHA, ALG_HMAC, ALG_AES128, ALG_MGF1, ALG_AES192, ALG_AES256}
  }

  predicate IsAes(alg: uint32) {
    alg == ALG_AES128 || alg == ALG_AES192 || alg == ALG_AES256
  }

  datatype StructVer = StructVer(major: byte, minor: byte, revMajor: byte, revMinor: byte)

  const VERSION_1_1 := StructVer(1, 1, 0, 0)

  datatype SymmetricKeyParms = SymmetricKeyParms(keyLength: uint32, blockSize: uint32, iv: seq<byte>)
  datatype RsaKeyParms = RsaKeyParms(keyLength: uint32, numPrimes: uint32, exponent: seq<byte>)

  /** TPM_KEY_PARMS; the two optional parameter blocks are the source's nullable pointers. */
  datatype KeyParms = KeyParms(
    algId: uint32, encScheme: uint16, sigScheme: uint16,
    rsa: Option<RsaKeyParms>, sym: Option<SymmetricKeyParms>)

  datatype StorePubKey = StorePubKey(keyLength: uint32, key: seq<byte>)
  datatype PubKey = PubKey(algorithmParms: KeyParms, pubKey: StorePubKey)
  datatype SymmetricKey = SymmetricKey(algId: uint32, encScheme: uint16, key: seq<byte>)

  datatype IdentityProof = IdentityProof(
    version: StructVer, aik: PubKey, labelArea: seq<byte>, identityBinding: seq<byte>,
    endorsementCredential: seq<byte>, platformCredential: seq<byte>, conformanceCredential: seq<byte>)

  datatype IdentityReq = IdentityReq(
    asymAlgorithm: KeyParms, symAlgorithm: KeyParms, asymBlob: seq<byte>, symBlob: seq<byte>)

  datatype IdentityContents = IdentityContents(
    version: StructVer, ordinal: uint32, labelPrivCADigest: seq<byte>, identityPubKey: PubKey)

  datatype AsymCAContents = AsymCAContents(sessionKey: SymmetricKey, idDigest: seq<byte>)
  datatype SymCAAttestation = SymCAAttestation(algorithm: KeyParms, credential: seq<byte>)

  // ----- What the serializers write ------------------------------------------------------

  function StorePubKeyBytes(p: StorePubKey): seq<byte> {
    U32(p.keyLength) + p.key
  }

  function RsaKeyParmsBytes(p: RsaKeyParms): Result<seq<byte>> {
    if |p.exponent| > MAX_UINT32 then Failure(TooLong)
    else Success(U32(p.keyLength) + U32(p.numPrimes) + U32(|p.exponent| as uint32) + p.exponent)
  }

  function SymmetricKeyParmsBytes(p: SymmetricKeyParms): Result<seq<byte>> {
    if |p.iv| > MAX_UINT32 then Failure(TooLong)
    else Success(U32(p.keyLength) + U32(p.blockSize) + U32(|p.iv| as uint32) + p.iv)
  }

  /** The algorithm-specific block of TPM_KEY_PARMS: absent parameters serialize to nothing. */
  function ParamBytes(alg: uint32, rsa: Option<RsaKeyParms>, sym: Option<SymmetricKeyParms>): Result<seq<byte>> {
    if alg == ALG_RSA then
      if sym.Some? then Failure(UnexpectedParams)
      else if rsa.Some? then RsaKeyParmsBytes(rsa.value) else Success([])
    else if IsAes(alg) then
      if rsa.Some? then Failure(UnexpectedParams)
      else if sym.Some? then SymmetricKeyParmsBytes(sym.value) else Success([])
    else
      if rsa.Some? || sym.Some? then Failure(UnexpectedParams) else Success([])
  }

  function KeyParmsHeader(alg: uint32, enc: uint16, sig: uint16, size: uint32): seq<byte> {
    U32(alg) + U16(enc) + U16(sig) + U32(size)
  }

  function KeyParmsBytes(k: KeyParms): Result<seq<byte>> {
    var params :- ParamBytes(k.algId, k.rsa, k.sym);
    if |params| > MAX_UINT32 then Failure(TooLong)
    else Success(KeyParmsHeader(k.algId, k.encScheme, k.sigScheme, |params| as uint32) + params)
  }

  function PubKeyBytes(k: PubKey): Result<seq<byte>> {
    var parms :- KeyParmsBytes(k.algorithmParms);
    Success(parms + StorePubKeyBytes(k.pubKey))
  }

  function VersionBytes(v: StructVer): seq<byte> {
    [v.major, v.minor, v.revMajor, v.revMinor]
  }

  function IdentityContentsBytes(c: IdentityContents): Result<seq<byte>> {
    var key :- PubKeyBytes(c.identityPubKey);
    Success(VersionBytes(c.version) + U32(c.ordinal) + c.labelPrivCADigest + key)
  }

  function ValidateSymmetricKey(k: SymmetricKey): Result<()> {
    if k.encScheme != ES_SYM_CBC_PKCS5 then Failure(UnsupportedScheme)
    else if !IsAes(k.algId) then Failure(UnsupportedAlgorithm)
    else Success(())
  }

  function SymmetricKeyBytes(k: SymmetricKey): Result<seq<byte>> {
    var _ :- ValidateSymmetricKey(k);
    if |k.key| > MAX_UINT16 then Failure(TooLong)
    else Success(U32(k.algId) + U16(k.encScheme) + U16(|k.key| as uint16) + k.key)
  }

  function AsymCAContentsBytes(c: AsymCAContents): Result<seq<byte>> {
    var key :- SymmetricKeyBytes(c.sessionKey);
    Success(key + c.idDigest)
  }

  function SymCAAttestationBytes(c: SymCAAttestation): Result<seq<byte>> {
    if |c.credential| > MAX_UINT32 then Failure(TooLong)
    else
      var algorithm :- KeyParmsBytes(c.algorithm);
      Success(U32(|c.credential| as uint32) + algorithm + c.credential)
  }

  // ----- Which values have an encoding the parsers accept ---------------------------------

  predicate WellFormedRsaParms(p: RsaKeyParms) {
    p.keyLength != 0 && p.numPrimes != 0 && 12 + |p.exponent| <= MAX_UINT32
  }

  predicate WellFormedSymParms(p: SymmetricKeyParms) {
    p.keyLength != 0 && p.blockSize != 0 && 12 + |p.iv| <= MAX_UINT32
  }

  predicate WellFormedParams(alg: uint32, rsa: Option<RsaKeyParms>, sym: Option<SymmetricKeyParms>) {
    && (rsa.Some? <==> alg == ALG_RSA)
    && (sym.Some? <==> IsAes(alg))
    && (rsa.Some? ==> WellFormedRsaParms(rsa.value))
    && (sym.Some? ==> WellFormedSymParms(sym.value))
  }

  predicate WellFormedKeyParms(k: KeyParms) {
    KnownAlgorithm(k.algId) && WellFormedParams(k.algId, k.rsa, k.sym)
  }

  predicate WellFormedStorePubKey(p: StorePubKey) {
    p.keyLength != 0 && |p.key| == p.keyLength as int
  }

  predicate WellFormedPubKey(k: PubKey) {
    WellFormedKeyParms(k.algorithmParms) && WellFormedStorePubKey(k.pubKey)
  }

  predicate WellFormedSymmetricKey(k: SymmetricKey) {
    KnownAlgorithm(k.algId) && 0 < |k.key| <= MAX_UINT16
  }

  // ----- Decoders ---------------------------------------------------------------------------

  function DecodeRsaKeyParms(b: seq<byte>): (r: Result<RsaKeyParms>)
    ensures r.Success? ==>
      r.value.keyLength != 0 && r.value.numPrimes != 0 && RsaKeyParmsBytes(r.value) == Success(b)
  {
    var (keyLength, b1) :- TakeNonZeroU32(b);
    var (numPrimes, b2) :- TakeNonZeroU32(b1);
    var (size, b3) :- TakeU32(b2);
    var (exponent, b4) :- TakeBytes(b3, size);
    if b4 != [] then Failure(Leftover)
    else
      assert b == U32(keyLength) + U32(numPrimes) + U32(size) + exponent;
      Success(RsaKeyParms(keyLength, numPrimes, exponent))
  }

  function DecodeSymmetricKeyParms(b: seq<byte>): (r: Result<SymmetricKeyParms>)
    ensures r.Success? ==>
      r.value.keyLength != 0 && r.value.blockSize != 0 && SymmetricKeyParmsBytes(r.value) == Success(b)
  {
    var (keyLength, b1) :- TakeNonZeroU32(b);
    var (blockSize, b2) :- TakeNonZeroU32(b1);
    var (size, b3) :- TakeU32(b2);
    var (iv, b4) :- TakeBytes(b3, size);
    if b4 != [] then Failure(Leftover)
    else
      assert b == U32(keyLength) + U32(blockSize) + U32(size) + iv;
      Success(SymmetricKeyParms(keyLength, blockSize, iv))
  }

  /** The parameters an algorithm ID selects. */
  function DecodeParams(alg: uint32, params: seq<byte>): (r: Result<(Option<RsaKeyParms>, Option<SymmetricKeyParms>)>)
    ensures r.Success? ==> ParamBytes(alg, r.value.0, r.value.1) == Success(params)
    ensures r.Success? && |params| <= MAX_UINT32 ==> WellFormedParams(alg, r.value.0, r.value.1)
  {
    if alg == ALG_RSA then
      var p :- DecodeRsaKeyParms(params);
      Success((Some(p), None))
    else if IsAes(alg) then
      var p :- DecodeSymmetricKeyParms(params);
      Success((None, Some(p)))
    else if params != [] then Failure(UnexpectedParams)
    else Success((None, None))
  }

  datatype Header = Header(alg: uint32, enc: uint16, sig: uint16, size: uint32)

  function DecodeKeyParmsHeader(b: seq<byte>): (r: Result<(Header, seq<byte>)>)
    ensures r.Success? ==>
      var (h, rest) := r.value;
      KnownAlgorithm(h.alg) && b == KeyParmsHeader(h.alg, h.enc, h.sig, h.size) + rest
  {
    var (alg, b1) :- TakeNonZeroU32(b);
    if !KnownAlgorithm(alg) then Failure(UnknownAlgorithm)
    else
      var (enc, b2) :- TakeU16(b1);
      var (sig, b3) :- TakeU16(b2);
      var (size, b4) :- TakeU32(b3);
      assert b == U32(alg) + U16(enc) + U16(sig) + U32(size) + b4;
      Success((Header(alg, enc, sig, size), b4))
  }

  /** Whenever it accepts, the result is well formed and prints to exactly the bytes consumed. */
  function DecodeKeyParms(b: seq<byte>): (r: Result<(KeyParms, seq<byte>)>)
    ensures r.Success? ==>
      && WellFormedKeyParms(r.value.0)
      && KeyParmsBytes(r.value.0).Success?
      && b == KeyParmsBytes(r.value.0).value + r.value.1
  {
    var (h, b1) :- DecodeKeyParmsHeader(b);
    var (params, b2) :- TakeBytes(b1, h.size);
    var (rsa, sym) :- DecodeParams(h.alg, params);
    assert b == KeyParmsHeader(h.alg, h.enc, h.sig, h.size) + params + b2;
    Success((KeyParms(h.alg, h.enc, h.sig, rsa, sym), b2))
  }

  function DecodeStorePubKey(b: seq<byte>): (r: Result<(StorePubKey, seq<byte>)>)
    ensures r.Success? ==> WellFormedStorePubKey(r.value.0) && b == StorePubKeyBytes(r.value.0) + r.value.1
  {
    var (keyLength, b1) :- TakeNonZeroU32(b);
    var (key, b2) :- TakeBytes(b1, keyLength);
    assert b == U32(keyLength) + key + b2;
    Success((StorePubKey(keyLength, key), b2))
  }

  function DecodePubKey(b: seq<byte>): (r: Result<(PubKey, seq<byte>)>)
    ensures r.Success? ==>
      && WellFormedPubKey(r.value.0)
      && PubKeyBytes(r.value.0).Success?
      && b == PubKeyBytes(r.value.0).value + r.value.1
  {
    var (parms, b1) :- DecodeKeyParms(b);
    var (key, b2) :- DecodeStorePubKey(b1);
    assert b == KeyParmsBytes(parms).value + StorePubKeyBytes(key) + b2;
    Success((PubKey(parms, key), b2))
  }

  function DecodeVersion(b: seq<byte>): (r: Result<(StructVer, seq<byte>)>)
    ensures r.Success? ==> r.value.0 == VERSION_1_1 && b == VersionBytes(r.value.0) + r.value.1
  {
    if |b| < 4 then Failure(Truncated)
    else
      var v := StructVer(b[0], b[1], b[2], b[3]);
      if v != VERSION_1_1 then Failure(BadVersion) else Success((v, b[4..]))
  }

  // ----- Parse after print ------------------------------------------------------------------

  lemma DecodeRsaKeyParmsBack(p: RsaKeyParms)
    requires WellFormedRsaParms(p)
    ensures DecodeRsaKeyParms(RsaKeyParmsBytes(p).value) == Success(p)
  {
    var size := |p.exponent| as uint32;
    var t3 := p.exponent + [];
    var t2 := U32(size) + t3;
    var t1 := U32(p.numPrimes) + t2;
    assert RsaKeyParmsBytes(p).value == U32(p.keyLength) + t1;
    TakeNonZeroU32Back(p.keyLength, t1);
    TakeNonZeroU32Back(p.numPrimes, t2);
    TakeU32Back(size, t3);
    TakeBytesBack(size, p.exponent, []);
  }

  lemma DecodeSymmetricKeyParmsBack(p: SymmetricKeyParms)
    requires WellFormedSymParms(p)
    ensures DecodeSymmetricKeyParms(SymmetricKeyParmsBytes(p).value) == Success(p)
  {
    var size := |p.iv| as uint32;
    var t3 := p.iv + [];
    var t2 := U32(size) + t3;
    var t1 := U32(p.blockSize) + t2;
    assert SymmetricKeyParmsBytes(p).value == U32(p.keyLength) + t1;
    TakeNonZeroU32Back(p.keyLength, t1);
    TakeNonZeroU32Back(p.blockSize, t2);
    TakeU32Back(size, t3);
    TakeBytesBack(size, p.iv, []);
  }

  lemma DecodeParamsBack(alg: uint32, rsa: Option<RsaKeyParms>, sym: Option<SymmetricKeyParms>)
    requires WellFormedParams(alg, rsa, sym)
    ensures ParamBytes(alg, rsa, sym).Success? && |ParamBytes(alg, rsa, sym).value| <= MAX_UINT32
    ensures DecodeParams(alg, ParamBytes(alg, rsa, sym).value) == Success((rsa, sym))
  {
    if rsa.Some? { DecodeRsaKeyParmsBack(rsa.value); }
    if sym.Some? { DecodeSymmetricKeyParmsBack(sym.value); }
  }

  lemma DecodeHeaderBack(h: Header, t: seq<byte>)
    requires KnownAlgorithm(h.alg)
    ensures DecodeKeyParmsHeader(KeyParmsHeader(h.alg, h.enc, h.sig, h.size) + t) == Success((h, t))
  {
    var t3 := U32(h.size) + t;
    var t2 := U16(h.sig) + t3;
    var t1 := U16(h.enc) + t2;
    assert KeyParmsHeader(h.alg, h.enc, h.sig, h.size) + t == U32(h.alg) + t1;
    TakeNonZeroU32Back(h.alg, t1);
    TakeU16Back(h.enc, t2);
    TakeU16Back(h.sig, t3);
    TakeU32Back(h.size, t);
  }

  lemma DecodeKeyParmsBack(k: KeyParms, t: seq<byte>)
    requires WellFormedKeyParms(k)
    ensures KeyParmsBytes(k).Success?
    ensures DecodeKeyParms(KeyParmsBytes(k).value + t) == Success((k, t))
  {
    DecodeParamsBack(k.algId, k.rsa, k.sym);
    var params := ParamBytes(k.algId, k.rsa, k.sym).value;
    var h := Header(k.algId, k.encScheme, k.sigScheme, |params| as uint32);
    Reassociate(KeyParmsHeader(h.alg, h.enc, h.sig, h.size), params, t);
    DecodeHeaderBack(h, params + t);
    TakeBytesBack(h.size, params, t);
  }

  lemma DecodeStorePubKeyBack(p: StorePubKey, t: seq<byte>)
    requires WellFormedStorePubKey(p)
    ensures DecodeStorePubKey(StorePubKeyBytes(p) + t) == Success((p, t))
  {
    assert StorePubKeyBytes(p) + t == U32(p.keyLength) + (p.key + t);
    TakeNonZeroU32Back(p.keyLength, p.key + t);
    TakeBytesBack(p.keyLength, p.key, t);
  }

  lemma DecodePubKeyBack(k: PubKey, t: seq<byte>)
    requires WellFormedPubKey(k)
    ensures PubKeyBytes(k).Success?
    ensures DecodePubKey(PubKeyBytes(k).value + t) == Success((k, t))
  {
    var store := StorePubKeyBytes(k.pubKey);
    DecodeKeyParmsBack(k.algorithmParms, store + t);
    DecodeStorePubKeyBack(k.pubKey, t);
    var parms := KeyParmsBytes(k.algorithmParms).value;
    Reassociate(parms, store, t);
  }

  /**
   TPM_PUBKEY: the parser accepts b, returns k and leaves t exactly when k is well formed
   and b is the printed k followed by t. Reading right to left this is parse-after-print for
   every tail; left to right it is print-after-parse, so no key has two encodings.
   */
  lemma PubKeyExact(b: seq<byte>, k: PubKey, t: seq<byte>)
    ensures DecodePubKey(b) == Success((k, t)) <==>
            WellFormedPubKey(k) && PubKeyBytes(k).Success? && b == PubKeyBytes(k).value + t
  {
    if WellFormedPubKey(k) {
      DecodePubKeyBack(k, t);
    }
  }

  /** The same for TPM_KEY_PARMS. */
  lemma KeyParmsExact(b: seq<byte>, k: KeyParms, t: seq<byte>)
    ensures DecodeKeyParms(b) == Success((k, t)) <==>
            WellFormedKeyParms(k) && KeyParmsBytes(k).Success? && b == KeyParmsBytes(k).value + t
  {
    if WellFormedKeyParms(k) {
      DecodeKeyParmsBack(k, t);
    }
  }

  /** Printed keys are self-delimiting: neither a key nor its tail can be read another way. */
  lemma PubKeyInjective(k: PubKey, l: PubKey, s: seq<byte>, t: seq<byte>)
    requires WellFormedPubKey(k) && WellFormedPubKey(l)
    requires PubKeyBytes(k).Success? && PubKeyBytes(l).Success?
    requires PubKeyBytes(k).value + s == PubKeyBytes(l).value + t
    ensures k == l && s == t
  {
    DecodePubKeyBack(k, s);
    DecodePubKeyBack(l, t);
  }
}
