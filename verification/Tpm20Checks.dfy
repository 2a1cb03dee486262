/** The TPM 2.0 checks: endorsement keys, certify info, key attributes and signatures. */
module Tpm20Checks {
  import opened Common
  import opened BigEndian
  import opened RsaKeys
  import opened Tpm20Types
  import opened EnrollzDeps

  // ----- Endorsement keys --------------------------------------------------------------------

  const EK_BITS := 2048
  const MAX_EK_EXPONENT := 0x7FFF_FFFF

  /** The RSA EK template filled in: its exponent field and modulus buffer. */
  datatype EkPublic = EkPublic(exponent: uint32, modulus: seq<byte>)

  /** rsa.PublicKey.Size: the byte length of the modulus. */
  function KeySize(n: int): nat {
    (BitLen(Abs(n)) + 7) / 8
  }

  function ValidateRSAPublicKey(pk: Option<RsaPublicKey>): Result<()> {
    if pk.None? || pk.value.n.None? then Failure(NilInput)
    else if KeySize(pk.value.n.value) * 8 != EK_BITS then Failure(BadKeySize)
    else if pk.value.e < 2 || (pk.value.e as int) % 2 == 0 then Failure(ZeroExponent)
    else if pk.value.e as int > MAX_EK_EXPONENT then Failure(TooLong)
    else Success(())
  }

  /**
   Exactly the endorsement keys accepted: the size check is on whole bytes, and the largest
   exponent, 2^31 - 1, is included.
   */
  lemma EkAcceptedExactly(pk: RsaPublicKey)
    ensures ValidateRSAPublicKey(Some(pk)).Success? <==>
            && pk.n.Some? && 2041 <= BitLen(Abs(pk.n.value)) <= 2048
            && 3 <= pk.e as int <= 0x7FFF_FFFF && (pk.e as int) % 2 == 1
  {
  }

  /** TPMs write the default exponent 65537 as zero. */
  function RSAEKPublicKeyToTPMTPublic(pk: Option<RsaPublicKey>): Result<EkPublic> {
    var _ :- ValidateRSAPublicKey(pk);
    var e := if pk.value.e == DEFAULT_EXPONENT then 0 else pk.value.e;
    Success(EkPublic(e as uint32, Minimal(Abs(pk.value.n.value))))
  }

  /** How a TPM reads the template back. */
  function EkPublicToRsa(ek: EkPublic): RsaPublicKey {
    RsaPublicKey(Some(Value(ek.modulus)), if ek.exponent == 0 then DEFAULT_EXPONENT else ek.exponent as int64)
  }

  /**
   The template identifies the key: an accepted endorsement key is read back as the same
   exponent and modulus, and the zero that stands for 65537 cannot be any key's own exponent.
   */
  lemma EkTemplateBack(pk: RsaPublicKey)
    requires RSAEKPublicKeyToTPMTPublic(Some(pk)).Success?
    ensures var ek := RSAEKPublicKeyToTPMTPublic(Some(pk)).value;
            && EkPublicToRsa(ek) == RsaPublicKey(Some(Abs(pk.n.value)), pk.e)
            && |ek.modulus| == EK_BITS / 8
            && (ek.exponent == 0 <==> pk.e == DEFAULT_EXPONENT)
  {
    ValueOfMinimal(Abs(pk.n.value));
    MinimalLength(Abs(pk.n.value));
  }

  // ----- Primitives --------------------------------------------------------------------------

  datatype CryptoKey = RsaCryptoKey(id: nat) | EccCryptoKey(id: nat)

  /** Hashes, HMAC and signature verification as arbitrary functions. */
  datatype Primitives = Primitives(
    sha256: seq<byte> -> seq<byte>,
    hmacSha256: (seq<byte>, seq<byte>) -> seq<byte>,
    toCryptoKey: PublicArea -> Result<CryptoKey>,
    hash: (Algorithm, seq<byte>) -> Result<seq<byte>>,
    verifyPkcs1v15: (CryptoKey, Algorithm, seq<byte>, seq<byte>) -> bool,
    verifyPss: (CryptoKey, Algorithm, seq<byte>, seq<byte>) -> bool,
    verifyEcdsa: (CryptoKey, seq<byte>, seq<byte>, seq<byte>) -> bool,
    createDuplicate: (EkPublic, seq<byte>, Sensitive) -> Result<(seq<byte>, seq<byte>)>)

  // ----- Checks ------------------------------------------------------------------------------

  function WrapHMACKeytoRSAPublicKey(t: GoTpm, c: Primitives, ek: Option<RsaPublicKey>, key: HmacKey): Result<(seq<byte>, seq<byte>)> {
    var ekPublic :- RSAEKPublicKeyToTPMTPublic(ek);
    var name :- t.objectName(key.pub);
    c.createDuplicate(ekPublic, name, key.sensitive)
  }

  /** The HMAC is over SHA-256 of the message. */
  function VerifyHMAC(t: GoTpm, c: Primitives, message: seq<byte>, signature: seq<byte>, sensitive: Sensitive): Result<()> {
    if message == [] || signature == [] then Failure(EmptyInput)
    else
      var sig :- t.unmarshalSignature(signature);
      if !sig.body.HmacSignature? then Failure(BadSignature)
      else if sig.body.hmacHash != AlgSHA256 then Failure(UnsupportedAlgorithm)
      else if sensitive.bits.None? then Failure(NilInput)
      else if sig.body.digest != c.hmacSha256(sensitive.bits.value, c.sha256(message)) then Failure(HmacMismatch)
      else Success(())
  }

  function VerifyCertifyInfo(t: GoTpm, attest: Attest, certifiedKey: PublicArea): Result<()> {
    if attest.magic != TPM_GENERATED then Failure(InvalidCertifyInfo)
    else if attest.kind != AttestCertify then Failure(InvalidCertifyInfo)
    else
      var keyName :- t.objectName(certifiedKey);
      if !attest.attested.Certify? then Failure(InvalidCertifyInfo)
      else if keyName != attest.attested.name then Failure(WrongName)
      else if attest.attested.qualifiedName == attest.attested.name then Failure(WrongName)
      else Success(())
  }

  const IAK_ATTRIBUTES := ObjectAttributes(true, true, true, true, false, true, true, true)
  const IDEVID_ATTRIBUTES := ObjectAttributes(true, false, true, true, false, true, true, true)

  function VerifyTPMTPublicAttributes(key: PublicArea, expected: ObjectAttributes): Result<()> {
    Require(key.attributes == expected, AttributeMismatch)
  }

  function VerifyIAKAttributes(t: GoTpm, iakPub: seq<byte>): Result<PublicArea> {
    var key :- t.unmarshalPublic2B(iakPub);
    var _ :- VerifyTPMTPublicAttributes(key, IAK_ATTRIBUTES);
    if key.nameAlg != AlgSHA256 && key.nameAlg != AlgSHA384 then Failure(AttributeMismatch)
    else Success(key)
  }

  /** The ECC NIST P384 key template. */
  function VerifyIdevidAttributes(key: PublicArea, template: KeyTemplate): Result<()> {
    var _ :- VerifyTPMTPublicAttributes(key, IDEVID_ATTRIBUTES);
    if template != TemplateEccNistP384 then Failure(UnsupportedAlgorithm)
    else Require(
      && key.alg == AlgECC && key.nameAlg == AlgSHA384
      && key.parameters.EccDetail? && key.parameters.curve == NistP384 && key.parameters.eccScheme == AlgECDSA,
      AttributeMismatch)
  }

  function VerifyRsaSignature(
    c: Primitives, data: seq<byte>, sig: Signature, key: PublicArea,
    verify: (CryptoKey, Algorithm, seq<byte>, seq<byte>) -> bool): Result<()>
  {
    if key.alg != AlgRSA then Failure(UnsupportedAlgorithm)
    else if !key.parameters.RsaDetail? then Failure(UnsupportedAlgorithm)
    else if key.parameters.scheme != sig.sigAlg then Failure(UnsupportedScheme)
    else if !sig.body.RsaSignature? then Failure(BadSignature)
    else
      var cryptoKey :- c.toCryptoKey(key);
      if !cryptoKey.RsaCryptoKey? then Failure(UnsupportedAlgorithm)
      else
        var hashed :- c.hash(sig.body.hash, data);
        Require(verify(cryptoKey, sig.body.hash, hashed, sig.body.bytes), BadSignature)
  }

  function VerifyEccSignature(c: Primitives, data: seq<byte>, sig: Signature, key: PublicArea): Result<()> {
    if key.alg != AlgECC then Failure(UnsupportedAlgorithm)
    else if !key.parameters.EccDetail? then Failure(UnsupportedAlgorithm)
    else if key.parameters.eccScheme != sig.sigAlg then Failure(UnsupportedScheme)
    else if !sig.body.EccSignature? then Failure(BadSignature)
    else
      var cryptoKey :- c.toCryptoKey(key);
      if !cryptoKey.EccCryptoKey? then Failure(UnsupportedAlgorithm)
      else
        var hashed :- c.hash(sig.body.eccHash, data);
        Require(c.verifyEcdsa(cryptoKey, hashed, sig.body.r, sig.body.s), BadSignature)
  }

  function VerifyTPMTSignature(c: Primitives, data: seq<byte>, sig: Signature, key: PublicArea): Result<()> {
    match sig.sigAlg
    case AlgRSASSA => VerifyRsaSignature(c, data, sig, key, c.verifyPkcs1v15)
    case AlgRSAPSS => VerifyRsaSignature(c, data, sig, key, c.verifyPss)
    case AlgECDSA => VerifyEccSignature(c, data, sig, key)
    case _ => Failure(UnsupportedScheme)
  }

  // ----- What the cryptographic checks rest on -----------------------------------------------

  /** The MAC bytes carry the HMAC of SHA-256 of the message under this key. */
  ghost predicate MacMatches(t: GoTpm, c: Primitives, message: seq<byte>, mac: seq<byte>, sensitive: Sensitive) {
    && t.unmarshalSignature(mac).Success? && t.unmarshalSignature(mac).value.body.HmacSignature?
    && sensitive.bits.Some?
    && t.unmarshalSignature(mac).value.body.digest == c.hmacSha256(sensitive.bits.value, c.sha256(message))
  }

  /** An HMAC is accepted exactly when it is the SHA-256 one of exactly this message under exactly this key. */
  lemma HmacAcceptedExactly(t: GoTpm, c: Primitives, message: seq<byte>, mac: seq<byte>, sensitive: Sensitive)
    ensures VerifyHMAC(t, c, message, mac, sensitive).Success? <==>
            && message != [] && mac != []
            && MacMatches(t, c, message, mac, sensitive)
            && t.unmarshalSignature(mac).value.body.hmacHash == AlgSHA256
  {
  }

  // ----- What the other checks accept --------------------------------------------------------

  /** The HMAC key is sealed exactly when the endorsement key is acceptable and names and sealing work. */
  lemma WrapsExactly(t: GoTpm, c: Primitives, ek: Option<RsaPublicKey>, key: HmacKey, out: (seq<byte>, seq<byte>))
    ensures WrapHMACKeytoRSAPublicKey(t, c, ek, key) == Success(out) <==>
            && ek.Some? && ValidateRSAPublicKey(ek).Success? && t.objectName(key.pub).Success?
            && c.createDuplicate(RSAEKPublicKeyToTPMTPublic(ek).value, t.objectName(key.pub).value, key.sensitive) == Success(out)
  {
  }

  /** A certify info is accepted for a key exactly when a TPM made it, it certifies the key's name, and the qualified name differs. */
  lemma CertifyInfoAcceptedExactly(t: GoTpm, info: Attest, key: PublicArea)
    ensures VerifyCertifyInfo(t, info, key).Success? <==>
            && info.magic == 0xFF54_4347 && info.kind == AttestCertify && info.attested.Certify?
            && t.objectName(key) == Success(info.attested.name)
            && info.attested.qualifiedName != info.attested.name
  {
  }

  /** A signing key that never leaves its TPM, with user authorization and an admin policy. */
  predicate FixedSigningKey(a: ObjectAttributes) {
    && a.fixedTPM && a.fixedParent && a.sensitiveDataOrigin && a.signEncrypt && !a.decrypt
    && a.userWithAuth && a.adminWithPolicy
  }

  /** Exactly the IAKs accepted: restricted, fixed signing keys named under SHA-256 or SHA-384. */
  lemma IakAcceptedExactly(t: GoTpm, iakPub: seq<byte>, key: PublicArea)
    ensures VerifyIAKAttributes(t, iakPub) == Success(key) <==>
            && t.unmarshalPublic2B(iakPub) == Success(key)
            && FixedSigningKey(key.attributes) && key.attributes.restricted
            && (key.nameAlg == AlgSHA256 || key.nameAlg == AlgSHA384)
  {
  }

  /** Exactly the IDevID keys accepted under the template: unrestricted, fixed ECDSA keys on P-384. */
  lemma IdevidAcceptedExactly(key: PublicArea, template: KeyTemplate)
    ensures VerifyIdevidAttributes(key, template).Success? <==>
            && template == TemplateEccNistP384
            && FixedSigningKey(key.attributes) && !key.attributes.restricted
            && key.alg == AlgECC && key.nameAlg == AlgSHA384 && key.parameters == EccDetail(NistP384, AlgECDSA)
  {
  }

  /** The signature's own primitive accepts it for this key over the hash of the message. */
  predicate SignedBy(c: Primitives, key: CryptoKey, message: seq<byte>, s: Signature) {
    match s.body
    case RsaSignature(hash, bytes) =>
      && key.RsaCryptoKey? && c.hash(hash, message).Success?
      && (|| (s.sigAlg == AlgRSASSA && c.verifyPkcs1v15(key, hash, c.hash(hash, message).value, bytes))
          || (s.sigAlg == AlgRSAPSS && c.verifyPss(key, hash, c.hash(hash, message).value, bytes)))
    case EccSignature(hash, r, sBytes) =>
      && key.EccCryptoKey? && c.hash(hash, message).Success?
      && s.sigAlg == AlgECDSA && c.verifyEcdsa(key, c.hash(hash, message).value, r, sBytes)
    case _ => false
  }

  /** The key's type, and the scheme in its parameters, are the signature's. */
  predicate DeclaresScheme(key: PublicArea, sigAlg: Algorithm) {
    match key.parameters
    case RsaDetail(scheme) => key.alg == AlgRSA && scheme == sigAlg && (sigAlg == AlgRSASSA || sigAlg == AlgRSAPSS)
    case EccDetail(_, scheme) => key.alg == AlgECC && scheme == sigAlg && sigAlg == AlgECDSA
    case OtherDetail => false
  }

  /**
   A signature is accepted exactly when the key declares its scheme and converts to a
   cryptographic key for which the primitive of that scheme accepts it over the hash of exactly
   this message.
   */
  lemma SignatureAcceptedExactly(c: Primitives, message: seq<byte>, s: Signature, pub: PublicArea)
    ensures VerifyTPMTSignature(c, message, s, pub).Success? <==>
            && DeclaresScheme(pub, s.sigAlg)
            && c.toCryptoKey(pub).Success? && SignedBy(c, c.toCryptoKey(pub).value, message, s)
    ensures VerifyTPMTSignature(c, message, s, pub).Success? <==>
            && c.toCryptoKey(pub).Success?
            && var key := c.toCryptoKey(pub).value;
            match pub.parameters
            case RsaDetail(scheme) =>
              && pub.alg == AlgRSA && scheme == s.sigAlg && s.body.RsaSignature? && key.RsaCryptoKey?
              && c.hash(s.body.hash, message).Success?
              && (|| (scheme == AlgRSASSA && c.verifyPkcs1v15(key, s.body.hash, c.hash(s.body.hash, message).value, s.body.bytes))
                  || (scheme == AlgRSAPSS && c.verifyPss(key, s.body.hash, c.hash(s.body.hash, message).value, s.body.bytes)))
            case EccDetail(_, scheme) =>
              && pub.alg == AlgECC && scheme == AlgECDSA && s.sigAlg == AlgECDSA && s.body.EccSignature? && key.EccCryptoKey?
              && c.hash(s.body.eccHash, message).Success?
              && c.verifyEcdsa(key, c.hash(s.body.eccHash, message).value, s.body.r, s.body.s)
            case OtherDetail => false
  {
  }
}
