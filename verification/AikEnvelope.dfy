/**
 The two TPM 1.2 envelopes: the identity request a device seals for the issuer, and the
 encrypted AIK certificate the issuer seals for the device. Cryptographic primitives are
 arbitrary functions; Lawful states the only laws used.
 */
module AikEnvelope {
  import opened Common
  import opened BigEndian
  import opened Wire
  import opened Tpm12Formats
  import opened Tpm12Identity
  import opened RsaKeys
  import opened IdentityBinding
  import opened AesCbc

  /** A private key: its public half and something secret. */
  datatype PrivateKey = PrivateKey(publicKey: RsaPublicKey, secret: nat)

  datatype HashKind = HashSha1 | HashNone

  /**
   RSA with the random coins of this run fixed; labels are the OAEP labels. The PKCS #1 v1.5
   encryption is the device's, the service only decrypts; matches says the halves of a key
   belong together.
   */
  datatype Rsa = Rsa(
    matches: PrivateKey -> bool,
    encryptOaep: (RsaPublicKey, seq<byte>, seq<byte>) -> Result<seq<byte>>,
    decryptOaep: (PrivateKey, seq<byte>, seq<byte>) -> Result<seq<byte>>,
    encryptPkcs1v15: (RsaPublicKey, seq<byte>) -> Result<seq<byte>>,
    decryptPkcs1v15: (PrivateKey, seq<byte>) -> Result<seq<byte>>,
    verifyPkcs1v15: (RsaPublicKey, HashKind, seq<byte>, seq<byte>) -> bool)
  {
    /** A matching private key opens what its public half sealed. */
    ghost predicate Lawful() {
      && (forall key: PrivateKey, tag: seq<byte>, data: seq<byte> ::
            matches(key) && encryptOaep(key.publicKey, tag, data).Success? ==>
              decryptOaep(key, tag, encryptOaep(key.publicKey, tag, data).value) == Success(data))
      && (forall key: PrivateKey, data: seq<byte> ::
            matches(key) && encryptPkcs1v15(key.publicKey, data).Success? ==>
              decryptPkcs1v15(key, encryptPkcs1v15(key.publicKey, data).value) == Success(data))
    }
  }

  datatype Crypto = Crypto(
    aes: Aes, sha1: Sha1, rsa: Rsa,
    marshalPkix: RsaPublicKey -> Result<seq<byte>>,
    pemEncode: seq<byte> -> seq<byte>)
  {
    ghost predicate Lawful() {
      LawfulAes(aes) && rsa.Lawful()
    }
  }

  /** "TCPA", the label for encrypting to the TPM; requests are opened with an empty label. */
  const TPM_LABEL: seq<byte> := [0x54, 0x43, 0x50, 0x41]

  // ----- From the device: the identity request ----------------------------------------------

  function DecryptWithPrivateKey(rsa: Rsa, key: PrivateKey, data: seq<byte>, alg: uint32, enc: uint16): Result<seq<byte>> {
    if alg != ALG_RSA then Failure(UnsupportedAlgorithm)
    else if enc == ES_RSA_OAEP_SHA1_MGF1 then rsa.decryptOaep(key, [], data)
    else if enc == ES_RSA_PKCSV15 then rsa.decryptPkcs1v15(key, data)
    else Failure(UnsupportedScheme)
  }

  function VerifySignatureWithRSAKey(rsa: Rsa, key: PubKey, signature: seq<byte>, digest: seq<byte>): Result<bool> {
    var pk :- TpmPubKeyToRSAPubKey(key);
    var scheme := key.algorithmParms.sigScheme;
    if scheme != SS_RSA_PKCS1V15_SHA1 && scheme != SS_RSA_PKCS1V15_DER then Failure(UnsupportedScheme)
    else
      var hash := if scheme == SS_RSA_PKCS1V15_SHA1 then HashSha1 else HashNone;
      if rsa.verifyPkcs1v15(pk, hash, digest, signature) then Success(true) else Failure(BadSignature)
  }

  /** Which ciphertexts open: RSA in one of the two schemes, OAEP with an empty label. */
  lemma PrivateKeyDecryptsExactly(rsa: Rsa, key: PrivateKey, data: seq<byte>, alg: uint32, enc: uint16, out: seq<byte>)
    ensures DecryptWithPrivateKey(rsa, key, data, alg, enc) == Success(out) <==>
            && alg == 1
            && (|| (enc == 3 && rsa.decryptOaep(key, [], data) == Success(out))
                || (enc == 2 && rsa.decryptPkcs1v15(key, data) == Success(out)))
  {
  }

  /** The RSA primitive accepts the signature under the hash the key's signature scheme stands for. */
  predicate SignedUnderScheme(rsa: Rsa, scheme: uint16, pk: RsaPublicKey, digest: seq<byte>, signature: seq<byte>) {
    || (scheme == 2 && rsa.verifyPkcs1v15(pk, HashSha1, digest, signature))
    || (scheme == 3 && rsa.verifyPkcs1v15(pk, HashNone, digest, signature))
  }

  /** A signature is accepted exactly when the key converts and the RSA primitive accepts it; else it is an error. */
  lemma AikSignatureAcceptedExactly(rsa: Rsa, key: PubKey, signature: seq<byte>, digest: seq<byte>)
    ensures VerifySignatureWithRSAKey(rsa, key, signature, digest) != Success(false)
    ensures VerifySignatureWithRSAKey(rsa, key, signature, digest) == Success(true) <==>
            && TpmPubKeyToRSAPubKey(key).Success?
            && SignedUnderScheme(rsa, key.algorithmParms.sigScheme, TpmPubKeyToRSAPubKey(key).value, digest, signature)
  {
  }

  /** The identity proof inside a request: decode, unwrap the session key, decrypt, decode. */
  function OpenRequest(c: Crypto, issuer: PrivateKey, request: seq<byte>): Result<IdentityProof> {
    var q :- DecodeIdentityReq(request);
    var keyBytes :- DecryptWithPrivateKey(c.rsa, issuer, q.asymBlob, q.asymAlgorithm.algId, q.asymAlgorithm.encScheme);
    var key :- DecodeSymmetricKey(keyBytes);
    var proofBytes :- Decrypt(c.aes, key, q.symAlgorithm, q.symBlob);
    DecodeIdentityProof(proofBytes)
  }

  /** The binding in the proof is the AIK's signature over the contents for this issuer. */
  predicate BindingVerified(c: Crypto, issuer: RsaPublicKey, proof: IdentityProof) {
    var signed := SignedContents(c.sha1, Some(issuer), proof.aik);
    && signed.Success?
    && VerifySignatureWithRSAKey(c.rsa, proof.aik, proof.identityBinding, c.sha1(signed.value)) == Success(true)
  }

  /** The blob decrypts, in one of the two schemes, to the encoding of this session key. */
  predicate Unwraps(rsa: Rsa, issuer: PrivateKey, parms: KeyParms, blob: seq<byte>, key: SymmetricKey) {
    && 0 < |key.key| <= 0xFFFF && key.algId in {1, 4, 5, 6, 7, 8, 9}
    && parms.algId == 1
    && (|| (parms.encScheme == 3 && rsa.decryptOaep(issuer, [], blob) == Success(SymmetricKeyLayout(key)))
        || (parms.encScheme == 2 && rsa.decryptPkcs1v15(issuer, blob) == Success(SymmetricKeyLayout(key))))
  }

  /** The request and the session key behind a proof, encoded as proofBytes. */
  predicate OpensTo(
    c: Crypto, issuer: PrivateKey, request: seq<byte>, proofBytes: seq<byte>,
    q: IdentityReq, zeros: seq<byte>, key: SymmetricKey)
  {
    && WellFormedIdentityReq(q) && AllZero(zeros) && request == IdentityReqLayout(q, zeros)
    && Unwraps(c.rsa, issuer, q.asymAlgorithm, q.asymBlob, key)
    && Decrypt(c.aes, key, q.symAlgorithm, q.symBlob) == Success(proofBytes)
  }

  /**
   Exactly the requests that open to a proof: the encoding of a request, and zeros, whose
   asymmetric blob decrypts to a session key under which the symmetric blob decrypts to the
   encoding of that proof.
   */
  lemma OpenRequestExact(c: Crypto, issuer: PrivateKey, request: seq<byte>, proof: IdentityProof)
    ensures OpenRequest(c, issuer, request) == Success(proof) <==>
            && WellFormedIdentityProof(proof)
            && exists q: IdentityReq, zeros: seq<byte>, key: SymmetricKey ::
              OpensTo(c, issuer, request, IdentityProofBytes(proof), q, zeros, key)
  {
    if OpenRequest(c, issuer, request) == Success(proof) {
      OpenedRequest(c, issuer, request, proof);
    }
    if WellFormedIdentityProof(proof) {
      forall q: IdentityReq, zeros: seq<byte>, key: SymmetricKey | OpensTo(c, issuer, request, IdentityProofBytes(proof), q, zeros, key)
        ensures OpenRequest(c, issuer, request) == Success(proof)
      {
        IdentityReqExact(request, q);
        SymmetricKeyExact(SymmetricKeyLayout(key), key);
        IdentityProofExact(IdentityProofBytes(proof), proof);
      }
    }
  }

  lemma OpenedRequest(c: Crypto, issuer: PrivateKey, request: seq<byte>, proof: IdentityProof)
    requires OpenRequest(c, issuer, request) == Success(proof)
    ensures WellFormedIdentityProof(proof)
    ensures exists q: IdentityReq, zeros: seq<byte>, key: SymmetricKey ::
              OpensTo(c, issuer, request, IdentityProofBytes(proof), q, zeros, key)
  {
    var q := DecodeIdentityReq(request).value;
    var keyBytes := DecryptWithPrivateKey(c.rsa, issuer, q.asymBlob, q.asymAlgorithm.algId, q.asymAlgorithm.encScheme).value;
    var key := DecodeSymmetricKey(keyBytes).value;
    var proofBytes := Decrypt(c.aes, key, q.symAlgorithm, q.symBlob).value;
    IdentityReqExact(request, q);
    var zeros :| AllZero(zeros) && request == IdentityReqLayout(q, zeros);
    SymmetricKeyExact(keyBytes, key);
    IdentityProofExact(proofBytes, proof);
    PrivateKeyDecryptsExactly(c.rsa, issuer, q.asymBlob, q.asymAlgorithm.algId, q.asymAlgorithm.encScheme, keyBytes);
    assert OpensTo(c, issuer, request, IdentityProofBytes(proof), q, zeros, key);
  }

  /** The session key under the issuer's key, in either scheme the service opens. */
  predicate WrapsKey(rsa: Rsa, issuer: RsaPublicKey, parms: KeyParms, key: SymmetricKey, blob: seq<byte>) {
    && parms.algId == ALG_RSA
    && WellFormedSymmetricKey(key) && AesKeySize(|key.key|)
    && (|| (parms.encScheme == ES_RSA_OAEP_SHA1_MGF1
            && rsa.encryptOaep(issuer, [], SymmetricKeyLayout(key)) == Success(blob))
        || (parms.encScheme == ES_RSA_PKCSV15
            && rsa.encryptPkcs1v15(issuer, SymmetricKeyLayout(key)) == Success(blob)))
  }

  /**
   The data padded and CBC encrypted, with the IV in the key parameters, or in front of the
   ciphertext when the parameters carry none; the parameters' other fields are free.
   */
  predicate SealsData(aes: Aes, key: SymmetricKey, iv: Block, parms: KeyParms, data: seq<byte>, blob: seq<byte>) {
    var x := CbcEncrypt(aes(key.key), iv, Pad(data));
    && parms.encScheme == ES_SYM_CBC_PKCS5
    && (|| (parms.sym.Some? && parms.sym.value.iv == iv && blob == x)
        || ((parms.sym.None? || parms.sym.value.iv == []) && blob == iv + x))
  }

  /** A request a TPM builds: session key under the issuer's key, proof under the session key. */
  ghost predicate HonestRequest(c: Crypto, issuer: RsaPublicKey, request: seq<byte>, proof: IdentityProof) {
    exists q: IdentityReq, key: SymmetricKey, iv: Block, zeros: seq<byte> ::
      SealedRequest(c, issuer, request, proof, q, key, iv, zeros)
  }

  ghost predicate SealedRequest(
    c: Crypto, issuer: RsaPublicKey, request: seq<byte>, proof: IdentityProof,
    q: IdentityReq, key: SymmetricKey, iv: Block, zeros: seq<byte>)
  {
    && WellFormedIdentityProof(proof)
    && WellFormedIdentityReq(q) && AllZero(zeros) && request == IdentityReqLayout(q, zeros)
    && WrapsKey(c.rsa, issuer, q.asymAlgorithm, key, q.asymBlob)
    && SealsData(c.aes, key, iv, q.symAlgorithm, IdentityProofBytes(proof), q.symBlob)
  }

  lemma SymmetricKeyBack(key: SymmetricKey)
    requires SymmetricKeyBytes(key).Success? && key.key != []
    ensures DecodeSymmetricKey(SymmetricKeyBytes(key).value) == Success(key)
  {
    SymmetricKeyExact(SymmetricKeyBytes(key).value, key);
  }

  lemma WrappedKeyOpens(rsa: Rsa, issuer: PrivateKey, parms: KeyParms, key: SymmetricKey, blob: seq<byte>)
    requires rsa.Lawful() && rsa.matches(issuer) && WrapsKey(rsa, issuer.publicKey, parms, key, blob)
    ensures DecryptWithPrivateKey(rsa, issuer, blob, parms.algId, parms.encScheme) == Success(SymmetricKeyLayout(key))
    ensures DecodeSymmetricKey(SymmetricKeyLayout(key)) == Success(key)
  {
    SymmetricKeyExact(SymmetricKeyLayout(key), key);
  }

  /** Decryption finds the IV in either place and removes the padding. */
  lemma SealedDataDecrypts(aes: Aes, key: SymmetricKey, iv: Block, parms: KeyParms, data: seq<byte>, blob: seq<byte>)
    requires LawfulAes(aes) && AesKeySize(|key.key|) && SealsData(aes, key, iv, parms, data, blob)
    ensures Decrypt(aes, key, parms, blob) == Success(data)
  {
    var x := CbcEncrypt(aes(key.key), iv, Pad(data));
    CbcDecryptEncrypt(aes(key.key), iv, Pad(data));
    UnpadOfPad(data);
    assert (iv + x)[..BLOCK] == iv && (iv + x)[BLOCK..] == x;
  }

  /** Every request built that way opens to the proof it was built from. */
  lemma HonestRequestOpens(c: Crypto, issuer: PrivateKey, request: seq<byte>, proof: IdentityProof)
    requires c.Lawful() && c.rsa.matches(issuer) && HonestRequest(c, issuer.publicKey, request, proof)
    ensures OpenRequest(c, issuer, request) == Success(proof)
  {
    var q: IdentityReq, key: SymmetricKey, iv: Block, zeros: seq<byte> :|
      SealedRequest(c, issuer.publicKey, request, proof, q, key, iv, zeros);
    IdentityReqExact(request, q);
    WrappedKeyOpens(c.rsa, issuer, q.asymAlgorithm, key, q.asymBlob);
    SealedDataDecrypts(c.aes, key, iv, q.symAlgorithm, IdentityProofBytes(proof), q.symBlob);
    IdentityProofExact(IdentityProofBytes(proof), proof);
  }

  // ----- To the device: the encrypted certificate -------------------------------------------

  function ConstructAsymCAContents(sha1: Sha1, key: SymmetricKey, identityKey: PubKey): Result<AsymCAContents> {
    var _ :- ValidateSymmetricKey(key);
    var identityKeyBytes :- PubKeyBytes(identityKey);
    Success(AsymCAContents(key, sha1(identityKeyBytes)))
  }

  function EncryptWithPublicKey(rsa: Rsa, publicKey: RsaPublicKey, data: seq<byte>, alg: uint32, enc: uint16): Result<seq<byte>> {
    if data == [] then Failure(EmptyInput)
    else if publicKey.n.None? then Failure(NilInput)
    else if publicKey.n.value == 0 then Failure(ZeroValue)
    else if alg != ALG_RSA then Failure(UnsupportedAlgorithm)
    else if enc != ES_RSA_OAEP_SHA1_MGF1 then Failure(UnsupportedScheme)
    else rsa.encryptOaep(publicKey, TPM_LABEL, data)
  }

  /** What is sealed to a TPM: RSA-OAEP with SHA-1 and the label "TCPA", of non-empty data. */
  lemma PublicKeyEncryptsExactly(rsa: Rsa, pk: RsaPublicKey, data: seq<byte>, alg: uint32, enc: uint16, out: seq<byte>)
    ensures EncryptWithPublicKey(rsa, pk, data, alg, enc) == Success(out) <==>
            && data != [] && pk.n.Some? && pk.n.value != 0 && alg == 1 && enc == 3
            && rsa.encryptOaep(pk, [0x54, 0x43, 0x50, 0x41], data) == Success(out)
  {
  }

  /** The certificate under the session key, as a TPM_SYM_CA_ATTESTATION. */
  function AikCertBlob(c: Crypto, key: SymmetricKey, iv: Block, cert: seq<byte>): Result<seq<byte>> {
    var (ciphertext, parms) :- Encrypt(c.aes, key, iv, cert);
    SymCAAttestationBytes(SymCAAttestation(parms, ciphertext))
  }

  /** The session key and the AIK's digest, as a TPM_ASYM_CA_CONTENTS. */
  function KeyMaterial(c: Crypto, key: SymmetricKey, aik: PubKey): Result<seq<byte>> {
    var contents :- ConstructAsymCAContents(c.sha1, key, aik);
    AsymCAContentsBytes(contents)
  }

  function SymKeyBlob(c: Crypto, ek: RsaPublicKey, material: seq<byte>): Result<seq<byte>> {
    EncryptWithPublicKey(c.rsa, ek, material, ALG_RSA, ES_RSA_OAEP_SHA1_MGF1)
  }

  /** The session key in front of the 20-byte digest, if the digest is that of this AIK. */
  function DeviceSessionKey(c: Crypto, aik: PubKey, material: seq<byte>): Result<SymmetricKey> {
    if |material| < DIGEST_SIZE then Failure(Truncated)
    else
      var cut := |material| - DIGEST_SIZE;
      var aikBytes :- PubKeyBytes(aik);
      if material[cut..] != c.sha1(aikBytes) then Failure(WrongName)
      else DecodeSymmetricKey(material[..cut])
  }

  /** The attestation split by its credential size and key parameters. */
  function DeviceSplit(blob: seq<byte>): Result<SymCAAttestation> {
    var (size, b1) :- TakeU32(blob);
    var (parms, b2) :- DecodeKeyParms(b1);
    var (credential, b3) :- TakeBytes(b2, size);
    if b3 != [] then Failure(Leftover) else Success(SymCAAttestation(parms, credential))
  }

  /** A device activating its identity: what it reads out of the two blobs. */
  function DeviceActivate(c: Crypto, ek: PrivateKey, aik: PubKey, symKeyBlob: seq<byte>, aikCertBlob: seq<byte>): Result<seq<byte>> {
    var material :- c.rsa.decryptOaep(ek, TPM_LABEL, symKeyBlob);
    var key :- DeviceSessionKey(c, aik, material);
    var attestation :- DeviceSplit(aikCertBlob);
    Decrypt(c.aes, key, attestation.algorithm, attestation.credential)
  }

  /** The attestation is self-delimiting: the device splits off what the service put in. */
  lemma AttestationSplits(a: SymCAAttestation)
    requires WellFormedKeyParms(a.algorithm) && |a.credential| <= MAX_UINT32
    ensures SymCAAttestationBytes(a).Success?
    ensures DeviceSplit(SymCAAttestationBytes(a).value) == Success(a)
  {
    var size := |a.credential| as uint32;
    DecodeKeyParmsBack(a.algorithm, a.credential);
    var parms := KeyParmsBytes(a.algorithm).value;
    Reassociate(U32(size), parms, a.credential);
    TakeU32Back(size, parms + a.credential);
    assert a.credential == a.credential + [];
    TakeBytesBack(size, a.credential, []);
  }

  lemma SessionKeyBack(c: Crypto, key: SymmetricKey, aik: PubKey)
    requires KeyMaterial(c, key, aik).Success? && key.key != []
    ensures DeviceSessionKey(c, aik, KeyMaterial(c, key, aik).value) == Success(key)
  {
    SymmetricKeyBack(key);
    var digest := c.sha1(PubKeyBytes(aik).value);
    var material := KeyMaterial(c, key, aik).value;
    assert material == SymmetricKeyBytes(key).value + digest;
    assert material[..|material| - DIGEST_SIZE] == SymmetricKeyBytes(key).value;
    assert material[|material| - DIGEST_SIZE..] == digest;
  }

  predicate SessionKey(key: SymmetricKey) {
    ValidateSymmetricKey(key).Success? && AesKeySize(|key.key|)
  }

  /** Exactly when the certificate blob can be built: only its length can stand in the way. */
  lemma AikCertBlobBuilt(c: Crypto, key: SymmetricKey, iv: Block, cert: seq<byte>)
    requires SessionKey(key)
    ensures AikCertBlob(c, key, iv, cert).Success? <==>
            cert != [] && |cert| + PadLength(|cert|) <= MAX_UINT32
    ensures AikCertBlob(c, key, iv, cert).Success? ==>
            var (ciphertext, parms) := Encrypt(c.aes, key, iv, cert).value;
            DeviceSplit(AikCertBlob(c, key, iv, cert).value) == Success(SymCAAttestation(parms, ciphertext))
  {
    if cert != [] {
      var (ciphertext, parms) := Encrypt(c.aes, key, iv, cert).value;
      assert |ciphertext| == |cert| + PadLength(|cert|);
      assert WellFormedKeyParms(parms);
      if |ciphertext| <= MAX_UINT32 {
        AttestationSplits(SymCAAttestation(parms, ciphertext));
      }
    }
  }

  lemma KeyMaterialBuilt(c: Crypto, key: SymmetricKey, aik: PubKey)
    requires SessionKey(key) && WellFormedPubKey(aik)
    ensures KeyMaterial(c, key, aik).Success? && KeyMaterial(c, key, aik).value != []
  {
    DecodePubKeyBack(aik, []);
  }

  lemma SealOpens(c: Crypto, ek: PrivateKey, material: seq<byte>)
    requires c.rsa.Lawful() && c.rsa.matches(ek) && SymKeyBlob(c, ek.publicKey, material).Success?
    ensures c.rsa.decryptOaep(ek, TPM_LABEL, SymKeyBlob(c, ek.publicKey, material).value) == Success(material)
  {
  }

  lemma CertificateDecrypts(c: Crypto, key: SymmetricKey, iv: Block, cert: seq<byte>)
    requires LawfulAes(c.aes) && Encrypt(c.aes, key, iv, cert).Success?
    ensures var (ciphertext, parms) := Encrypt(c.aes, key, iv, cert).value;
            Decrypt(c.aes, key, parms, ciphertext) == Success(cert)
  {
    DecryptUndoesEncrypt(c.aes, key, iv, cert, Encrypt(c.aes, key, iv, cert).value.1.(sym := None));
  }

  lemma ActivateSteps(
    c: Crypto, ek: PrivateKey, aik: PubKey, symKeyBlob: seq<byte>, aikCertBlob: seq<byte>,
    material: seq<byte>, key: SymmetricKey, a: SymCAAttestation)
    requires c.rsa.decryptOaep(ek, TPM_LABEL, symKeyBlob) == Success(material)
    requires DeviceSessionKey(c, aik, material) == Success(key)
    requires DeviceSplit(aikCertBlob) == Success(a)
    ensures DeviceActivate(c, ek, aik, symKeyBlob, aikCertBlob) == Decrypt(c.aes, key, a.algorithm, a.credential)
  {
  }

  /**
   Envelope completeness: the device holding the endorsement key and the AIK reads out of the
   two blobs exactly the certificate that was issued, for every certificate, session key, IV
   and AIK.
   */
  lemma EnvelopeOpens(c: Crypto, ek: PrivateKey, aik: PubKey, key: SymmetricKey, iv: Block, cert: seq<byte>)
    requires c.Lawful() && c.rsa.matches(ek) && SessionKey(key)
    requires AikCertBlob(c, key, iv, cert).Success?
    requires KeyMaterial(c, key, aik).Success?
    requires SymKeyBlob(c, ek.publicKey, KeyMaterial(c, key, aik).value).Success?
    ensures DeviceActivate(c, ek, aik,
                           SymKeyBlob(c, ek.publicKey, KeyMaterial(c, key, aik).value).value,
                           AikCertBlob(c, key, iv, cert).value) == Success(cert)
  {
    var material := KeyMaterial(c, key, aik).value;
    var (ciphertext, parms) := Encrypt(c.aes, key, iv, cert).value;
    AikCertBlobBuilt(c, key, iv, cert);
    SessionKeyBack(c, key, aik);
    SealOpens(c, ek, material);
    ActivateSteps(c, ek, aik, SymKeyBlob(c, ek.publicKey, material).value, AikCertBlob(c, key, iv, cert).value,
                  material, key, SymCAAttestation(parms, ciphertext));
    CertificateDecrypts(c, key, iv, cert);
  }
}
