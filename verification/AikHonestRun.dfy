/**
 The TPM 1.2 stream with the default utilities: what its checks mean, and that a run with an
 honest device in which no dependency fails always finalizes.
 */
module AikHonestRun {
  import opened Common
  import opened BigEndian
  import opened Tpm12Formats
  import opened Tpm12Identity
  import opened RsaKeys
  import opened IdentityBinding
  import opened AesCbc
  import opened AikEnvelope
  import opened AikStream
  import opened AikProtocol

  function NewAESCBCKey(random: nat -> seq<byte>, alg: uint32): Result<SymmetricKey> {
    if !IsAes(alg) then Failure(UnsupportedAlgorithm)
    else
      var size := if alg == ALG_AES128 then 16 else if alg == ALG_AES192 then 24 else 32;
      Success(SymmetricKey(alg, ES_SYM_CBC_PKCS5, random(size)))
  }

  /** The three AES key sizes, and CBC with PKCS padding. */
  lemma NewKeyExactly(random: nat -> seq<byte>, alg: uint32)
    ensures NewAESCBCKey(random, alg)
         == match alg
            case 6 => Success(SymmetricKey(6, 0xFF, random(16)))
            case 8 => Success(SymmetricKey(8, 0xFF, random(24)))
            case 9 => Success(SymmetricKey(9, 0xFF, random(32)))
            case _ => Failure(UnsupportedAlgorithm)
  {
  }

  /** DefaultTPM12Utils, each operation as the function its imperative form is proved against. */
  function DefaultUtils(c: Crypto, random: nat -> seq<byte>, iv: Block): Tpm12Utils {
    Tpm12Utils(
      DecodeIdentityReq,
      (key, data, alg, enc) => DecryptWithPrivateKey(c.rsa, key, data, alg, enc),
      DecodeSymmetricKey,
      (key, parms, ciphertext) => Decrypt(c.aes, key, parms, ciphertext),
      DecodeIdentityProof,
      (publicKey, aik) => ConstructIdentityContents(c.sha1, Some(publicKey), aik),
      IdentityContentsBytes,
      (key, signature, digest) => VerifySignatureWithRSAKey(c.rsa, key, signature, digest),
      TpmPubKeyToRSAPubKey,
      alg => NewAESCBCKey(random, alg),
      (key, data) => Encrypt(c.aes, key, iv, data),
      SymCAAttestationBytes,
      (key, aik) => ConstructAsymCAContents(c.sha1, key, aik),
      AsymCAContentsBytes,
      (publicKey, data, alg, enc) => EncryptWithPublicKey(c.rsa, publicKey, data, alg, enc))
  }

  /** A run of the default implementation. */
  ghost predicate DefaultRun(run: Run, c: Crypto, random: nat -> seq<byte>, iv: Block) {
    && run.utils == DefaultUtils(c, random, iv)
    && run.sha1 == c.sha1 && run.marshalPkix == c.marshalPkix && run.pemEncode == c.pemEncode
    && |random(32)| == 32
  }

  lemma DefaultOpenedProof(run: Run, c: Crypto, random: nat -> seq<byte>, iv: Block, request: seq<byte>)
    requires DefaultRun(run, c, random, iv)
    ensures OpenedProof(run, request) == OpenRequest(c, run.issuer, request)
  {
  }

  /** The default binding check is the signature check over SHA-1 of the signed contents. */
  lemma DefaultBinding(run: Run, c: Crypto, random: nat -> seq<byte>, iv: Block, proof: IdentityProof)
    requires DefaultRun(run, c, random, iv)
    ensures CheckBinding(run, proof).Success? <==> BindingVerified(c, run.issuer.publicKey, proof)
  {
  }

  /** An accepted binding: the RSA primitive accepts it for the AIK's key, over SHA-1 of the signed contents. */
  lemma BindingMeans(c: Crypto, issuer: RsaPublicKey, proof: IdentityProof) returns (key: RsaPublicKey, signed: seq<byte>)
    requires BindingVerified(c, issuer, proof)
    ensures SignedContents(c.sha1, Some(issuer), proof.aik) == Success(signed)
    ensures TpmPubKeyToRSAPubKey(proof.aik) == Success(key)
    ensures SignedUnderScheme(c.rsa, proof.aik.algorithmParms.sigScheme, key, c.sha1(signed), proof.identityBinding)
  {
    signed := SignedContents(c.sha1, Some(issuer), proof.aik).value;
    AikSignatureAcceptedExactly(c.rsa, proof.aik, proof.identityBinding, c.sha1(signed));
    key := TpmPubKeyToRSAPubKey(proof.aik).value;
  }

  lemma DefaultPem(run: Run, c: Crypto, random: nat -> seq<byte>, iv: Block, aik: PubKey, pem: seq<byte>, key: RsaPublicKey)
    requires DefaultRun(run, c, random, iv) && PemOf(run, aik, pem) && TpmPubKeyToRSAPubKey(aik) == Success(key)
    ensures c.marshalPkix(key).Success? && pem == c.pemEncode(c.marshalPkix(key).value)
  {
    var k: RsaPublicKey, pkix: seq<byte> :| PemSteps(run, aik, k, pkix) && pem == run.pemEncode(pkix);
  }

  /**
   In every run of the default implementation, whatever the environment answers, the CA is asked
   only for the public key of the AIK in the request's proof, and for the card that answered; the
   RSA primitive accepts the proof's binding as a signature by that key, under the hash of its
   signature scheme, over SHA-1 of the identity contents for this run's issuer key.
   */
  lemma CaAskedOnlyForBoundAik(
    run: Run, c: Crypto, random: nat -> seq<byte>, iv: Block, h: seq<Event>, i: nat)
    returns (proof: IdentityProof, key: RsaPublicKey, signed: seq<byte>)
    requires DefaultRun(run, c, random, iv) && History(run, h) && i < |h| && h[i].AskedCa?
    ensures i == 3 && h[2].Received? && h[2].answer.Got? && h[2].answer.resp.value.ApplicationIdentityRequest?
    ensures OpenRequest(c, run.issuer, h[2].answer.resp.value.request) == Success(proof)
    ensures TpmPubKeyToRSAPubKey(proof.aik) == Success(key)
    ensures SignedContents(c.sha1, Some(run.issuer.publicKey), proof.aik) == Success(signed)
    ensures match proof.aik.algorithmParms.sigScheme
            case 2 => c.rsa.verifyPkcs1v15(key, HashSha1, c.sha1(signed), proof.identityBinding)
            case 3 => c.rsa.verifyPkcs1v15(key, HashNone, c.sha1(signed), proof.identityBinding)
            case _ => false
    ensures c.marshalPkix(key).Success? && h[i].aikPem == c.pemEncode(c.marshalPkix(key).value)
    ensures h[i].cardId == h[2].answer.resp.cardId
  {
    proof := CaAskedOnlyForVerifiedAik(run, h, i);
    var request := h[2].answer.resp.value.request;
    VerifiedProofExactly(run, request, proof);
    DefaultOpenedProof(run, c, random, iv, request);
    DefaultBinding(run, c, random, iv, proof);
    key, signed := BindingMeans(c, run.issuer.publicKey, proof);
    DefaultPem(run, c, random, iv, proof.aik, h[i].aikPem, key);
  }

  // ----- Honest runs -------------------------------------------------------------------------

  /** No call fails, the CA issues a certificate of encodable size, the RoT database knows the key. */
  predicate Works(ek: PrivateKey, e: Event) {
    match e
    case Opened(ok) => ok
    case Sent(_, _, ok) => ok
    case Received(answer) => !answer.RecvError?
    case AskedCa(_, _, cert) => cert.Some? && cert.value != [] && |cert.value| + PadLength(|cert.value|) <= MAX_UINT32
    case AskedRot(_, _, found) => found == EkFound(ek.publicKey)
    case ClosedSend(ok) => ok
  }

  /** Bytes the endorsement key must be able to seal: key header, AES-256 key, digest. */
  const MATERIAL_SIZE := 8 + 32 + DIGEST_SIZE

  /** The two halves of the endorsement key belong together and it can seal that much. */
  ghost predicate EkWorks(c: Crypto, ek: PrivateKey) {
    && c.rsa.matches(ek)
    && ek.publicKey.n.Some? && ek.publicKey.n.value != 0
    && forall m :: |m| == MATERIAL_SIZE ==> c.rsa.encryptOaep(ek.publicKey, TPM_LABEL, m).Success?
  }

  /** The public key an AIK converts to has a PKIX form. */
  predicate AikMarshals(run: Run, aik: PubKey) {
    TpmPubKeyToRSAPubKey(aik).Success? ==> run.marshalPkix(TpmPubKeyToRSAPubKey(aik).value).Success?
  }

  /** No call fails; the issuer's and the AIK's public keys have a PKIX form. */
  ghost predicate DependenciesWork(run: Run, c: Crypto, ek: PrivateKey, aik: PubKey, h: seq<Event>) {
    && c.rsa.matches(run.issuer) && EkWorks(c, ek)
    && run.marshalPkix(run.issuer.publicKey).Success? && AikMarshals(run, aik)
    && forall i :: 0 <= i < |h| ==> Works(ek, h[i])
  }

  /** The device answers the payload with what `activate` reads out of its two blobs. */
  predicate Echoes(activate: (seq<byte>, seq<byte>) -> Result<seq<byte>>, h: seq<Event>) {
    |h| > 6 && h[5].Sent? && h[5].message.IssuerCertPayload? && h[6].Received? ==>
      && h[6].answer.Got?
      && activate(h[5].message.symmetricKeyBlob, h[5].message.aikCertBlob) == Success(h[6].answer.resp.GetAikCert())
  }

  /** A device with this endorsement key and AIK. */
  function Device(c: Crypto, ek: PrivateKey, aik: PubKey): (seq<byte>, seq<byte>) -> Result<seq<byte>> {
    (symKeyBlob, aikCertBlob) => DeviceActivate(c, ek, aik, symKeyBlob, aikCertBlob)
  }

  /** The device answers the issuer key with a request a TPM builds around a proof with a valid binding. */
  ghost predicate Requests(run: Run, c: Crypto, proof: IdentityProof, h: seq<Event>) {
    && BindingVerified(c, run.issuer.publicKey, proof)
    && (|h| > 2 && h[2].Received? ==>
          && h[2].answer.Got?
          && HonestRequest(c, run.issuer.publicKey, h[2].answer.resp.GetApplicationIdentityRequest(), proof))
  }

  ghost predicate HonestDevice(run: Run, c: Crypto, ek: PrivateKey, proof: IdentityProof, h: seq<Event>) {
    Requests(run, c, proof, h) && Echoes(Device(c, ek, proof.aik), h)
  }

  lemma HonestProofVerifies(run: Run, c: Crypto, random: nat -> seq<byte>, iv: Block, request: seq<byte>, proof: IdentityProof)
    requires DefaultRun(run, c, random, iv) && c.Lawful() && c.rsa.matches(run.issuer)
    requires HonestRequest(c, run.issuer.publicKey, request, proof)
    requires BindingVerified(c, run.issuer.publicKey, proof)
    ensures request != [] && VerifiedProof(run, request) == Success(proof)
    ensures WellFormedPubKey(proof.aik)
  {
    HonestRequestOpens(c, run.issuer, request, proof);
    DefaultOpenedProof(run, c, random, iv, request);
    DefaultBinding(run, c, random, iv, proof);
  }

  lemma VerifiedAikConverts(run: Run, c: Crypto, random: nat -> seq<byte>, iv: Block, proof: IdentityProof)
    requires DefaultRun(run, c, random, iv) && AikMarshals(run, proof.aik)
    requires BindingVerified(c, run.issuer.publicKey, proof)
    ensures AikPem(run, proof.aik).Success?
  {
  }

  lemma EnvelopeBuilt(c: Crypto, key: SymmetricKey, iv: Block, aik: PubKey, cert: seq<byte>)
    requires SessionKey(key) && |key.key| == 32 && WellFormedPubKey(aik)
    requires cert != [] && |cert| + PadLength(|cert|) <= MAX_UINT32
    ensures AikCertBlob(c, key, iv, cert).Success?
    ensures KeyMaterial(c, key, aik).Success? && |KeyMaterial(c, key, aik).value| == MATERIAL_SIZE
  {
    AikCertBlobBuilt(c, key, iv, cert);
    KeyMaterialBuilt(c, key, aik);
  }

  lemma DefaultEnvelope(run: Run, c: Crypto, random: nat -> seq<byte>, iv: Block, aik: PubKey, cert: seq<byte>)
    requires DefaultRun(run, c, random, iv)
    requires var key := SymmetricKey(ALG_AES256, ES_SYM_CBC_PKCS5, random(32));
             AikCertBlob(c, key, iv, cert).Success? && KeyMaterial(c, key, aik).Success?
    ensures var key := SymmetricKey(ALG_AES256, ES_SYM_CBC_PKCS5, random(32));
            Envelope(run, aik, cert) == Success((AikCertBlob(c, key, iv, cert).value, KeyMaterial(c, key, aik).value))
  {
    var key := SymmetricKey(ALG_AES256, ES_SYM_CBC_PKCS5, random(32));
    assert run.utils.newAESCBCKey(ALG_AES256) == Success(key);
  }

  /** The payload is built, and the device reads this certificate out of it. */
  predicate Reads(activate: (seq<byte>, seq<byte>) -> Result<seq<byte>>, payload: Result<Message>, cert: seq<byte>) {
    && payload.Success? && payload.value.IssuerCertPayload?
    && activate(payload.value.symmetricKeyBlob, payload.value.aikCertBlob) == Success(cert)
  }

  /** The payload is built, and the honest device reads the issued certificate out of it. */
  lemma PayloadOpens(
    run: Run, c: Crypto, random: nat -> seq<byte>, iv: Block, ek: PrivateKey, proof: IdentityProof,
    resp: Response, cert: seq<byte>)
    requires DefaultRun(run, c, random, iv) && c.Lawful() && EkWorks(c, ek)
    requires WellFormedPubKey(proof.aik)
    requires VerifiedProof(run, resp.GetApplicationIdentityRequest()) == Success(proof)
    requires cert != [] && |cert| + PadLength(|cert|) <= MAX_UINT32
    ensures EnvelopeFor(run, resp, cert).Success?
    ensures Reads(Device(c, ek, proof.aik), Payload(run, resp, cert, EkFound(ek.publicKey)), cert)
  {
    var key := SymmetricKey(ALG_AES256, ES_SYM_CBC_PKCS5, random(32));
    EnvelopeBuilt(c, key, iv, proof.aik, cert);
    DefaultEnvelope(run, c, random, iv, proof.aik, cert);
    var material := KeyMaterial(c, key, proof.aik).value;
    assert run.utils.encryptWithPublicKey(ek.publicKey, material, ALG_RSA, ES_RSA_OAEP_SHA1_MGF1)
        == SymKeyBlob(c, ek.publicKey, material);
    assert SymKeyBlob(c, ek.publicKey, material) == c.rsa.encryptOaep(ek.publicKey, TPM_LABEL, material);
    EnvelopeOpens(c, ek, proof.aik, key, iv, cert);
  }

  /** So what the device echoes is the certificate that was issued. */
  lemma HonestEcho(
    run: Run, ek: RsaPublicKey, activate: (seq<byte>, seq<byte>) -> Result<seq<byte>>, h: seq<Event>, resp: Response, cert: seq<byte>)
    requires History(run, h) && Shaped(h) && |h| > 6
    requires h[2].answer == Got(resp) && h[3].cert == Some(cert) && h[4].found == EkFound(ek)
    requires Echoes(activate, h) && Reads(activate, Payload(run, resp, cert, EkFound(ek)), cert)
    ensures h[6].answer.Got? && h[6].answer.resp.GetAikCert() == cert
  {
    HistoryAt(run, h, 5);
    var p := h[..5];
    assert p[2] == h[2] && p[3] == h[3] && p[4] == h[4];
  }

  /** The end of an honest run: nothing is left to fail. */
  lemma HonestTail(run: Run, ek: PrivateKey, h: seq<Event>, r: Result<()>, resp: Response, cert: seq<byte>)
    requires Finished(run, h, r) && |h| > 3
    requires h[2].answer == Got(resp) && h[3].cert == Some(cert) && cert != []
    requires forall i :: 0 <= i < |h| ==> Works(ek, h[i])
    requires EnvelopeFor(run, resp, cert).Success?
    requires Payload(run, resp, cert, EkFound(ek.publicKey)).Success?
    requires |h| > 6 ==> h[6].answer.Got? && h[6].answer.resp.GetAikCert() == cert
    ensures r == Success(())
  {
    assert forall i {:trigger h[i]} :: 0 <= i < |h| ==> Works(ek, h[i]);
    assert |h| > 4 ==> h[4].found == EkFound(ek.publicKey);
    assert |h| > 5 ==> h[5].ok;
    assert |h| > 7 ==> h[7].ok;
    assert |h| > 9 ==> h[9].ok;
  }

  /** The start of an honest run: the request is answered by asking the CA. */
  lemma HonestStart(run: Run, ek: PrivateKey, proof: IdentityProof, h: seq<Event>, r: Result<()>)
    requires Finished(run, h, r)
    requires run.marshalPkix(run.issuer.publicKey).Success?
    requires forall i :: 0 <= i < |h| ==> Works(ek, h[i])
    requires |h| > 2 ==> h[2].Received? && h[2].answer.Got?
    requires |h| > 2 ==> h[2].answer.resp.GetApplicationIdentityRequest() != []
    requires |h| > 2 ==> VerifiedProof(run, h[2].answer.resp.GetApplicationIdentityRequest()) == Success(proof)
    requires AikPem(run, proof.aik).Success?
    ensures |h| > 3
  {
    assert |h| > 0 ==> Works(ek, h[0]);
    assert |h| > 1 ==> Works(ek, h[1]);
  }

  /** An honest run verifies the proof and gets as far as asking the CA. */
  lemma HonestRunAsksCa(
    run: Run, c: Crypto, random: nat -> seq<byte>, iv: Block, ek: PrivateKey, proof: IdentityProof,
    h: seq<Event>, r: Result<()>)
    requires DefaultRun(run, c, random, iv) && c.Lawful()
    requires Finished(run, h, r)
    requires DependenciesWork(run, c, ek, proof.aik, h) && HonestDevice(run, c, ek, proof, h)
    ensures |h| > 3 && h[2].answer.Got? && WellFormedPubKey(proof.aik)
    ensures VerifiedProof(run, h[2].answer.resp.GetApplicationIdentityRequest()) == Success(proof)
  {
    VerifiedAikConverts(run, c, random, iv, proof);
    if |h| > 2 {
      HonestProofVerifies(run, c, random, iv, h[2].answer.resp.GetApplicationIdentityRequest(), proof);
    }
    HonestStart(run, ek, proof, h, r);
  }

  /** From the CA's answer on, a run in which the device can read the payload goes through. */
  lemma HonestRunCompletes(
    run: Run, ek: PrivateKey, activate: (seq<byte>, seq<byte>) -> Result<seq<byte>>,
    h: seq<Event>, r: Result<()>, resp: Response, cert: seq<byte>)
    requires Finished(run, h, r) && |h| > 3 && h[2].answer == Got(resp) && h[3].cert == Some(cert) && cert != []
    requires forall i :: 0 <= i < |h| ==> Works(ek, h[i])
    requires EnvelopeFor(run, resp, cert).Success?
    requires Echoes(activate, h) && Reads(activate, Payload(run, resp, cert, EkFound(ek.publicKey)), cert)
    ensures r == Success(())
  {
    if |h| > 6 {
      assert Works(ek, h[4]);
      HonestEcho(run, ek.publicKey, activate, h, resp, cert);
    }
    HonestTail(run, ek, h, r, resp, cert);
  }

  /**
   In every run with an honest device and working dependencies the comparison succeeds,
   Finalize is sent and the service reports success.
   */
  lemma HonestRunFinalizes(
    run: Run, c: Crypto, random: nat -> seq<byte>, iv: Block, ek: PrivateKey, proof: IdentityProof,
    h: seq<Event>, r: Result<()>)
    requires DefaultRun(run, c, random, iv) && c.Lawful()
    requires Finished(run, h, r)
    requires DependenciesWork(run, c, ek, proof.aik, h) && HonestDevice(run, c, ek, proof, h)
    ensures r == Success(()) && |h| >= 9 && h[7] == Sent(Finalize, run.selection, true)
  {
    HonestRunAsksCa(run, c, random, iv, ek, proof, h, r);
    assert Works(ek, h[3]);
    var resp, cert := h[2].answer.resp, h[3].cert.value;
    PayloadOpens(run, c, random, iv, ek, proof, resp, cert);
    HonestRunCompletes(run, ek, Device(c, ek, proof.aik), h, r, resp, cert);
    SuccessImpliesFinalized(run, h);
  }
}
