/** Properties of every run of RotateAIKCert, and of runs with an honest device. */
module AikProtocol {
  import opened Common
  import opened BigEndian
  import opened Cards
  import opened Tpm12Formats
  import opened RsaKeys
  import opened AikStream

  // ----- Every run, any utilities, any environment ---------------------------------------------

  lemma {:induction false} HistoryAt(run: Run, h: seq<Event>, i: nat)
    requires History(run, h) && i < |h|
    ensures History(run, h[..i]) && Allowed(run, h[..i], h[i])
  {
    var n := |h| - 1;
    if i < n {
      HistoryAt(run, h[..n], i);
      assert h[..n][..i] == h[..i];
    }
  }

  lemma {:induction false} HistoryShaped(run: Run, h: seq<Event>)
    requires History(run, h)
    ensures Shaped(h)
  {
    if h != [] {
      HistoryAt(run, h, |h| - 1);
    }
  }

  /** The messages of a history, in the order they were sent. */
  function SentMessages(h: seq<Event>): seq<Message> {
    if h == [] then []
    else
      var n := |h| - 1;
      SentMessages(h[..n]) + (if h[n].Sent? then [h[n].message] else [])
  }

  /** A prefix of: the issuer key, one certificate payload, Finalize. */
  predicate ScriptPrefix(run: Run, s: seq<Message>) {
    && |s| <= 3
    && (|s| > 0 ==> s[0].IssuerPublicKey? && run.marshalPkix(run.issuer.publicKey) == Success(s[0].pkix))
    && (|s| > 1 ==> s[1].IssuerCertPayload?)
    && (|s| > 2 ==> s[2].Finalize?)
  }

  lemma {:induction false} MessagesFollowScript(run: Run, h: seq<Event>)
    requires History(run, h)
    ensures ScriptPrefix(run, SentMessages(h))
    ensures |SentMessages(h)| == (if |h| < 2 then 0 else if |h| < 6 then 1 else if |h| < 8 then 2 else 3)
  {
    if h != [] {
      var n := |h| - 1;
      HistoryAt(run, h, n);
      MessagesFollowScript(run, h[..n]);
    }
  }

  // ----- What each step uses -------------------------------------------------------------------

  predicate OpeningSteps(
    run: Run, request: seq<byte>, q: IdentityReq, keyBytes: seq<byte>, key: SymmetricKey, proofBytes: seq<byte>, proof: IdentityProof)
  {
    && run.utils.parseIdentityRequest(request) == Success(q)
    && run.utils.decryptWithPrivateKey(run.issuer, q.asymBlob, q.asymAlgorithm.algId, q.asymAlgorithm.encScheme) == Success(keyBytes)
    && run.utils.parseSymmetricKey(keyBytes) == Success(key)
    && run.utils.decryptWithSymmetricKey(key, q.symAlgorithm, q.symBlob) == Success(proofBytes)
    && run.utils.parseIdentityProof(proofBytes) == Success(proof)
  }

  /** The request holds this proof under this run's issuer key. */
  ghost predicate ProofIn(run: Run, request: seq<byte>, proof: IdentityProof) {
    exists q: IdentityReq, keyBytes: seq<byte>, key: SymmetricKey, proofBytes: seq<byte> ::
      OpeningSteps(run, request, q, keyBytes, key, proofBytes, proof)
  }

  predicate BindingSteps(run: Run, proof: IdentityProof, contents: IdentityContents, signed: seq<byte>) {
    && run.utils.constructIdentityContents(run.issuer.publicKey, proof.aik) == Success(contents)
    && run.utils.serializeIdentityContents(contents) == Success(signed)
    && run.utils.verifySignatureWithRSAKey(proof.aik, proof.identityBinding, run.sha1(signed)) == Success(true)
  }

  /** Its binding verifies, under its AIK, over SHA-1 of the contents for this run's issuer key. */
  ghost predicate BoundTo(run: Run, proof: IdentityProof) {
    exists contents: IdentityContents, signed: seq<byte> :: BindingSteps(run, proof, contents, signed)
  }

  /** The PEM form of the public key an AIK converts to. */
  ghost predicate PemOf(run: Run, aik: PubKey, pem: seq<byte>) {
    exists key: RsaPublicKey, pkix: seq<byte> :: PemSteps(run, aik, key, pkix) && pem == run.pemEncode(pkix)
  }

  predicate PemSteps(run: Run, aik: PubKey, key: RsaPublicKey, pkix: seq<byte>) {
    run.utils.tpmPubKeyToRSAPubKey(aik) == Success(key) && run.marshalPkix(key) == Success(pkix)
  }

  predicate SealingSteps(
    run: Run, aik: PubKey, cert: seq<byte>, blob: seq<byte>, material: seq<byte>,
    key: SymmetricKey, encrypted: seq<byte>, parms: KeyParms, contents: AsymCAContents)
  {
    && run.utils.newAESCBCKey(9) == Success(key)
    && run.utils.encryptWithAES(key, cert) == Success((encrypted, parms))
    && run.utils.serializeSymCAAttestation(SymCAAttestation(parms, encrypted)) == Success(blob)
    && run.utils.constructAsymCAContents(key, aik) == Success(contents)
    && run.utils.serializeAsymCAContents(contents) == Success(material)
  }

  /** The certificate under a new AES-256 key, and that key with the AIK's digest. */
  ghost predicate SealedFor(run: Run, aik: PubKey, cert: seq<byte>, blob: seq<byte>, material: seq<byte>) {
    exists key: SymmetricKey, encrypted: seq<byte>, parms: KeyParms, contents: AsymCAContents ::
      SealingSteps(run, aik, cert, blob, material, key, encrypted, parms, contents)
  }

  /** A request is accepted with a proof exactly when it holds the proof and the proof is bound. */
  lemma VerifiedProofExactly(run: Run, request: seq<byte>, proof: IdentityProof)
    ensures VerifiedProof(run, request) == Success(proof) <==> ProofIn(run, request, proof) && BoundTo(run, proof)
  {
    var u := run.utils;
    if VerifiedProof(run, request) == Success(proof) {
      var q := u.parseIdentityRequest(request).value;
      var keyBytes := u.decryptWithPrivateKey(run.issuer, q.asymBlob, q.asymAlgorithm.algId, q.asymAlgorithm.encScheme).value;
      var key := u.parseSymmetricKey(keyBytes).value;
      var proofBytes := u.decryptWithSymmetricKey(key, q.symAlgorithm, q.symBlob).value;
      assert OpeningSteps(run, request, q, keyBytes, key, proofBytes, proof);
      var contents := u.constructIdentityContents(run.issuer.publicKey, proof.aik).value;
      assert BindingSteps(run, proof, contents, u.serializeIdentityContents(contents).value);
    }
  }

  lemma AikPemExactly(run: Run, aik: PubKey, pem: seq<byte>)
    ensures AikPem(run, aik) == Success(pem) <==> PemOf(run, aik, pem)
  {
    if AikPem(run, aik) == Success(pem) {
      var key := run.utils.tpmPubKeyToRSAPubKey(aik).value;
      assert PemSteps(run, aik, key, run.marshalPkix(key).value);
    }
  }

  lemma EnvelopeExactly(run: Run, aik: PubKey, cert: seq<byte>, blob: seq<byte>, material: seq<byte>)
    ensures Envelope(run, aik, cert) == Success((blob, material)) <==> SealedFor(run, aik, cert, blob, material)
  {
    var u := run.utils;
    if Envelope(run, aik, cert) == Success((blob, material)) {
      var key := u.newAESCBCKey(9).value;
      var (encrypted, parms) := u.encryptWithAES(key, cert).value;
      var contents := u.constructAsymCAContents(key, aik).value;
      assert SealingSteps(run, aik, cert, blob, material, key, encrypted, parms, contents);
    }
  }

  /**
   The CA is asked at most once, for the card that answered, and only for the AIK of the proof in
   its request, whose binding verified over the identity contents for this run's issuer key: the
   key in the PEM is that AIK's.
   */
  lemma {:induction false} CaAskedOnlyForVerifiedAik(run: Run, h: seq<Event>, i: nat) returns (proof: IdentityProof)
    requires History(run, h) && i < |h| && h[i].AskedCa?
    ensures i == 3 && h[2].Received? && h[2].answer.Got? && h[2].answer.resp.value.ApplicationIdentityRequest?
    ensures ProofIn(run, h[2].answer.resp.value.request, proof) && BoundTo(run, proof)
    ensures PemOf(run, proof.aik, h[i].aikPem)
    ensures h[i].cardId == h[2].answer.resp.cardId
  {
    HistoryShaped(run, h);
    HistoryAt(run, h, i);
    assert h[..i][2] == h[2];
    var request := h[2].answer.resp.GetApplicationIdentityRequest();
    proof := VerifiedProof(run, request).value;
    VerifiedProofExactly(run, request, proof);
    AikPemExactly(run, proof.aik, h[i].aikPem);
  }

  /**
   The payload goes out only after the endorsement key of the answering card was fetched, by its
   serial and manufacturer; it is the certificate issued for the verified AIK, sealed for it, with
   the key material encrypted to that endorsement key under RSA-OAEP.
   */
  lemma {:induction false} PayloadSealedToFetchedKey(run: Run, h: seq<Event>, i: nat)
    returns (proof: IdentityProof, material: seq<byte>)
    requires History(run, h) && i < |h| && h[i].Sent? && h[i].message.IssuerCertPayload?
    ensures i == 5 && h[2].Received? && h[2].answer.Got? && h[2].answer.resp.value.ApplicationIdentityRequest?
    ensures ProofIn(run, h[2].answer.resp.value.request, proof) && BoundTo(run, proof)
    ensures h[3].AskedCa? && h[3].cert.Some? && PemOf(run, proof.aik, h[3].aikPem)
    ensures h[4].AskedRot? && h[4].found.EkFound?
    ensures Identifies(h[2].answer.resp.cardId, h[4].serial, h[4].supplier)
    ensures SealedFor(run, proof.aik, h[3].cert.value, h[i].message.aikCertBlob, material)
    ensures run.utils.encryptWithPublicKey(h[4].found.ek, material, 1, 3) == Success(h[i].message.symmetricKeyBlob)
  {
    HistoryShaped(run, h);
    HistoryAt(run, h, i);
    PayloadSteps(run, h, i);
    var resp, cert := h[2].answer.resp, h[3].cert.value;
    proof := CaAskedOnlyForVerifiedAik(run, h, 3);
    VerifiedProofExactly(run, resp.GetApplicationIdentityRequest(), proof);
    material := EnvelopeFor(run, resp, cert).value.1;
    EnvelopeExactly(run, proof.aik, cert, h[i].message.aikCertBlob, material);
  }

  lemma {:induction false} PayloadSteps(run: Run, h: seq<Event>, i: nat)
    requires History(run, h) && i < |h| && h[i].Sent? && h[i].message.IssuerCertPayload?
    ensures i == 5 && Shaped(h) && h[2].answer.Got?
    ensures h[3].cert.Some? && h[4].found.EkFound?
    ensures h[4].serial == SerialOf(h[2].answer.resp.cardId) && h[4].supplier == ManufacturerOf(h[2].answer.resp.cardId)
    ensures Payload(run, h[2].answer.resp, h[3].cert.value, h[4].found) == Success(h[i].message)
  {
    HistoryShaped(run, h);
    HistoryAt(run, h, i);
    HistoryAt(run, h, 4);
    var p, q := h[..i], h[..4];
    assert p[2] == h[2] && p[3] == h[3] && p[4] == h[4];
    assert q[2] == h[2] && q[3] == h[3];
  }

  /** Finalize is sent only when the device echoed exactly the certificate the CA issued. */
  lemma {:induction false} FinalizeOnlyOnEqualCerts(run: Run, h: seq<Event>, i: nat)
    requires History(run, h) && i < |h| && h[i].Sent? && h[i].message.Finalize?
    ensures i == 7 && h[3].AskedCa? && h[3].cert.Some? && h[6].Received? && h[6].answer.Got?
    ensures h[6].answer.resp.value == AikCert(h[3].cert.value) && h[3].cert.value != []
  {
    HistoryShaped(run, h);
    HistoryAt(run, h, i);
    var p := h[..i];
    assert p[3] == h[3] && p[6] == h[6];
  }

  /** A run that succeeds sent all three messages and saw the end of the stream or closed it. */
  lemma {:induction false} SuccessImpliesFinalized(run: Run, h: seq<Event>)
    requires Finished(run, h, Success(()))
    ensures |SentMessages(h)| == 3 && |h| >= 9
    ensures h[7] == Sent(Finalize, run.selection, true)
    ensures h[8].Received? && (h[8].answer.Eof? || (|h| == 10 && h[9] == ClosedSend(true)))
  {
    MessagesFollowScript(run, h);
    HistoryAt(run, h, 7);
    HistoryAt(run, h, 8);
    assert h[..8][7] == h[7];
    if |h| == 10 {
      HistoryAt(run, h, 9);
      assert h[..9][8] == h[8];
    }
  }
}
