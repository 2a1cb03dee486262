/** The other direction of the chain of trust: a TPM that plays by the rules is accepted. */
module ChainOfTrustHonest {
  import opened Common
  import opened BigEndian
  import opened Cards
  import opened Tpm20Types
  import opened CsrIdevid
  import opened EnrollzDeps
  import opened Tpm20Checks
  import opened ChainOfTrust
  import opened ChainOfTrustProofs
  import H = HmacEnrollment

  /** A response that certifies iak under the HMAC key, with an HMAC that fits nothing else. */
  ghost predicate HonestResponse(n: Net, secret: Sensitive, iak: PublicArea, info: Attest, resp: HmacResponse) {
    && n.t.unmarshalAttest2B(resp.iakCertifyInfo) == Success(info)
    && n.u.verifyIAKAttributes(resp.iakPub) == Success(iak)
    && n.u.verifyCertifyInfo(info, iak).Success?
    && n.u.verifyHMAC(n.t.marshalAttest(info), resp.iakCertifyInfoSignature, secret).Success?
    && forall m :: MacMatches(n.t, n.c, m, resp.iakCertifyInfoSignature, secret) ==> m == n.t.marshalAttest(info)
  }

  /** A signature by this key over this message that fits no other. */
  ghost predicate SignatureOf(n: Net, s: Signature, pub: PublicArea, message: seq<byte>) {
    && n.u.verifyTPMTSignature(message, s, pub).Success?
    && forall m, key :: SignedBy(n.c, key, m, s) ==> m == message && KeyIs(n, pub, key)
  }

  /** A CSR of idevid, certified by iak, for the card the response names. */
  ghost predicate HonestCsr(n: Net, iak: PublicArea, idevid: PublicArea, c: CsrContents, cardId: CardId, csr: CsrBody) {
    && n.u.parseCsr(csr.contents) == Success(c) && c.idevidPub == idevid
    && H.CsrProves(n.t, n.u, iak, csr, cardId, c, TemplateEccNistP384)
    && SignatureOf(n, c.signCertifyInfoSignature, iak, n.t.marshalAttest(c.signCertifyInfo))
    && SignatureOf(n, n.t.unmarshalSignature(csr.signature).value, idevid, csr.contents)
  }

  /** The answer to the CSR request in a history that has one. */
  function CsrAnswer(h: seq<Event>): Option<CsrResponse> {
    if |h| == 5 && h[4].GotCsr? then h[4].csrResp else None
  }

  lemma Continue(n: Net, run: seq<Action>, w: World, a: Action) returns (longer: seq<Action>, v: World)
    requires Reaches(n, run, w) && Enabled(n, w, a)
    ensures longer == run + [a] && v == After(n, w, a) && Reaches(n, longer, v)
  {
    longer, v := run + [a], After(n, w, a);
    assert Before(longer) == run && Last(longer) == a;
    assert Leads(n, w, a, v);
  }

  /** The challenge arrives: the session's HMAC key is there, sealed to the endorsement key it fetched. */
  lemma ChallengeArrives(n: Net, run: seq<Action>, w: World, id: nat, ek: EkPublic) returns (longer: seq<Action>, v: World)
    requires ChecksMean(n) && Reaches(n, run, w) && SessionsFollow(n, w)
    requires id in w.sessions && Challenging(n, w.sessions[id])
    requires RSAEKPublicKeyToTPMTPublic(w.sessions[id].history[1].ek.value.publicKey) == Success(ek)
    ensures Reaches(n, longer, v) && (ek, w.sessions[id].history[2].hmacKey.value.sensitive) in v.wrapped
    ensures v == w.(wrapped := v.wrapped)
  {
    assert SessionFollows(n, w, id);
    ChallengeWraps(n, w.sessions[id]);
    longer, v := Continue(n, run, w, ReceiveChallenge(id));
  }

  /** The TPM receives the challenge, loads the HMAC key and certifies its IAK with it. */
  lemma TpmCertifiesIak(n: Net, run: seq<Action>, w: World, id: nat, tpm: Tpm, iak: PublicArea, info: Attest)
    returns (longer: seq<Action>, v: World)
    requires ChecksMean(n) && Reaches(n, run, w) && SessionsFollow(n, w)
    requires id in w.sessions && Challenging(n, w.sessions[id])
    requires RSAEKPublicKeyToTPMTPublic(w.sessions[id].history[1].ek.value.publicKey) == Success(n.ekOf(tpm))
    requires (tpm, iak) in w.resident && IsCertify(info) && Names(n, info, iak)
    ensures Reaches(n, longer, v) && v.sessions == w.sessions && v.resident == w.resident && v.issued == w.issued
    ensures (w.sessions[id].history[2].hmacKey.value.sensitive, n.t.marshalAttest(info)) in v.macs
  {
    var secret := w.sessions[id].history[2].hmacKey.value.sensitive;
    var run1, w1 := ChallengeArrives(n, run, w, id, n.ekOf(tpm));
    var run2, w2 := Continue(n, run1, w1, LoadHmac(tpm, secret));
    longer, v := Continue(n, run2, w2, CertifyByHmac(tpm, secret, iak, info));
  }

  /** The service takes the response and asks for the CSR. */
  lemma ServiceTakesResponse(n: Net, run: seq<Action>, w: World, id: nat, iak: PublicArea, info: Attest, resp: HmacResponse)
    returns (longer: seq<Action>, v: World)
    requires Reaches(n, run, w) && SessionsFollow(n, w)
    requires id in w.sessions && Challenging(n, w.sessions[id])
    requires HonestResponse(n, w.sessions[id].history[2].hmacKey.value.sensitive, iak, info, resp)
    requires (w.sessions[id].history[2].hmacKey.value.sensitive, n.t.marshalAttest(info)) in w.macs
    ensures Reaches(n, longer, v) && v.resident == w.resident && id in v.sessions
    ensures var s, s0 := v.sessions[id], w.sessions[id];
            && s.selection == s0.selection && |s.history| == 4 && s.history[..3] == s0.history
            && s.history[3].Challenged? && s.history[3].answer == Some(ChallengeResponse(Some(resp)))
  {
    assert SessionFollows(n, w, id);
    var s := w.sessions[id];
    var call := H.NextStep(n.t, n.u, s.selection, s.history).call;
    var e := Challenged(s.selection, call.challenge, call.keyType, Some(ChallengeResponse(Some(resp))));
    assert H.Allowed(n.t, n.u, s.selection, s.history, e);
    longer, v := Continue(n, run, w, ServiceCall(id, e));
    assert (s.history + [e])[..3] == s.history;
  }

  /** The TPM certifies its IDevID key with the IAK and signs the CSR. */
  lemma TpmSignsCsr(
    n: Net, run: seq<Action>, w: World, tpm: Tpm, iak: PublicArea, idevid: PublicArea, c: CsrContents, cardId: CardId, csr: CsrBody)
    returns (longer: seq<Action>, v: World)
    requires ChecksMean(n) && Reaches(n, run, w) && (tpm, iak) in w.resident && (tpm, idevid) in w.resident
    requires HonestCsr(n, iak, idevid, c, cardId, csr)
    ensures Reaches(n, longer, v) && v.sessions == w.sessions
    ensures NoForgedSignature(n, v, CsrResponse(Some(cardId), Some(csr)))
  {
    var info := c.signCertifyInfo;
    assert n.u.verifyCertifyInfo(info, idevid).Success? && n.u.verifyIdevidAttributes(idevid, TemplateEccNistP384).Success?;
    var run1, w1 := Continue(n, run, w, CertifyByKey(tpm, iak, idevid, info));
    longer, v := Continue(n, run1, w1, TpmSign(tpm, idevid, csr.contents));
    assert (n.c.toCryptoKey(iak).value, n.t.marshalAttest(info)) in v.signatures;
    assert (n.c.toCryptoKey(idevid).value, csr.contents) in v.signatures;
  }

  /** The service takes the CSR and accepts. */
  lemma ServiceTakesCsr(
    n: Net, run: seq<Action>, w: World, id: nat, iak: PublicArea, idevid: PublicArea, info: Attest, resp: HmacResponse,
    c: CsrContents, cardId: CardId, csr: CsrBody)
    returns (longer: seq<Action>, v: World)
    requires Reaches(n, run, w) && SessionsFollow(n, w)
    requires id in w.sessions && H.Shaped(w.sessions[id].history) && |w.sessions[id].history| == 4
    requires w.sessions[id].history[3].answer == Some(ChallengeResponse(Some(resp)))
    requires HonestResponse(n, w.sessions[id].history[2].hmacKey.value.sensitive, iak, info, resp)
    requires HonestCsr(n, iak, idevid, c, cardId, csr) && NoForgedSignature(n, w, CsrResponse(Some(cardId), Some(csr)))
    ensures Reaches(n, longer, v) && id in v.sessions
    ensures H.Finished(n.t, n.u, v.sessions[id].selection, v.sessions[id].history,
                       Success(H.Identity(w.sessions[id].history[0].vendorId.value, iak, idevid)))
    ensures CsrAnswer(v.sessions[id].history) == Some(CsrResponse(Some(cardId), Some(csr)))
  {
    assert SessionFollows(n, w, id);
    var s := w.sessions[id];
    var h := s.history;
    H.ChallengeAcceptedExactly(n.t, n.u, h[3].answer.value, h[2].hmacKey.value.sensitive, iak);
    H.CsrAcceptedExactly(n.t, n.u, iak, CsrResponse(Some(cardId), Some(csr)), TemplateEccNistP384, idevid);
    var e := GotCsr(s.selection, h[1].ek.value.keyType, TemplateEccNistP384, Some(CsrResponse(Some(cardId), Some(csr))));
    assert H.Allowed(n.t, n.u, s.selection, h, e);
    longer, v := Continue(n, run, w, ServiceCall(id, e));
    H.Extend(n.t, n.u, s.selection, h, e);
  }

  /**
   An honest TPM is accepted: from any reachable world in which a session is about to send its
   challenge, a TPM that holds the fetched endorsement key, an IAK and an IDevID key can bring
   the service, by playing by the rules, to return exactly this card, IAK and IDevID key.
   */
  lemma HonestTpmAccepted(
    n: Net, run: seq<Action>, w: World, id: nat, tpm: Tpm, iak: PublicArea, idevid: PublicArea,
    info: Attest, resp: HmacResponse, c: CsrContents, cardId: CardId, csr: CsrBody)
    returns (longer: seq<Action>, v: World)
    requires Injective(n) && ChecksMean(n) && Reaches(n, run, w)
    requires id in w.sessions && Challenging(n, w.sessions[id])
    requires (tpm, iak) in w.resident && (tpm, idevid) in w.resident
    requires RSAEKPublicKeyToTPMTPublic(w.sessions[id].history[1].ek.value.publicKey) == Success(n.ekOf(tpm))
    requires HonestResponse(n, w.sessions[id].history[2].hmacKey.value.sensitive, iak, info, resp)
    requires HonestCsr(n, iak, idevid, c, cardId, csr)
    ensures Reaches(n, longer, v) && id in v.sessions
    ensures H.Finished(n.t, n.u, v.sessions[id].selection, v.sessions[id].history,
                       Success(H.Identity(w.sessions[id].history[0].vendorId.value, iak, idevid)))
    ensures CsrAnswer(v.sessions[id].history) == Some(CsrResponse(Some(cardId), Some(csr)))
  {
    InvariantHolds(n, run, w);
    var run1, w1 := TpmCertifiesIak(n, run, w, id, tpm, iak, info);
    InvariantHolds(n, run1, w1);
    var run2, w2 := ServiceTakesResponse(n, run1, w1, id, iak, info, resp);
    InvariantHolds(n, run2, w2);
    var run3, w3 := TpmSignsCsr(n, run2, w2, tpm, iak, idevid, c, cardId, csr);
    InvariantHolds(n, run3, w3);
    assert SessionFollows(n, w3, id);
    var h, h3 := w.sessions[id].history, w3.sessions[id].history;
    assert h3[0] == h[0] && h3[2] == h[2] by {
      assert h3[..3][0] == h[0] && h3[..3][2] == h[2];
    }
    longer, v := ServiceTakesCsr(n, run3, w3, id, iak, idevid, info, resp, c, cardId, csr);
  }

  /**
   Among them TPMs whose CSR names another card: the service returns the card whose endorsement
   key it fetched together with a CSR for a different serial.
   */
  lemma ForeignCsrAccepted(
    n: Net, run: seq<Action>, w: World, id: nat, tpm: Tpm, iak: PublicArea, idevid: PublicArea,
    info: Attest, resp: HmacResponse, c: CsrContents, cardId: CardId, csr: CsrBody)
    returns (longer: seq<Action>, v: World)
    requires Injective(n) && ChecksMean(n) && Reaches(n, run, w)
    requires id in w.sessions && Challenging(n, w.sessions[id])
    requires (tpm, iak) in w.resident && (tpm, idevid) in w.resident
    requires RSAEKPublicKeyToTPMTPublic(w.sessions[id].history[1].ek.value.publicKey) == Success(n.ekOf(tpm))
    requires HonestResponse(n, w.sessions[id].history[2].hmacKey.value.sensitive, iak, info, resp)
    requires HonestCsr(n, iak, idevid, c, cardId, csr)
    requires cardId.controlCardSerial != SerialOf(w.sessions[id].history[0].vendorId.value)
    ensures Reaches(n, longer, v) && id in v.sessions
    ensures var s, card := v.sessions[id], w.sessions[id].history[0].vendorId.value;
            && H.Finished(n.t, n.u, s.selection, s.history, Success(H.Identity(card, iak, idevid)))
            && CsrAnswer(s.history).Some?
            && H.SpelledBy(SerialOf(CsrAnswer(s.history).value.cardId), c.prodSerial)
            && !H.SpelledBy(SerialOf(card), c.prodSerial)
  {
    longer, v := HonestTpmAccepted(n, run, w, id, tpm, iak, idevid, info, resp, c, cardId, csr);
    H.AsStringSpells(cardId.controlCardSerial, c.prodSerial);
    H.AsStringSpells(SerialOf(w.sessions[id].history[0].vendorId.value), c.prodSerial);
  }

  // ----- With the default utilities ----------------------------------------------------------

  /** A certification by a TPM of the key's own name. */
  ghost predicate Certifies(n: Net, info: Attest, key: PublicArea) {
    && info.magic == 0xFF54_4347 && info.kind == AttestCertify && info.attested.Certify?
    && n.t.objectName(key) == Success(info.attested.name) && info.attested.qualifiedName != info.attested.name
  }

  /** What a TPM answers: its IAK, the certification, and the SHA-256 HMAC of it under the challenge's key. */
  ghost predicate TpmResponse(n: Net, secret: Sensitive, iak: PublicArea, info: Attest, resp: HmacResponse) {
    var message, mac := n.t.marshalAttest(info), resp.iakCertifyInfoSignature;
    && n.t.unmarshalAttest2B(resp.iakCertifyInfo) == Success(info) && Certifies(n, info, iak)
    && n.t.unmarshalPublic2B(resp.iakPub) == Success(iak)
    && FixedSigningKey(iak.attributes) && iak.attributes.restricted && (iak.nameAlg == AlgSHA256 || iak.nameAlg == AlgSHA384)
    && message != [] && mac != [] && n.t.unmarshalSignature(mac).Success? && secret.bits.Some?
    && n.t.unmarshalSignature(mac).value.body == HmacSignature(AlgSHA256, n.c.hmacSha256(secret.bits.value, n.c.sha256(message)))
    && forall m :: MacMatches(n.t, n.c, m, mac, secret) ==> m == message
  }

  lemma TpmResponseIsHonest(n: Net, secret: Sensitive, iak: PublicArea, info: Attest, resp: HmacResponse)
    requires n.u == DefaultUtils(n.t, n.c) && TpmResponse(n, secret, iak, info, resp)
    ensures HonestResponse(n, secret, iak, info, resp)
  {
    IakAcceptedExactly(n.t, resp.iakPub, iak);
    CertifyInfoAcceptedExactly(n.t, info, iak);
    HmacAcceptedExactly(n.t, n.c, n.t.marshalAttest(info), resp.iakCertifyInfoSignature, secret);
  }

  /** A signature in the key's own scheme, which its primitive accepts for this key and message only. */
  ghost predicate Signs(n: Net, s: Signature, pub: PublicArea, message: seq<byte>) {
    && DeclaresScheme(pub, s.sigAlg) && n.c.toCryptoKey(pub).Success?
    && SignedBy(n.c, n.c.toCryptoKey(pub).value, message, s)
    && forall m, key :: SignedBy(n.c, key, m, s) ==> m == message && KeyIs(n, pub, key)
  }

  lemma SignsIsSignatureOf(n: Net, s: Signature, pub: PublicArea, message: seq<byte>)
    requires n.u == DefaultUtils(n.t, n.c) && Signs(n, s, pub, message)
    ensures SignatureOf(n, s, pub, message)
  {
    SignatureAcceptedExactly(n.c, message, s, pub);
  }

  /** What a TPM sends as its CSR: a P-384 IDevID key certified by its IAK, for the card of this id. */
  ghost predicate TpmCsr(n: Net, iak: PublicArea, idevid: PublicArea, c: CsrContents, cardId: CardId, csr: CsrBody) {
    && CsrLayout(csr.contents) && InnerDecodes(n.t, csr.contents) && c == DecodedCsr(n.t, csr.contents)
    && c.idevidPub == idevid && Certifies(n, c.signCertifyInfo, idevid)
    && FixedSigningKey(idevid.attributes) && !idevid.attributes.restricted
    && idevid.alg == AlgECC && idevid.nameAlg == AlgSHA384 && idevid.parameters == EccDetail(NistP384, AlgECDSA)
    && Signs(n, c.signCertifyInfoSignature, iak, n.t.marshalAttest(c.signCertifyInfo))
    && n.t.unmarshalSignature(csr.signature).Success?
    && Signs(n, n.t.unmarshalSignature(csr.signature).value, idevid, csr.contents)
    && H.SpelledBy(cardId.controlCardSerial, c.prodSerial)
  }

  lemma TpmCsrIsHonest(n: Net, iak: PublicArea, idevid: PublicArea, c: CsrContents, cardId: CardId, csr: CsrBody)
    requires n.u == DefaultUtils(n.t, n.c) && TpmCsr(n, iak, idevid, c, cardId, csr)
    ensures HonestCsr(n, iak, idevid, c, cardId, csr)
  {
    CertifyInfoAcceptedExactly(n.t, c.signCertifyInfo, idevid);
    IdevidAcceptedExactly(idevid, TemplateEccNistP384);
    SignsIsSignatureOf(n, c.signCertifyInfoSignature, iak, n.t.marshalAttest(c.signCertifyInfo));
    SignsIsSignatureOf(n, n.t.unmarshalSignature(csr.signature).value, idevid, csr.contents);
    ParsedIs(n, csr.contents, c);
  }

  lemma ParsedIs(n: Net, contents: seq<byte>, c: CsrContents)
    requires n.u == DefaultUtils(n.t, n.c)
    requires CsrLayout(contents) && InnerDecodes(n.t, contents) && c == DecodedCsr(n.t, contents)
    ensures n.u.parseCsr(contents) == Success(c)
  {
  }

  /** A session that has fetched an acceptable endorsement key and can seal its key to it challenges. */
  ghost predicate CanChallenge(n: Net, s: Session) {
    && |s.history| == 3 && H.Shaped(s.history) && s.history[2].hmacKey.Some?
    && s.history[1].ek.value.publicKey.Some? && ValidateRSAPublicKey(s.history[1].ek.value.publicKey).Success?
    && var key := s.history[2].hmacKey.value;
    && n.t.objectName(key.pub).Success?
    && n.c.createDuplicate(
         RSAEKPublicKeyToTPMTPublic(s.history[1].ek.value.publicKey).value, n.t.objectName(key.pub).value, key.sensitive).Success?
  }

  lemma SessionChallenges(n: Net, s: Session)
    requires n.u == DefaultUtils(n.t, n.c) && CanChallenge(n, s)
    ensures Challenging(n, s)
  {
    var ek, key := s.history[1].ek.value.publicKey, s.history[2].hmacKey.value;
    var out := n.c.createDuplicate(RSAEKPublicKeyToTPMTPublic(ek).value, n.t.objectName(key.pub).value, key.sensitive).value;
    WrapsExactly(n.t, n.c, ek, key, out);
    assert n.u.wrapHMACKey(ek, key) == Success(out);
  }

  /**
   With the default utilities nothing is left to assume of the checks: any TPM that holds the
   fetched endorsement key, a fixed restricted IAK and a fixed P-384 IDevID key, and answers the
   challenge and the CSR request as above, can bring the service to return exactly its card, IAK
   and IDevID key.
   */
  lemma DefaultTpmAccepted(
    n: Net, run: seq<Action>, w: World, id: nat, tpm: Tpm, iak: PublicArea, idevid: PublicArea,
    info: Attest, resp: HmacResponse, c: CsrContents, cardId: CardId, csr: CsrBody)
    returns (longer: seq<Action>, v: World)
    requires Injective(n) && Sealing(n) && n.u == DefaultUtils(n.t, n.c) && Reaches(n, run, w)
    requires id in w.sessions && CanChallenge(n, w.sessions[id])
    requires (tpm, iak) in w.resident && (tpm, idevid) in w.resident
    requires RSAEKPublicKeyToTPMTPublic(w.sessions[id].history[1].ek.value.publicKey) == Success(n.ekOf(tpm))
    requires TpmResponse(n, w.sessions[id].history[2].hmacKey.value.sensitive, iak, info, resp)
    requires TpmCsr(n, iak, idevid, c, cardId, csr)
    ensures Reaches(n, longer, v) && id in v.sessions
    ensures H.Finished(n.t, n.u, v.sessions[id].selection, v.sessions[id].history,
                       Success(H.Identity(w.sessions[id].history[0].vendorId.value, iak, idevid)))
  {
    DefaultChecksMean(n);
    SessionChallenges(n, w.sessions[id]);
    TpmResponseIsHonest(n, w.sessions[id].history[2].hmacKey.value.sensitive, iak, info, resp);
    TpmCsrIsHonest(n, iak, idevid, c, cardId, csr);
    longer, v := HonestTpmAccepted(n, run, w, id, tpm, iak, idevid, info, resp, c, cardId, csr);
  }
}
