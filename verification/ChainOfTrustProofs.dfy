/** The invariant of every run against the network, and what an accepted identity means. */
module ChainOfTrustProofs {
  import opened Common
  import opened Cards
  import opened Tpm20Types
  import opened CsrIdevid
  import opened EnrollzDeps
  import opened Tpm20Checks
  import opened ChainOfTrust
  import H = HmacEnrollment

  /** Marshalling and naming lose nothing: object names are collision-free. */
  ghost predicate Injective(n: Net) {
    && (forall a, b :: n.t.marshalAttest(a) == n.t.marshalAttest(b) ==> a == b)
    && (forall p, q :: n.t.objectName(p).Success? && n.t.objectName(p) == n.t.objectName(q) ==> p == q)
  }

  // ----- The utilities -----------------------------------------------------------------------

  /** DefaultTPM20Utils. */
  function DefaultUtils(t: GoTpm, c: Primitives): H.Tpm20Utils {
    H.Tpm20Utils(
      (ek, key) => WrapHMACKeytoRSAPublicKey(t, c, ek, key),
      (message, mac, sensitive) => VerifyHMAC(t, c, message, mac, sensitive),
      iakPub => VerifyIAKAttributes(t, iakPub),
      (info, key) => VerifyCertifyInfo(t, info, key),
      csr => ParsedCsr(t, csr),
      (data, s, key) => VerifyTPMTSignature(c, data, s, key),
      VerifyIdevidAttributes,
      t.publicToPem)
  }

  /** A duplicate is sealed to the key it was created for and holds the key it was created from. */
  ghost predicate Sealing(n: Net) {
    forall ek, name, s, d, seed :: n.c.createDuplicate(ek, name, s) == Success((d, seed)) ==> n.sealedTo(d, seed) == Some((ek, s))
  }

  /** All the chain of trust needs of the utilities. */
  ghost predicate ChecksMean(n: Net) {
    && (forall pk, key, d, seed :: n.u.wrapHMACKey(pk, key) == Success((d, seed)) ==>
          RSAEKPublicKeyToTPMTPublic(pk).Success?
          && n.sealedTo(d, seed) == Some((RSAEKPublicKeyToTPMTPublic(pk).value, key.sensitive)))
    && (forall m, mac, s :: n.u.verifyHMAC(m, mac, s).Success? ==> MacMatches(n.t, n.c, m, mac, s))
    && (forall iakPub, iak :: n.u.verifyIAKAttributes(iakPub) == Success(iak) ==> iak.attributes.fixedTPM && iak.attributes.restricted)
    && (forall info, key :: n.u.verifyCertifyInfo(info, key).Success? ==> IsCertify(info) && Names(n, info, key))
    && (forall m, s, pub :: n.u.verifyTPMTSignature(m, s, pub).Success? ==>
          n.c.toCryptoKey(pub).Success? && SignedBy(n.c, n.c.toCryptoKey(pub).value, m, s))
    && (forall key, template :: n.u.verifyIdevidAttributes(key, template).Success? ==>
          key.attributes.fixedTPM && !key.attributes.restricted)
  }

  /** The default utilities do all of that. */
  lemma DefaultChecksMean(n: Net)
    requires n.u == DefaultUtils(n.t, n.c) && Sealing(n)
    ensures ChecksMean(n)
  {
    forall m, mac, s | n.u.verifyHMAC(m, mac, s).Success? ensures MacMatches(n.t, n.c, m, mac, s) {
      HmacAcceptedExactly(n.t, n.c, m, mac, s);
    }
    forall m, s, pub | n.u.verifyTPMTSignature(m, s, pub).Success?
      ensures n.c.toCryptoKey(pub).Success? && SignedBy(n.c, n.c.toCryptoKey(pub).value, m, s)
    {
      SignatureAcceptedExactly(n.c, m, s, pub);
    }
  }

  // ----- The invariant -----------------------------------------------------------------------

  predicate FixedSigner(n: Net, w: World, r: (Tpm, PublicArea), key: CryptoKey) {
    r in w.resident && r.1.attributes.fixedTPM && n.c.toCryptoKey(r.1) == Success(key)
  }

  /** A fixedTPM signing key is on one TPM, under one public area, and not in software. */
  ghost predicate FixedKeysStay(n: Net, w: World) {
    && (forall r, key :: FixedSigner(n, w, r, key) ==> key !in w.software)
    && (forall r, s, key :: FixedSigner(n, w, r, key) && s in w.resident && KeyIs(n, s.1, key) ==> r == s)
  }

  /** Only TPMs holding the endorsement key a service key was sealed to can have loaded it. */
  ghost predicate SecretsStaySealed(n: Net, w: World) {
    && (forall s :: s in w.issued ==> s !in w.known)
    && (forall l :: l in w.loaded ==> l.1 in w.known || (n.ekOf(l.0), l.1) in w.wrapped)
    && (forall x :: x in w.wrapped ==> x.1 in w.issued && SealedFor(w, w.issued[x.1], x.0))
  }

  /** The session fetched exactly this endorsement key. */
  ghost predicate SealedFor(w: World, id: nat, ek: EkPublic) {
    && id in w.sessions && |w.sessions[id].history| > 2
    && w.sessions[id].history[1].FetchedEk? && w.sessions[id].history[1].ek.Some?
    && RSAEKPublicKeyToTPMTPublic(w.sessions[id].history[1].ek.value.publicKey) == Success(ek)
  }

  ghost predicate HolderCertified(n: Net, w: World, secret: Sensitive, info: Attest) {
    exists tpm, subject :: (tpm, secret) in w.loaded && (tpm, subject) in w.resident && Names(n, info, subject)
  }

  /** Every HMAC has a maker; one over a certification, unless the network's, was TPM2_Certify's. */
  ghost predicate MacsCertify(n: Net, w: World) {
    && (forall x :: x in w.macs ==> x.0 in w.known || exists tpm :: (tpm, x.0) in w.loaded)
    && (forall s, info :: (s, n.t.marshalAttest(info)) in w.macs && IsCertify(info) && s !in w.known ==>
          HolderCertified(n, w, s, info))
  }

  ghost predicate SignerCertified(n: Net, w: World, tpm: Tpm, signer: PublicArea, info: Attest) {
    exists subject :: (tpm, signer, subject) in w.certified && Names(n, info, subject)
  }

  ghost predicate CertifySigned(n: Net, w: World, signer: PublicArea, key: CryptoKey, info: Attest) {
    signer.attributes.restricted && IsCertify(info) && (key, n.t.marshalAttest(info)) in w.signatures
  }

  /** Every signature has a maker; one by a restricted fixedTPM key over a certification was TPM2_Certify's. */
  ghost predicate SignaturesCertify(n: Net, w: World) {
    && (forall x :: x in w.signatures ==> !Unused(n, w, x.0))
    && (forall c :: c in w.certified ==> (c.0, c.1) in w.resident && (c.0, c.2) in w.resident)
    && (forall r, key, info :: FixedSigner(n, w, r, key) && CertifySigned(n, w, r.1, key, info) ==> SignerCertified(n, w, r.0, r.1, info))
  }

  /** What a session may rely on about the answers it got. */
  ghost predicate AnswersHold(n: Net, w: World, id: nat, h: seq<Event>)
    requires H.Shaped(h)
  {
    && (|h| > 1 && h[1].ek.Some? ==> h[1].ek == n.rot(h[1].serial, h[1].supplier))
    && (|h| > 2 && h[2].hmacKey.Some? ==>
          h[2].hmacKey.value.sensitive in w.issued && w.issued[h[2].hmacKey.value.sensitive] == id)
    && (|h| > 3 && h[3].answer.Some? ==> NoForgedMac(n, w, h[2].hmacKey.value.sensitive, h[3].answer.value))
    && (|h| > 4 && h[4].csrResp.Some? ==> NoForgedSignature(n, w, h[4].csrResp.value))
  }

  ghost predicate SessionFollows(n: Net, w: World, id: nat)
    requires id in w.sessions
  {
    var s := w.sessions[id];
    H.History(n.t, n.u, s.selection, s.history) && H.Shaped(s.history) && AnswersHold(n, w, id, s.history)
  }

  ghost predicate SessionsFollow(n: Net, w: World) {
    forall id :: id in w.sessions ==> SessionFollows(n, w, id)
  }

  // ----- Each action keeps it ----------------------------------------------------------------

  lemma FixedKeysStayKept(n: Net, w: World, a: Action)
    requires FixedKeysStay(n, w) && Enabled(n, w, a)
    ensures FixedKeysStay(n, After(n, w, a))
  {
    var v := After(n, w, a);
    forall r, key | FixedSigner(n, v, r, key) ensures key !in v.software {
      assert r in w.resident ==> FixedSigner(n, w, r, key);
      assert a.Export? ==> KeyIs(n, a.pub, n.c.toCryptoKey(a.pub).value);
      assert a.ForgeKey? ==> !KeyIs(n, r.1, a.key);
    }
    forall r, s, key | FixedSigner(n, v, r, key) && s in v.resident && KeyIs(n, s.1, key) ensures r == s {
      assert r in w.resident ==> FixedSigner(n, w, r, key);
      assert KeyIs(n, r.1, key);
    }
  }

  /** A longer history keeps what was sealed for it. */
  lemma StillSealedFor(n: Net, w: World, id: nat, e: Event, owner: nat, ek: EkPublic)
    requires Enabled(n, w, ServiceCall(id, e)) && SealedFor(w, owner, ek)
    ensures SealedFor(Called(n, w, id, e), owner, ek)
  {
  }

  /** The challenge a session is about to send wraps its own key to the endorsement key it fetched. */
  lemma ChallengeWraps(n: Net, s: Session)
    requires Challenging(n, s)
    ensures var challenge := H.NextStep(n.t, n.u, s.selection, s.history).call.challenge;
            n.u.wrapHMACKey(s.history[1].ek.value.publicKey, s.history[2].hmacKey.value)
            == Success((challenge.duplicate, challenge.inSymSeed))
  {
  }

  /** What a challenge seals is this session's key, to the endorsement key it fetched. */
  lemma ChallengeSeals(n: Net, w: World, id: nat, x: (EkPublic, Sensitive))
    requires ChecksMean(n) && SessionsFollow(n, w) && Enabled(n, w, ReceiveChallenge(id))
    requires x in Received(n, w, id).wrapped && x !in w.wrapped
    ensures x.1 in w.issued && w.issued[x.1] == id && SealedFor(w, id, x.0)
  {
    assert SessionFollows(n, w, id);
    ChallengeWraps(n, w.sessions[id]);
  }

  lemma OtherActionsKeepSessions(n: Net, w: World, a: Action)
    requires Enabled(n, w, a) && !a.ServiceCall?
    ensures After(n, w, a).issued == w.issued
    ensures forall id :: id in w.sessions ==> id in After(n, w, a).sessions && After(n, w, a).sessions[id] == w.sessions[id]
  {
  }

  lemma OtherActionsKeepSealed(n: Net, w: World, a: Action, owner: nat, ek: EkPublic)
    requires Enabled(n, w, a) && !a.ServiceCall? && SealedFor(w, owner, ek)
    ensures SealedFor(After(n, w, a), owner, ek) && After(n, w, a).issued == w.issued
  {
    OtherActionsKeepSessions(n, w, a);
  }

  lemma WrappedOnlyByChallenge(n: Net, w: World, a: Action)
    requires Enabled(n, w, a) && !a.ReceiveChallenge?
    ensures After(n, w, a).wrapped == w.wrapped
  {
  }

  lemma IssuedStays(n: Net, w: World, a: Action, secret: Sensitive)
    requires Enabled(n, w, a) && secret in w.issued
    ensures secret in After(n, w, a).issued && After(n, w, a).issued[secret] == w.issued[secret]
  {
  }

  lemma WrappedStaysSealed(n: Net, w: World, a: Action, x: (EkPublic, Sensitive))
    requires ChecksMean(n) && SecretsStaySealed(n, w) && SessionsFollow(n, w) && Enabled(n, w, a)
    requires x in After(n, w, a).wrapped
    ensures x.1 in After(n, w, a).issued && SealedFor(After(n, w, a), After(n, w, a).issued[x.1], x.0)
  {
    if x !in w.wrapped {
      if !a.ReceiveChallenge? {
        WrappedOnlyByChallenge(n, w, a);
      }
      ChallengeSeals(n, w, a.id, x);
      IssuedStays(n, w, a, x.1);
      OtherActionsKeepSealed(n, w, a, a.id, x.0);
    } else {
      IssuedStays(n, w, a, x.1);
      if a.ServiceCall? {
        StillSealedFor(n, w, a.id, a.event, w.issued[x.1], x.0);
      } else {
        OtherActionsKeepSealed(n, w, a, w.issued[x.1], x.0);
      }
    }
  }

  lemma LoadedStaysSealed(n: Net, w: World, a: Action)
    requires SecretsStaySealed(n, w) && Enabled(n, w, a)
    ensures var v := After(n, w, a);
            && (forall s :: s in v.issued ==> s !in v.known)
            && (forall l :: l in v.loaded ==> l.1 in v.known || (n.ekOf(l.0), l.1) in v.wrapped)
  {
  }

  lemma SecretsStaySealedKept(n: Net, w: World, a: Action)
    requires ChecksMean(n) && SecretsStaySealed(n, w) && SessionsFollow(n, w) && Enabled(n, w, a)
    ensures SecretsStaySealed(n, After(n, w, a))
  {
    LoadedStaysSealed(n, w, a);
    forall x | x in After(n, w, a).wrapped {
      WrappedStaysSealed(n, w, a, x);
    }
  }

  lemma HolderStaysCertified(n: Net, w: World, v: World, secret: Sensitive, info: Attest)
    requires HolderCertified(n, w, secret, info) && w.loaded <= v.loaded && w.resident <= v.resident
    ensures HolderCertified(n, v, secret, info)
  {
    var tpm, subject :| (tpm, secret) in w.loaded && (tpm, subject) in w.resident && Names(n, info, subject);
    assert (tpm, secret) in v.loaded && (tpm, subject) in v.resident;
  }

  lemma MacsCertifyKept(n: Net, w: World, a: Action)
    requires Injective(n) && MacsCertify(n, w) && Enabled(n, w, a)
    ensures MacsCertify(n, After(n, w, a))
  {
    var v := After(n, w, a);
    forall x | x in v.macs ensures x.0 in v.known || exists tpm :: (tpm, x.0) in v.loaded {
      if x in w.macs && x.0 !in w.known {
        var tpm :| (tpm, x.0) in w.loaded;
        assert (tpm, x.0) in v.loaded;
      }
    }
    forall s, info | (s, n.t.marshalAttest(info)) in v.macs && IsCertify(info) && s !in v.known
      ensures HolderCertified(n, v, s, info)
    {
      if (s, n.t.marshalAttest(info)) in w.macs {
        HolderStaysCertified(n, w, v, s, info);
      } else if a.CertifyByHmac? {
        assert (a.tpm, s) in v.loaded && (a.tpm, a.subject) in v.resident;
      }
    }
  }

  /** A restricted fixedTPM signer's certification is either an old one or the one just made. */
  lemma CertifySignedBefore(n: Net, w: World, a: Action, r: (Tpm, PublicArea), key: CryptoKey, info: Attest)
    requires Injective(n) && FixedKeysStay(n, w) && SignaturesCertify(n, w) && Enabled(n, w, a)
    requires FixedSigner(n, After(n, w, a), r, key) && CertifySigned(n, After(n, w, a), r.1, key, info)
    ensures SignerCertified(n, After(n, w, a), r.0, r.1, info)
  {
    var v := After(n, w, a);
    assert r in w.resident ==> FixedSigner(n, w, r, key);
    if CertifySigned(n, w, r.1, key, info) && r in w.resident {
      var subject :| (r.0, r.1, subject) in w.certified && Names(n, info, subject);
      assert (r.0, r.1, subject) in v.certified;
    } else if a.CertifyByKey? {
      assert (a.tpm, a.signer, a.subject) in v.certified;
      assert KeyIs(n, a.signer, key);
    } else if a.TpmSign? {
      assert KeyIs(n, a.signer, key);
      assert LooksCertified(n, n.t.marshalAttest(info));
    }
  }

  lemma SignaturesCertifyKept(n: Net, w: World, a: Action)
    requires Injective(n) && FixedKeysStay(n, w) && SignaturesCertify(n, w) && Enabled(n, w, a)
    ensures SignaturesCertify(n, After(n, w, a))
  {
    var v := After(n, w, a);
    forall r, key, info | FixedSigner(n, v, r, key) && CertifySigned(n, v, r.1, key, info)
      ensures SignerCertified(n, v, r.0, r.1, info)
    {
      CertifySignedBefore(n, w, a, r, key, info);
    }
  }

  ghost predicate Grows(w: World, v: World) {
    && w.macs <= v.macs && w.signatures <= v.signatures
    && forall s :: s in w.issued ==> s in v.issued && v.issued[s] == w.issued[s]
  }

  lemma GenuineGrows(n: Net, w: World, v: World, s: Signature)
    requires Grows(w, v) && Genuine(n, w, s)
    ensures Genuine(n, v, s)
  {
  }

  lemma CsrStillGenuine(n: Net, w: World, v: World, answer: CsrResponse)
    requires Grows(w, v) && NoForgedSignature(n, w, answer)
    ensures NoForgedSignature(n, v, answer)
  {
    if answer.csr.Some? {
      var parsed := n.u.parseCsr(answer.csr.value.contents);
      var signature := n.t.unmarshalSignature(answer.csr.value.signature);
      if parsed.Success? {
        GenuineGrows(n, w, v, parsed.value.signCertifyInfoSignature);
      }
      if signature.Success? {
        GenuineGrows(n, w, v, signature.value);
      }
    }
  }

  lemma AnswersStillHold(n: Net, w: World, v: World, id: nat, h: seq<Event>)
    requires Grows(w, v) && H.Shaped(h) && AnswersHold(n, w, id, h)
    ensures AnswersHold(n, v, id, h)
  {
    if |h| > 4 && h[4].csrResp.Some? {
      CsrStillGenuine(n, w, v, h[4].csrResp.value);
    }
  }

  /** The answer to the new call holds as well. */
  lemma AnswersHoldAfterCall(n: Net, w: World, id: nat, e: Event)
    requires SecretsStaySealed(n, w) && SessionsFollow(n, w) && Enabled(n, w, ServiceCall(id, e))
    ensures var h := w.sessions[id].history + [e];
            H.Shaped(h) && AnswersHold(n, Called(n, w, id, e), id, h)
  {
    var s := w.sessions[id];
    var v := Called(n, w, id, e);
    H.Extend(n.t, n.u, s.selection, s.history, e);
    AnswersStillHold(n, w, v, id, s.history);
    if e.GotCsr? && e.csrResp.Some? {
      CsrStillGenuine(n, w, v, e.csrResp.value);
    }
  }

  lemma AfterGrows(n: Net, w: World, a: Action)
    requires SecretsStaySealed(n, w) && Enabled(n, w, a)
    ensures Grows(w, After(n, w, a))
  {
  }

  lemma OtherSessionsStay(n: Net, w: World, a: Action, id: nat)
    requires Enabled(n, w, a) && id in w.sessions && !(a.ServiceCall? && a.id == id)
    ensures id in After(n, w, a).sessions && After(n, w, a).sessions[id] == w.sessions[id]
  {
  }

  lemma NewSessions(n: Net, w: World, a: Action, id: nat)
    requires Enabled(n, w, a) && id in After(n, w, a).sessions && id !in w.sessions
    ensures After(n, w, a).sessions[id].history == []
  {
  }

  lemma SessionsFollowKept(n: Net, w: World, a: Action)
    requires SecretsStaySealed(n, w) && SessionsFollow(n, w) && Enabled(n, w, a)
    ensures SessionsFollow(n, After(n, w, a))
  {
    var v := After(n, w, a);
    AfterGrows(n, w, a);
    forall id | id in v.sessions ensures SessionFollows(n, v, id) {
      if a.ServiceCall? && id == a.id {
        H.Extend(n.t, n.u, w.sessions[id].selection, w.sessions[id].history, a.event);
        AnswersHoldAfterCall(n, w, id, a.event);
      } else if id in w.sessions {
        OtherSessionsStay(n, w, a, id);
        AnswersStillHold(n, w, v, id, w.sessions[id].history);
      } else {
        NewSessions(n, w, a, id);
      }
    }
  }

  ghost predicate Invariant(n: Net, w: World) {
    FixedKeysStay(n, w) && SecretsStaySealed(n, w) && MacsCertify(n, w) && SignaturesCertify(n, w) && SessionsFollow(n, w)
  }

  /** Every world any run can reach satisfies the invariant. */
  lemma {:induction false} InvariantHolds(n: Net, run: seq<Action>, w: World)
    requires Injective(n) && ChecksMean(n) && Reaches(n, run, w)
    ensures Invariant(n, w)
  {
    if run != [] {
      var a := Last(run);
      var v: World :| Reaches(n, Before(run), v) && Leads(n, v, a, w);
      InvariantHolds(n, Before(run), v);
      FixedKeysStayKept(n, v, a);
      SecretsStaySealedKept(n, v, a);
      MacsCertifyKept(n, v, a);
      SignaturesCertifyKept(n, v, a);
      SessionsFollowKept(n, v, a);
    }
  }

  // ----- What acceptance means ---------------------------------------------------------------

  /** The TPM answered the challenge, so it holds the fetched endorsement key and the IAK. */
  ghost predicate HoldsIak(n: Net, w: World, h: seq<Event>, id: H.Identity, tpm: Tpm)
    requires H.Shaped(h) && |h| == 5
  {
    && n.rot(SerialOf(id.cardId), ManufacturerOf(id.cardId)) == h[1].ek
    && RSAEKPublicKeyToTPMTPublic(h[1].ek.value.publicKey) == Success(n.ekOf(tpm))
    && (tpm, id.iak) in w.resident && id.iak.attributes.fixedTPM && id.iak.attributes.restricted
  }

  /** The IDevID key is certified by the IAK on that TPM, fixed there, and on no other. */
  ghost predicate HoldsIdevid(n: Net, w: World, id: H.Identity, tpm: Tpm) {
    && (tpm, id.iak, id.idevid) in w.certified
    && (tpm, id.idevid) in w.resident && id.idevid.attributes.fixedTPM
    && forall other :: (other, id.iak) in w.resident || (other, id.idevid) in w.resident ==> other == tpm
  }

  /** What the challenge carries: a genuine HMAC, under this session's key, over a certification of the IAK. */
  lemma ChallengeCarries(n: Net, w: World, session: nat, id: H.Identity) returns (secret: Sensitive, info: Attest)
    requires SessionsFollow(n, w) && ChecksMean(n)
    requires session in w.sessions
    requires H.Finished(n.t, n.u, w.sessions[session].selection, w.sessions[session].history, Success(id))
    ensures secret in w.issued && w.issued[secret] == session
    ensures IsCertify(info) && Names(n, info, id.iak) && (secret, n.t.marshalAttest(info)) in w.macs
    ensures id.iak.attributes.fixedTPM && id.iak.attributes.restricted
    ensures var h := w.sessions[session].history;
            |h| == 5 && n.rot(SerialOf(id.cardId), ManufacturerOf(id.cardId)) == h[1].ek
  {
    var h := w.sessions[session].history;
    assert SessionFollows(n, w, session);
    H.AcceptanceRestsOn(n.t, n.u, w.sessions[session].selection, h, id);
    secret := h[2].hmacKey.value.sensitive;
    H.ChallengeAcceptedExactly(n.t, n.u, h[3].answer.value, secret, id.iak);
    info := n.t.unmarshalAttest2B(h[3].answer.value.challengeResp.value.iakCertifyInfo).value;
  }

  /** Such an HMAC was made by a TPM that has the IAK and the endorsement key this session fetched. */
  lemma MacProvesTpm(n: Net, w: World, secret: Sensitive, info: Attest, iak: PublicArea) returns (tpm: Tpm)
    requires Injective(n) && SecretsStaySealed(n, w) && MacsCertify(n, w)
    requires secret in w.issued && (secret, n.t.marshalAttest(info)) in w.macs
    requires IsCertify(info) && Names(n, info, iak)
    ensures (tpm, iak) in w.resident && SealedFor(w, w.issued[secret], n.ekOf(tpm))
  {
    var holder, subject :| (holder, secret) in w.loaded && (holder, subject) in w.resident && Names(n, info, subject);
    assert subject == iak;
    assert (n.ekOf(holder), secret) in w.wrapped;
    tpm := holder;
  }

  lemma ChallengeProvesTpm(n: Net, w: World, session: nat, id: H.Identity) returns (tpm: Tpm)
    requires Injective(n) && Invariant(n, w) && ChecksMean(n)
    requires session in w.sessions
    requires H.Finished(n.t, n.u, w.sessions[session].selection, w.sessions[session].history, Success(id))
    ensures |w.sessions[session].history| == 5
    ensures HoldsIak(n, w, w.sessions[session].history, id, tpm)
  {
    var secret, info := ChallengeCarries(n, w, session, id);
    tpm := MacProvesTpm(n, w, secret, info, id.iak);
  }

  /** What the CSR carries: a certification of the IDevID key under the IAK, and its own signature. */
  lemma CsrCarries(n: Net, w: World, session: nat, id: H.Identity)
    returns (info: Attest, iakKey: CryptoKey, idevidKey: CryptoKey)
    requires Invariant(n, w) && ChecksMean(n)
    requires session in w.sessions
    requires H.Finished(n.t, n.u, w.sessions[session].selection, w.sessions[session].history, Success(id))
    ensures IsCertify(info) && Names(n, info, id.idevid) && id.idevid.attributes.fixedTPM
    ensures KeyIs(n, id.iak, iakKey) && (iakKey, n.t.marshalAttest(info)) in w.signatures
    ensures KeyIs(n, id.idevid, idevidKey)
    ensures (idevidKey, w.sessions[session].history[4].csrResp.value.csr.value.contents) in w.signatures
  {
    var h := w.sessions[session].history;
    H.AcceptanceRestsOn(n.t, n.u, w.sessions[session].selection, h, id);
    var csr := h[4].csrResp.value.csr.value;
    var contents := n.u.parseCsr(csr.contents).value;
    var signature := n.t.unmarshalSignature(csr.signature).value;
    info := contents.signCertifyInfo;
    H.CsrAcceptedExactly(n.t, n.u, id.iak, h[4].csrResp.value, TemplateEccNistP384, id.idevid);
    assert Genuine(n, w, contents.signCertifyInfoSignature) && Genuine(n, w, signature);
    iakKey := n.c.toCryptoKey(id.iak).value;
    idevidKey := n.c.toCryptoKey(id.idevid).value;
  }

  lemma SignatureProvesIdevid(
    n: Net, w: World, id: H.Identity, tpm: Tpm, info: Attest, iakKey: CryptoKey, idevidKey: CryptoKey)
    requires Injective(n) && FixedKeysStay(n, w) && SignaturesCertify(n, w)
    requires (tpm, id.iak) in w.resident && id.iak.attributes.fixedTPM && id.iak.attributes.restricted
    requires IsCertify(info) && Names(n, info, id.idevid) && id.idevid.attributes.fixedTPM
    requires KeyIs(n, id.iak, iakKey) && (iakKey, n.t.marshalAttest(info)) in w.signatures
    requires KeyIs(n, id.idevid, idevidKey)
    ensures HoldsIdevid(n, w, id, tpm)
  {
    assert FixedSigner(n, w, (tpm, id.iak), iakKey);
    assert CertifySigned(n, w, id.iak, iakKey, info);
    var subject :| (tpm, id.iak, subject) in w.certified && Names(n, info, subject);
    assert subject == id.idevid;
    assert FixedSigner(n, w, (tpm, id.idevid), idevidKey);
  }

  /**
   The chain of trust, over all runs: whenever a session returns (card, iak, idevid), some TPM
   holds the endorsement key the RoT database has for that card's serial, the IAK is a resident
   restricted fixedTPM key of that TPM, and the IDevID key is a fixedTPM key certified by that
   IAK on the same TPM; neither key is on any other TPM.
   */
  lemma ChainOfTrustHolds(n: Net, run: seq<Action>, w: World, session: nat, id: H.Identity)
    requires Injective(n) && Sealing(n) && n.u == DefaultUtils(n.t, n.c) && Reaches(n, run, w)
    requires session in w.sessions
    requires H.Finished(n.t, n.u, w.sessions[session].selection, w.sessions[session].history, Success(id))
    ensures H.Shaped(w.sessions[session].history) && |w.sessions[session].history| == 5
    ensures exists tpm :: HoldsIak(n, w, w.sessions[session].history, id, tpm) && HoldsIdevid(n, w, id, tpm)
  {
    DefaultChecksMean(n);
    InvariantHolds(n, run, w);
    var tpm := ChallengeProvesTpm(n, w, session, id);
    var info, iakKey, idevidKey := CsrCarries(n, w, session, id);
    SignatureProvesIdevid(n, w, id, tpm, info, iakKey, idevidKey);
  }
}
