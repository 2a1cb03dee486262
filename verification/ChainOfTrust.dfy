/**
 The HMAC challenge against an untrusted network. A world holds TPMs, what the network knows
 and can do, and any number of sessions of the service, each following HmacEnrollment.NextStep.
 HMACs and signatures are symbolic: one that verifies was made by a holder of its key.
 */
module ChainOfTrust {
  import opened Common
  import opened BigEndian
  import opened Cards
  import opened Tpm20Types
  import opened EnrollzDeps
  import opened Tpm20Checks
  import H = HmacEnrollment

  type Tpm = nat

  /**
   Everything fixed for a run: libraries, utilities, each TPM's endorsement key, the RoT database,
   and what a duplicate and its seed are sealed to.
   */
  datatype Net = Net(
    t: GoTpm, c: Primitives, u: H.Tpm20Utils,
    ekOf: Tpm -> EkPublic, rot: (string, string) -> Option<EkResponse>,
    sealedTo: (seq<byte>, seq<byte>) -> Option<(EkPublic, Sensitive)>)

  /** One run of verifyIdentityWithHMACChallenge. */
  datatype Session = Session(selection: Option<Selection>, history: seq<Event>)

  datatype World = World(
    resident: set<(Tpm, PublicArea)>,            // loaded objects with their private part
    software: set<CryptoKey>,                    // signing keys the network holds
    loaded: set<(Tpm, Sensitive)>,               // imported HMAC keys
    known: set<Sensitive>,                       // HMAC keys the network holds
    issued: map<Sensitive, nat>,                 // HMAC keys of the service, by session
    wrapped: set<(EkPublic, Sensitive)>,         // HMAC keys sealed to endorsement keys
    macs: set<(Sensitive, seq<byte>)>,           // HMACs made
    signatures: set<(CryptoKey, seq<byte>)>,     // signatures made
    certified: set<(Tpm, PublicArea, PublicArea)>, // TPM, signer, certified object
    sessions: map<nat, Session>)

  // ----- Steps -------------------------------------------------------------------------------

  datatype Action =
    | CreateKey(tpm: Tpm, pub: PublicArea)
    | Duplicate(tpm: Tpm, to: Tpm, pub: PublicArea)
    | Export(tpm: Tpm, pub: PublicArea)
    | Import(tpm: Tpm, pub: PublicArea)
    | ForgeKey(key: CryptoKey)
    | LearnSecret(secret: Sensitive)
    | LoadHmac(tpm: Tpm, secret: Sensitive)
    | CertifyByHmac(tpm: Tpm, secret: Sensitive, subject: PublicArea, info: Attest)
    | TpmHmac(tpm: Tpm, secret: Sensitive, message: seq<byte>)
    | NetworkHmac(secret: Sensitive, message: seq<byte>)
    | CertifyByKey(tpm: Tpm, signer: PublicArea, subject: PublicArea, info: Attest)
    | TpmSign(tpm: Tpm, signer: PublicArea, message: seq<byte>)
    | NetworkSign(key: CryptoKey, message: seq<byte>)
    | ReceiveChallenge(id: nat)
    | StartSession(id: nat, selection: Option<Selection>)
    | ServiceCall(id: nat, event: Event)

  /** An attestation TPM2_Certify produces. */
  predicate IsCertify(a: Attest) {
    a.magic == TPM_GENERATED && a.kind == AttestCertify
  }

  /** Restricted keys never sign these outside of TPM2_Certify. */
  ghost predicate LooksCertified(n: Net, message: seq<byte>) {
    exists a: Attest :: message == n.t.marshalAttest(a) && IsCertify(a)
  }

  ghost predicate Names(n: Net, info: Attest, subject: PublicArea) {
    info.attested.Certify? && n.t.objectName(subject) == Success(info.attested.name)
  }

  ghost predicate KeyIs(n: Net, pub: PublicArea, key: CryptoKey) {
    n.c.toCryptoKey(pub) == Success(key)
  }

  ghost predicate Unused(n: Net, w: World, key: CryptoKey) {
    key !in w.software && forall r :: r in w.resident ==> !KeyIs(n, r.1, key)
  }

  /** The HMAC in a challenge response matches only messages it was made over. */
  ghost predicate NoForgedMac(n: Net, w: World, secret: Sensitive, answer: ChallengeResponse) {
    answer.challengeResp.Some? ==>
      forall m :: MacMatches(n.t, n.c, m, answer.challengeResp.value.iakCertifyInfoSignature, secret) ==> (secret, m) in w.macs
  }

  /** A signature is accepted only for the keys and messages it was made with. */
  ghost predicate Genuine(n: Net, w: World, s: Signature) {
    forall m, key :: SignedBy(n.c, key, m, s) ==> (key, m) in w.signatures
  }

  /** Both signatures in a CSR response are genuine. */
  ghost predicate NoForgedSignature(n: Net, w: World, answer: CsrResponse) {
    answer.csr.Some? ==>
      && (n.u.parseCsr(answer.csr.value.contents).Success? ==>
            Genuine(n, w, n.u.parseCsr(answer.csr.value.contents).value.signCertifyInfoSignature))
      && (n.t.unmarshalSignature(answer.csr.value.signature).Success? ==>
            Genuine(n, w, n.t.unmarshalSignature(answer.csr.value.signature).value))
  }

  /** The RoT database is trusted and HMAC keys are fresh; the device's answers are the network's. */
  ghost predicate AnswerPossible(n: Net, w: World, h: seq<Event>, e: Event)
    requires H.Shaped(h)
  {
    match e
    case FetchedEk(serial, supplier, ek) => ek.Some? ==> ek == n.rot(serial, supplier)
    case GeneratedHmacKey(key) => key.Some? ==> key.value.sensitive !in w.issued && key.value.sensitive !in w.known
    case Challenged(_, _, _, answer) =>
      |h| == 3 && h[2].hmacKey.Some? && (answer.Some? ==> NoForgedMac(n, w, h[2].hmacKey.value.sensitive, answer.value))
    case GotCsr(_, _, _, csr) => csr.Some? ==> NoForgedSignature(n, w, csr.value)
    case _ => true
  }

  /** The session's next call sends its challenge; the device's answer is not in yet. */
  ghost predicate Challenging(n: Net, s: Session) {
    && H.Shaped(s.history) && |s.history| == 3
    && H.NextStep(n.t, n.u, s.selection, s.history).Do? && H.NextStep(n.t, n.u, s.selection, s.history).call.DoChallenge?
  }

  ghost predicate Enabled(n: Net, w: World, a: Action) {
    match a
    case CreateKey(_, pub) => n.c.toCryptoKey(pub).Success? ==> Unused(n, w, n.c.toCryptoKey(pub).value)
    case Duplicate(tpm, _, pub) => (tpm, pub) in w.resident && !pub.attributes.fixedTPM
    case Export(tpm, pub) => (tpm, pub) in w.resident && !pub.attributes.fixedTPM && n.c.toCryptoKey(pub).Success?
    case Import(_, pub) => !pub.attributes.fixedTPM && n.c.toCryptoKey(pub).Success? && n.c.toCryptoKey(pub).value in w.software
    case ForgeKey(key) => Unused(n, w, key)
    case LearnSecret(secret) => secret !in w.issued
    case LoadHmac(tpm, secret) => secret in w.known || (n.ekOf(tpm), secret) in w.wrapped
    case CertifyByHmac(tpm, secret, subject, info) =>
      (tpm, secret) in w.loaded && (tpm, subject) in w.resident && IsCertify(info) && Names(n, info, subject)
    case TpmHmac(tpm, secret, m) => (tpm, secret) in w.loaded && !LooksCertified(n, m)
    case NetworkHmac(secret, _) => secret in w.known
    case CertifyByKey(tpm, signer, subject, info) =>
      && (tpm, signer) in w.resident && n.c.toCryptoKey(signer).Success?
      && (tpm, subject) in w.resident && IsCertify(info) && Names(n, info, subject)
    case TpmSign(tpm, signer, m) =>
      && (tpm, signer) in w.resident && n.c.toCryptoKey(signer).Success?
      && (signer.attributes.restricted ==> !LooksCertified(n, m))
    case NetworkSign(key, _) => key in w.software
    case ReceiveChallenge(id) => id in w.sessions && Challenging(n, w.sessions[id])
    case StartSession(id, _) => id !in w.sessions
    case ServiceCall(id, e) =>
      && id in w.sessions && H.Allowed(n.t, n.u, w.sessions[id].selection, w.sessions[id].history, e)
      && AnswerPossible(n, w, w.sessions[id].history, e)
  }

  /** A call extends the session's history; generating a key issues it. */
  ghost function Called(n: Net, w: World, id: nat, e: Event): World
    requires Enabled(n, w, ServiceCall(id, e))
  {
    var s := w.sessions[id];
    var w1 := w.(sessions := w.sessions[id := s.(history := s.history + [e])]);
    if e.GeneratedHmacKey? && e.hmacKey.Some? then w1.(issued := w.issued[e.hmacKey.value.sensitive := id]) else w1
  }

  /** The challenge on the network: what its duplicate is sealed to can be loaded there. */
  ghost function Received(n: Net, w: World, id: nat): World
    requires Enabled(n, w, ReceiveChallenge(id))
  {
    var challenge := H.NextStep(n.t, n.u, w.sessions[id].selection, w.sessions[id].history).call.challenge;
    match n.sealedTo(challenge.duplicate, challenge.inSymSeed)
    case None => w
    case Some(x) => w.(wrapped := w.wrapped + {x})
  }

  ghost function After(n: Net, w: World, a: Action): World
    requires Enabled(n, w, a)
  {
    match a
    case CreateKey(tpm, pub) => w.(resident := w.resident + {(tpm, pub)})
    case Duplicate(_, to, pub) => w.(resident := w.resident + {(to, pub)})
    case Export(_, pub) => w.(software := w.software + {n.c.toCryptoKey(pub).value})
    case Import(tpm, pub) => w.(resident := w.resident + {(tpm, pub)})
    case ForgeKey(key) => w.(software := w.software + {key})
    case LearnSecret(secret) => w.(known := w.known + {secret})
    case LoadHmac(tpm, secret) => w.(loaded := w.loaded + {(tpm, secret)})
    case CertifyByHmac(_, secret, _, info) => w.(macs := w.macs + {(secret, n.t.marshalAttest(info))})
    case TpmHmac(_, secret, m) => w.(macs := w.macs + {(secret, m)})
    case NetworkHmac(secret, m) => w.(macs := w.macs + {(secret, m)})
    case CertifyByKey(tpm, signer, subject, info) =>
      w.(signatures := w.signatures + {(n.c.toCryptoKey(signer).value, n.t.marshalAttest(info))},
         certified := w.certified + {(tpm, signer, subject)})
    case TpmSign(_, signer, m) => w.(signatures := w.signatures + {(n.c.toCryptoKey(signer).value, m)})
    case NetworkSign(key, m) => w.(signatures := w.signatures + {(key, m)})
    case ReceiveChallenge(id) => Received(n, w, id)
    case StartSession(id, selection) => w.(sessions := w.sessions[id := Session(selection, [])])
    case ServiceCall(id, e) => Called(n, w, id, e)
  }

  const START := World({}, {}, {}, {}, map[], {}, {}, {}, {}, map[])

  ghost predicate Leads(n: Net, v: World, a: Action, w: World) {
    Enabled(n, v, a) && w == After(n, v, a)
  }

  function Before(run: seq<Action>): seq<Action>
    requires run != []
  {
    run[..|run| - 1]
  }

  function Last(run: seq<Action>): Action
    requires run != []
  {
    run[|run| - 1]
  }

  /** w is the world after this run of actions. */
  ghost predicate Reaches(n: Net, run: seq<Action>, w: World) {
    if run == [] then w == START
    else exists v: World :: Reaches(n, Before(run), v) && Leads(n, v, Last(run), w)
  }
}
