/**
 RotateAIKCert, the TPM 1.2 enrollment stream, against an environment that may answer
 anything or fail at any call. A run is the list of calls made with the answers received;
 NextStep says what the service does after any history.
 */
module AikStream {
  import opened Common
  import opened BigEndian
  import opened Cards
  import opened Tpm12Formats
  import opened RsaKeys
  import opened IdentityBinding
  import opened AikEnvelope

  /**
   The TPM12Utils interface the workflow is given. The random choices of an implementation
   (a fresh AES key, the IV) are fixed for the run.
   */
  datatype Tpm12Utils = Tpm12Utils(
    parseIdentityRequest: seq<byte> -> Result<IdentityReq>,
    decryptWithPrivateKey: (PrivateKey, seq<byte>, uint32, uint16) -> Result<seq<byte>>,
    parseSymmetricKey: seq<byte> -> Result<SymmetricKey>,
    decryptWithSymmetricKey: (SymmetricKey, KeyParms, seq<byte>) -> Result<seq<byte>>,
    parseIdentityProof: seq<byte> -> Result<IdentityProof>,
    constructIdentityContents: (RsaPublicKey, PubKey) -> Result<IdentityContents>,
    serializeIdentityContents: IdentityContents -> Result<seq<byte>>,
    verifySignatureWithRSAKey: (PubKey, seq<byte>, seq<byte>) -> Result<bool>,
    tpmPubKeyToRSAPubKey: PubKey -> Result<RsaPublicKey>,
    newAESCBCKey: uint32 -> Result<SymmetricKey>,
    encryptWithAES: (SymmetricKey, seq<byte>) -> Result<(seq<byte>, KeyParms)>,
    serializeSymCAAttestation: SymCAAttestation -> Result<seq<byte>>,
    constructAsymCAContents: (SymmetricKey, PubKey) -> Result<AsymCAContents>,
    serializeAsymCAContents: AsymCAContents -> Result<seq<byte>>,
    encryptWithPublicKey: (RsaPublicKey, seq<byte>, uint32, uint16) -> Result<seq<byte>>)

  datatype Message =
    | IssuerPublicKey(pkix: seq<byte>)
    | IssuerCertPayload(symmetricKeyBlob: seq<byte>, aikCertBlob: seq<byte>)
    | Finalize

  datatype ResponseValue = NoValue | ApplicationIdentityRequest(request: seq<byte>) | AikCert(cert: seq<byte>)
  datatype Response = Response(value: ResponseValue, cardId: Option<CardId>) {
    function GetApplicationIdentityRequest(): seq<byte> {
      if value.ApplicationIdentityRequest? then value.request else []
    }

    function GetAikCert(): seq<byte> {
      if value.AikCert? then value.cert else []
    }
  }

  datatype RecvAnswer = Got(resp: Response) | Eof | RecvError
  datatype EkAnswer = EkError | EkMissing | EkFound(ek: RsaPublicKey)

  /** One call to the environment together with its answer. */
  datatype Event =
    | Opened(ok: bool)
    | Sent(message: Message, selection: Selection, ok: bool)
    | Received(answer: RecvAnswer)
    | AskedCa(cardId: Option<CardId>, aikPem: seq<byte>, cert: Option<seq<byte>>)
    | AskedRot(serial: string, supplier: string, found: EkAnswer)
    | ClosedSend(ok: bool)

  datatype Call =
    | DoOpen
    | DoSend(message: Message)
    | DoRecv
    | DoAskCa(cardId: Option<CardId>, aikPem: seq<byte>)
    | DoAskRot(serial: string, supplier: string)
    | DoCloseSend

  datatype Step = Do(call: Call) | Done(result: Result<()>)

  /** The inputs of a run: its utilities, the freshly generated issuer key, library functions. */
  datatype Run = Run(
    selection: Selection, issuer: PrivateKey, utils: Tpm12Utils,
    sha1: Sha1, marshalPkix: RsaPublicKey -> Result<seq<byte>>, pemEncode: seq<byte> -> seq<byte>)

  // ----- What the service does ---------------------------------------------------------------

  /** The proof in a request: decode, unwrap the session key, decrypt, decode. */
  function OpenedProof(run: Run, request: seq<byte>): Result<IdentityProof> {
    var u := run.utils;
    var q :- u.parseIdentityRequest(request);
    var keyBytes :- u.decryptWithPrivateKey(run.issuer, q.asymBlob, q.asymAlgorithm.algId, q.asymAlgorithm.encScheme);
    var key :- u.parseSymmetricKey(keyBytes);
    var proofBytes :- u.decryptWithSymmetricKey(key, q.symAlgorithm, q.symBlob);
    u.parseIdentityProof(proofBytes)
  }

  /** The proof's binding verifies over the SHA-1 of the contents for this run's issuer key. */
  function CheckBinding(run: Run, proof: IdentityProof): Result<()> {
    var u := run.utils;
    var contents :- u.constructIdentityContents(run.issuer.publicKey, proof.aik);
    var contentsBytes :- u.serializeIdentityContents(contents);
    var valid :- u.verifySignatureWithRSAKey(proof.aik, proof.identityBinding, run.sha1(contentsBytes));
    Require(valid, BadSignature)
  }

  /** The proof in a request, once its binding is verified. */
  function VerifiedProof(run: Run, request: seq<byte>): Result<IdentityProof> {
    var proof :- OpenedProof(run, request);
    var _ :- CheckBinding(run, proof);
    Success(proof)
  }

  function AikPem(run: Run, aik: PubKey): Result<seq<byte>> {
    var key :- run.utils.tpmPubKeyToRSAPubKey(aik);
    var pkix :- run.marshalPkix(key);
    Success(run.pemEncode(pkix))
  }

  /** The certificate under a new AES-256 key, and that key with the AIK's digest. */
  function Envelope(run: Run, aik: PubKey, cert: seq<byte>): Result<(seq<byte>, seq<byte>)> {
    var u := run.utils;
    var key :- u.newAESCBCKey(ALG_AES256);
    var (encrypted, parms) :- u.encryptWithAES(key, cert);
    var aikCertBlob :- u.serializeSymCAAttestation(SymCAAttestation(parms, encrypted));
    var contents :- u.constructAsymCAContents(key, aik);
    var material :- u.serializeAsymCAContents(contents);
    Success((aikCertBlob, material))
  }

  function AfterRequest(run: Run, answer: RecvAnswer): Step {
    if !answer.Got? then Done(Failure(Dependency))
    else
      var request := answer.resp.GetApplicationIdentityRequest();
      if request == [] then Done(Failure(EmptyInput))
      else match VerifiedProof(run, request)
        case Failure(e) => Done(Failure(e))
        case Success(proof) =>
          match AikPem(run, proof.aik)
          case Failure(e) => Done(Failure(e))
          case Success(pem) => Do(DoAskCa(answer.resp.cardId, pem))
  }

  /** The envelope for the AIK a response proved and the certificate issued for it. */
  function EnvelopeFor(run: Run, resp: Response, cert: seq<byte>): Result<(seq<byte>, seq<byte>)> {
    var proof :- VerifiedProof(run, resp.GetApplicationIdentityRequest());
    Envelope(run, proof.aik, cert)
  }

  function AfterIssue(run: Run, resp: Response, cert: Option<seq<byte>>): Step {
    if cert.None? then Done(Failure(Dependency))
    else match EnvelopeFor(run, resp, cert.value)
      case Failure(e) => Done(Failure(e))
      case Success(_) => Do(DoAskRot(SerialOf(resp.cardId), ManufacturerOf(resp.cardId)))
  }

  /** The payload once the endorsement key is fetched. */
  function Payload(run: Run, resp: Response, cert: seq<byte>, found: EkAnswer): Result<Message> {
    if !found.EkFound? then Failure(Dependency)
    else
      var (aikCertBlob, material) :- EnvelopeFor(run, resp, cert);
      var symKeyBlob :- run.utils.encryptWithPublicKey(found.ek, material, ALG_RSA, ES_RSA_OAEP_SHA1_MGF1);
      Success(IssuerCertPayload(symKeyBlob, aikCertBlob))
  }

  function AfterEcho(cert: seq<byte>, answer: RecvAnswer): Step {
    if !answer.Got? then Done(Failure(Dependency))
    else if answer.resp.GetAikCert() == [] then Done(Failure(EmptyInput))
    else if cert != answer.resp.GetAikCert() then Done(Failure(CertMismatch))
    else Do(DoSend(Finalize))
  }

  function Then(ok: bool, call: Call): Step {
    if ok then Do(call) else Done(Failure(Dependency))
  }

  /** What the service does after the history h: its next call, or its result. */
  function NextStep(run: Run, h: seq<Event>): Step
    requires Shaped(h)
  {
    match |h|
    case 0 =>
      (match run.marshalPkix(run.issuer.publicKey)
       case Failure(e) => Done(Failure(e))
       case Success(_) => Do(DoOpen))
    case 1 =>
      (match run.marshalPkix(run.issuer.publicKey)
       case Failure(e) => Done(Failure(e))
       case Success(pkix) => Then(h[0].ok, DoSend(IssuerPublicKey(pkix))))
    case 2 => Then(h[1].ok, DoRecv)
    case 3 => AfterRequest(run, h[2].answer)
    case 4 => if !h[2].answer.Got? then Done(Failure(Dependency)) else AfterIssue(run, h[2].answer.resp, h[3].cert)
    case 5 =>
      if !h[2].answer.Got? || h[3].cert.None? then Done(Failure(Dependency))
      else (match Payload(run, h[2].answer.resp, h[3].cert.value, h[4].found)
            case Failure(e) => Done(Failure(e))
            case Success(m) => Do(DoSend(m)))
    case 6 => Then(h[5].ok, DoRecv)
    case 7 => if h[3].cert.None? then Done(Failure(Dependency)) else AfterEcho(h[3].cert.value, h[6].answer)
    case 8 => Then(h[7].ok, DoRecv)
    case 9 => if h[8].answer.Eof? then Done(Success(())) else Do(DoCloseSend)
    case _ => Done(if h[9].ok then Success(()) else Failure(Dependency))
  }

  /** The order of the calls; NextStep never leaves it. */
  predicate Shaped(h: seq<Event>) {
    && |h| <= 10
    && (|h| > 0 ==> h[0].Opened?)
    && (|h| > 1 ==> h[1].Sent?)
    && (|h| > 2 ==> h[2].Received?)
    && (|h| > 3 ==> h[3].AskedCa?)
    && (|h| > 4 ==> h[4].AskedRot?)
    && (|h| > 5 ==> h[5].Sent?)
    && (|h| > 6 ==> h[6].Received?)
    && (|h| > 7 ==> h[7].Sent?)
    && (|h| > 8 ==> h[8].Received?)
    && (|h| > 9 ==> h[9].ClosedSend?)
  }

  predicate Performs(run: Run, e: Event, call: Call) {
    match e
    case Opened(_) => call == DoOpen
    case Sent(m, selection, _) => call == DoSend(m) && selection == run.selection
    case Received(_) => call == DoRecv
    case AskedCa(cardId, pem, _) => call == DoAskCa(cardId, pem)
    case AskedRot(serial, supplier, _) => call == DoAskRot(serial, supplier)
    case ClosedSend(_) => call == DoCloseSend
  }

  /** A history whose every call is the one the service makes there; answers are arbitrary. */
  ghost predicate History(run: Run, h: seq<Event>) {
    h == [] || (History(run, h[..|h| - 1]) && Allowed(run, h[..|h| - 1], h[|h| - 1]))
  }

  ghost predicate Allowed(run: Run, h: seq<Event>, e: Event) {
    Shaped(h) && NextStep(run, h).Do? && Performs(run, e, NextStep(run, h).call)
  }

  /** A finished run: a history after which the service returns r. */
  ghost predicate Finished(run: Run, h: seq<Event>, r: Result<()>) {
    History(run, h) && Shaped(h) && NextStep(run, h) == Done(r)
  }

  // ----- The workflow ------------------------------------------------------------------------

  /** The stream, the CA and the RoT database: every method may answer anything. */
  class Environment {
    ghost var trace: seq<Event>

    constructor ()
      ensures trace == []
    {
      trace := [];
    }

    method OpenStream() returns (ok: bool)
      modifies this
      ensures trace == old(trace) + [Opened(ok)]
    {
      ok := *;
      trace := trace + [Opened(ok)];
    }

    method Send(message: Message, selection: Selection) returns (ok: bool)
      modifies this
      ensures trace == old(trace) + [Sent(message, selection, ok)]
    {
      ok := *;
      trace := trace + [Sent(message, selection, ok)];
    }

    method Recv() returns (answer: RecvAnswer)
      modifies this
      ensures trace == old(trace) + [Received(answer)]
    {
      answer := *;
      trace := trace + [Received(answer)];
    }

    method IssueAikCert(cardId: Option<CardId>, aikPem: seq<byte>) returns (cert: Option<seq<byte>>)
      modifies this
      ensures trace == old(trace) + [AskedCa(cardId, aikPem, cert)]
    {
      cert := *;
      trace := trace + [AskedCa(cardId, aikPem, cert)];
    }

    method FetchEK(serial: string, supplier: string) returns (found: EkAnswer)
      modifies this
      ensures trace == old(trace) + [AskedRot(serial, supplier, found)]
    {
      found := *;
      trace := trace + [AskedRot(serial, supplier, found)];
    }

    method CloseSend() returns (ok: bool)
      modifies this
      ensures trace == old(trace) + [ClosedSend(ok)]
    {
      ok := *;
      trace := trace + [ClosedSend(ok)];
    }
  }

  lemma Extend(run: Run, t: seq<Event>, h: seq<Event>, e: Event)
    requires History(run, h) && Allowed(run, h, e)
    ensures History(run, h + [e])
    ensures t + h + [e] == t + (h + [e])
  {
    assert (h + [e])[..|h|] == h;
  }

  method VerifyRequest(run: Run, request: seq<byte>) returns (r: Result<IdentityProof>)
    ensures r == VerifiedProof(run, request)
  {
    var u := run.utils;
    var q :- u.parseIdentityRequest(request);
    var keyBytes :- u.decryptWithPrivateKey(run.issuer, q.asymBlob, q.asymAlgorithm.algId, q.asymAlgorithm.encScheme);
    var key :- u.parseSymmetricKey(keyBytes);
    var proofBytes :- u.decryptWithSymmetricKey(key, q.symAlgorithm, q.symBlob);
    var proof :- u.parseIdentityProof(proofBytes);
    var contents :- u.constructIdentityContents(run.issuer.publicKey, proof.aik);
    var contentsBytes :- u.serializeIdentityContents(contents);
    var hash := run.sha1(contentsBytes);
    var isValid :- u.verifySignatureWithRSAKey(proof.aik, proof.identityBinding, hash);
    if !isValid {
      return Failure(BadSignature);
    }
    r := Success(proof);
  }

  /** Open the stream and send the issuer key. */
  method SendIssuerKey(env: Environment, run: Run, ghost t: seq<Event>) returns (r: Result<()>, ghost h: seq<Event>)
    requires env.trace == t
    modifies env
    ensures env.trace == t + h
    ensures r.Failure? ==> Finished(run, h, Failure(r.error))
    ensures r.Success? ==> History(run, h) && Shaped(h) && |h| == 2 && h[1].ok
  {
    h := [];
    var marshalled := run.marshalPkix(run.issuer.publicKey);
    if marshalled.Failure? {
      return Failure(marshalled.error), h;
    }
    var started := env.OpenStream();
    Extend(run, t, h, Opened(started));
    h := h + [Opened(started)];
    if !started {
      return Failure(Dependency), h;
    }
    var message := IssuerPublicKey(marshalled.value);
    var sent := env.Send(message, run.selection);
    Extend(run, t, h, Sent(message, run.selection, sent));
    h := h + [Sent(message, run.selection, sent)];
    if !sent {
      return Failure(Dependency), h;
    }
    r := Success(());
  }

  /** Send the issuer key; receive, open and verify the identity request. */
  method RequestIdentity(env: Environment, run: Run, ghost t: seq<Event>)
    returns (r: Result<(Response, IdentityProof)>, ghost h: seq<Event>)
    requires env.trace == t
    modifies env
    ensures env.trace == t + h
    ensures r.Failure? ==> Finished(run, h, Failure(r.error))
    ensures r.Success? ==>
      && History(run, h) && Shaped(h) && |h| == 3
      && h[2].answer == Got(r.value.0)
      && r.value.0.GetApplicationIdentityRequest() != []
      && VerifiedProof(run, r.value.0.GetApplicationIdentityRequest()) == Success(r.value.1)
  {
    var sent, h0 := SendIssuerKey(env, run, t);
    h := h0;
    if sent.Failure? {
      return Failure(sent.error), h;
    }
    var answer := env.Recv();
    Extend(run, t, h, Received(answer));
    h := h + [Received(answer)];
    if !answer.Got? {
      return Failure(Dependency), h;
    }
    var request := answer.resp.GetApplicationIdentityRequest();
    if |request| == 0 {
      return Failure(EmptyInput), h;
    }
    var proof := VerifyRequest(run, request);
    if proof.Failure? {
      return Failure(proof.error), h;
    }
    r := Success((answer.resp, proof.value));
  }

  /** Fetch the endorsement key, seal the key material to it and send both blobs. */
  method SendSealed(
    env: Environment, run: Run, resp: Response, cert: seq<byte>, aikCertBlob: seq<byte>, material: seq<byte>,
    ghost t: seq<Event>, ghost h0: seq<Event>)
    returns (r: Result<()>, ghost h: seq<Event>)
    requires env.trace == t + h0
    requires History(run, h0) && Shaped(h0) && |h0| == 4
    requires h0[2].answer == Got(resp) && h0[3].cert == Some(cert)
    requires EnvelopeFor(run, resp, cert) == Success((aikCertBlob, material))
    modifies env
    ensures env.trace == t + h
    ensures r.Failure? ==> Finished(run, h, Failure(r.error))
    ensures r.Success? ==> History(run, h) && Shaped(h) && |h| == 6 && h[3].cert == Some(cert) && h[5].ok
  {
    h := h0;
    var serial, supplier := SerialOf(resp.cardId), ManufacturerOf(resp.cardId);
    var found := env.FetchEK(serial, supplier);
    Extend(run, t, h, AskedRot(serial, supplier, found));
    h := h + [AskedRot(serial, supplier, found)];
    if !found.EkFound? {
      return Failure(Dependency), h;
    }
    var symKeyBlob := run.utils.encryptWithPublicKey(found.ek, material, ALG_RSA, ES_RSA_OAEP_SHA1_MGF1);
    if symKeyBlob.Failure? {
      return Failure(symKeyBlob.error), h;
    }
    var payload := IssuerCertPayload(symKeyBlob.value, aikCertBlob);
    var sent := env.Send(payload, run.selection);
    Extend(run, t, h, Sent(payload, run.selection, sent));
    h := h + [Sent(payload, run.selection, sent)];
    if !sent {
      return Failure(Dependency), h;
    }
    r := Success(());
  }

  /** Have the certificate issued, seal it for the device and send it. */
  method SendCertificate(
    env: Environment, run: Run, resp: Response, proof: IdentityProof, ghost t: seq<Event>, ghost h0: seq<Event>)
    returns (r: Result<seq<byte>>, ghost h: seq<Event>)
    requires env.trace == t + h0
    requires History(run, h0) && Shaped(h0) && |h0| == 3
    requires h0[2].answer == Got(resp) && resp.GetApplicationIdentityRequest() != []
    requires VerifiedProof(run, resp.GetApplicationIdentityRequest()) == Success(proof)
    modifies env
    ensures env.trace == t + h
    ensures r.Failure? ==> Finished(run, h, Failure(r.error))
    ensures r.Success? ==> History(run, h) && Shaped(h) && |h| == 6 && h[3].cert == Some(r.value) && h[5].ok
  {
    h := h0;
    var aikPem := AikPem(run, proof.aik);
    if aikPem.Failure? {
      return Failure(aikPem.error), h;
    }
    var cert := env.IssueAikCert(resp.cardId, aikPem.value);
    Extend(run, t, h, AskedCa(resp.cardId, aikPem.value, cert));
    h := h + [AskedCa(resp.cardId, aikPem.value, cert)];
    if cert.None? {
      return Failure(Dependency), h;
    }
    var envelope := Envelope(run, proof.aik, cert.value);
    if envelope.Failure? {
      return Failure(envelope.error), h;
    }
    var (aikCertBlob, material) := envelope.value;
    var sent, h1 := SendSealed(env, run, resp, cert.value, aikCertBlob, material, t, h);
    h := h1;
    if sent.Failure? {
      return Failure(sent.error), h;
    }
    r := Success(cert.value);
  }

  /** Receive the certificate the device decrypted, compare, finalize and close. */
  method ConfirmAndFinalize(env: Environment, run: Run, cert: seq<byte>, ghost t: seq<Event>, ghost h0: seq<Event>)
    returns (r: Result<()>, ghost h: seq<Event>)
    requires env.trace == t + h0
    requires History(run, h0) && Shaped(h0) && |h0| == 6 && h0[3].cert == Some(cert) && h0[5].ok
    modifies env
    ensures env.trace == t + h
    ensures Finished(run, h, r)
  {
    h := h0;
    var answer := env.Recv();
    Extend(run, t, h, Received(answer));
    h := h + [Received(answer)];
    if !answer.Got? {
      return Failure(Dependency), h;
    }
    var deviceAikCert := answer.resp.GetAikCert();
    if |deviceAikCert| == 0 {
      return Failure(EmptyInput), h;
    }
    if cert != deviceAikCert {
      return Failure(CertMismatch), h;
    }
    var sent := env.Send(Finalize, run.selection);
    Extend(run, t, h, Sent(Finalize, run.selection, sent));
    h := h + [Sent(Finalize, run.selection, sent)];
    if !sent {
      return Failure(Dependency), h;
    }
    answer := env.Recv();
    Extend(run, t, h, Received(answer));
    h := h + [Received(answer)];
    if !answer.Eof? {
      var closed := env.CloseSend();
      Extend(run, t, h, ClosedSend(closed));
      h := h + [ClosedSend(closed)];
      if !closed {
        return Failure(Dependency), h;
      }
    }
    r := Success(());
  }

  /** Every run, whatever the environment answers, is one NextStep allows. */
  method RotateAIKCert(env: Environment, run: Run) returns (r: Result<()>)
    modifies env
    ensures old(env.trace) <= env.trace
    ensures Finished(run, env.trace[|old(env.trace)|..], r)
  {
    ghost var t := env.trace;
    var identity, h := RequestIdentity(env, run, t);
    assert env.trace[|t|..] == h;
    var pair :- identity;
    var (resp, proof) := pair;
    var cert, h1 := SendCertificate(env, run, resp, proof, t, h);
    assert env.trace[|t|..] == h1;
    var issued :- cert;
    var result, h2 := ConfirmAndFinalize(env, run, issued, t, h1);
    assert env.trace[|t|..] == h2;
    r := result;
  }
}
