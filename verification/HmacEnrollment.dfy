/**
 EnrollSwitchWithHMACChallenge: verify every card by an HMAC challenge to its endorsement key,
 then issue and rotate atomically. NextStep says what verifyIdentityWithHMACChallenge does
 after any history of calls and answers.
 */
module HmacEnrollment {
  import opened Common
  import opened BigEndian
  import opened Cards
  import opened RsaKeys
  import opened Tpm20Types
  import opened CsrIdevid
  import opened EnrollzDeps

  /** The TPM20Utils interface; the random choices of wrapping are fixed for the run. */
  datatype Tpm20Utils = Tpm20Utils(
    wrapHMACKey: (Option<RsaPublicKey>, HmacKey) -> Result<(seq<byte>, seq<byte>)>,
    verifyHMAC: (seq<byte>, seq<byte>, Sensitive) -> Result<()>,
    verifyIAKAttributes: seq<byte> -> Result<PublicArea>,
    verifyCertifyInfo: (Attest, PublicArea) -> Result<()>,
    parseCsr: seq<byte> -> Result<CsrContents>,
    verifyTPMTSignature: (seq<byte>, Signature, PublicArea) -> Result<()>,
    verifyIdevidAttributes: (PublicArea, KeyTemplate) -> Result<()>,
    publicToPem: PublicArea -> Result<string>)

  // ----- Checks on the answers ---------------------------------------------------------------

  function VerifyIAKKey(t: GoTpm, u: Tpm20Utils, resp: Option<HmacResponse>): Result<PublicArea> {
    if resp.None? then Failure(InvalidRequest)
    else
      var iak :- u.verifyIAKAttributes(resp.value.iakPub);
      var certifyInfo :- t.unmarshalAttest2B(resp.value.iakCertifyInfo);
      var _ :- u.verifyCertifyInfo(certifyInfo, iak);
      Success(iak)
  }

  /** The HMAC over the certify info verifies, and the info certifies an acceptable IAK. */
  function VerifyChallenge(t: GoTpm, u: Tpm20Utils, answer: ChallengeResponse, sensitive: Sensitive): Result<PublicArea> {
    var resp := answer.challengeResp;
    var info := if resp.Some? then resp.value.iakCertifyInfo else [];
    var mac := if resp.Some? then resp.value.iakCertifyInfoSignature else [];
    var certifyInfo :- t.unmarshalAttest2B(info);
    var _ :- u.verifyHMAC(t.marshalAttest(certifyInfo), mac, sensitive);
    VerifyIAKKey(t, u, resp)
  }

  /** Go strings are byte strings. */
  function AsString(b: seq<byte>): string {
    seq(|b|, i requires 0 <= i < |b| => b[i] as int as char)
  }

  /** The string's characters are these bytes, in order. */
  predicate SpelledBy(s: string, b: seq<byte>) {
    |s| == |b| && forall i :: 0 <= i < |s| ==> s[i] as int == b[i] as int
  }

  lemma AsStringSpells(s: string, b: seq<byte>)
    ensures AsString(b) == s <==> SpelledBy(s, b)
  {
    if SpelledBy(s, b) {
      assert forall i :: 0 <= i < |b| ==> AsString(b)[i] == s[i];
    }
  }

  /** The checks on the signing key in parsed CSR contents and on the CSR's own signature. */
  function VerifyCsrContents(
    t: GoTpm, u: Tpm20Utils, iak: PublicArea, csr: CsrBody, c: CsrContents, template: KeyTemplate): Result<()>
  {
    var _ :- u.verifyTPMTSignature(t.marshalAttest(c.signCertifyInfo), c.signCertifyInfoSignature, iak);
    var _ :- u.verifyCertifyInfo(c.signCertifyInfo, c.idevidPub);
    var _ :- u.verifyIdevidAttributes(c.idevidPub, template);
    var signature :- t.unmarshalSignature(csr.signature);
    u.verifyTPMTSignature(csr.contents, signature, c.idevidPub)
  }

  function VerifyIdevidKeyAndCsr(
    t: GoTpm, u: Tpm20Utils, iak: PublicArea, answer: CsrResponse, template: KeyTemplate): Result<PublicArea>
  {
    if answer.csr.None? || answer.cardId.None? then Failure(InvalidRequest)
    else
      var c :- u.parseCsr(answer.csr.value.contents);
      var _ :- VerifyCsrContents(t, u, iak, answer.csr.value, c, template);
      if AsString(c.prodSerial) != answer.cardId.value.controlCardSerial then Failure(SerialMismatch)
      else Success(c.idevidPub)
  }

  /**
   The challenge is passed with this IAK exactly when the device sent a response whose HMAC
   verifies over its own certify info, and that same info certifies the acceptable key iak.
   */
  lemma ChallengeAcceptedExactly(t: GoTpm, u: Tpm20Utils, answer: ChallengeResponse, sensitive: Sensitive, iak: PublicArea)
    ensures VerifyChallenge(t, u, answer, sensitive) == Success(iak) <==>
            && answer.challengeResp.Some?
            && var resp := answer.challengeResp.value;
            && t.unmarshalAttest2B(resp.iakCertifyInfo).Success?
            && var info := t.unmarshalAttest2B(resp.iakCertifyInfo).value;
            && u.verifyHMAC(t.marshalAttest(info), resp.iakCertifyInfoSignature, sensitive).Success?
            && u.verifyIAKAttributes(resp.iakPub) == Success(iak)
            && u.verifyCertifyInfo(info, iak).Success?
  {
  }

  /** Parsed CSR contents that prove the key idevid for this IAK and this card. */
  predicate CsrProves(t: GoTpm, u: Tpm20Utils, iak: PublicArea, csr: CsrBody, cardId: CardId, c: CsrContents, template: KeyTemplate) {
    && u.verifyTPMTSignature(t.marshalAttest(c.signCertifyInfo), c.signCertifyInfoSignature, iak).Success?
    && u.verifyCertifyInfo(c.signCertifyInfo, c.idevidPub).Success?
    && u.verifyIdevidAttributes(c.idevidPub, template).Success?
    && t.unmarshalSignature(csr.signature).Success?
    && u.verifyTPMTSignature(csr.contents, t.unmarshalSignature(csr.signature).value, c.idevidPub).Success?
    && SpelledBy(cardId.controlCardSerial, c.prodSerial)
  }

  /**
   The CSR is accepted with this IDevID key exactly when the response carries a card id and a
   CSR whose contents parse, name idevid and prove it; the serial compared is the response's.
   */
  lemma CsrAcceptedExactly(
    t: GoTpm, u: Tpm20Utils, iak: PublicArea, answer: CsrResponse, template: KeyTemplate, idevid: PublicArea)
    ensures VerifyIdevidKeyAndCsr(t, u, iak, answer, template) == Success(idevid) <==>
            && answer.csr.Some? && answer.cardId.Some?
            && var c := u.parseCsr(answer.csr.value.contents);
            && c.Success? && c.value.idevidPub == idevid
            && CsrProves(t, u, iak, answer.csr.value, answer.cardId.value, c.value, template)
  {
    if answer.csr.Some? && answer.cardId.Some? && u.parseCsr(answer.csr.value.contents).Success? {
      AsStringSpells(answer.cardId.value.controlCardSerial, u.parseCsr(answer.csr.value.contents).value.prodSerial);
    }
  }

  // ----- One card ----------------------------------------------------------------------------

  /** What a successful verification returns. */
  datatype Identity = Identity(cardId: Option<CardId>, iak: PublicArea, idevid: PublicArea)

  datatype Call =
    | DoGetVendorId
    | DoFetchEk(serial: string, supplier: string)
    | DoGenerateKey
    | DoChallenge(challenge: HmacChallenge, keyType: KeyType)
    | DoGetCsr(keyType: KeyType, template: KeyTemplate)

  datatype Step = Do(call: Call) | Done(result: Result<Identity>)

  function AfterKey(u: Tpm20Utils, ek: EkResponse, key: HmacKey): Step {
    match u.wrapHMACKey(ek.publicKey, key)
    case Failure(e) => Done(Failure(e))
    case Success((duplicate, inSymSeed)) => Do(DoChallenge(HmacChallenge(key.pub, duplicate, inSymSeed), ek.keyType))
  }

  function AfterChallenge(t: GoTpm, u: Tpm20Utils, ek: EkResponse, key: HmacKey, answer: Option<ChallengeResponse>): Step {
    if answer.None? then Done(Failure(Dependency))
    else match VerifyChallenge(t, u, answer.value, key.sensitive)
      case Failure(e) => Done(Failure(e))
      case Success(_) => Do(DoGetCsr(ek.keyType, TemplateEccNistP384))
  }

  function AfterCsr(
    t: GoTpm, u: Tpm20Utils, cardId: Option<CardId>, key: HmacKey, answer: ChallengeResponse, csr: Option<CsrResponse>): Result<Identity>
  {
    if csr.None? then Failure(Dependency)
    else
      var iak :- VerifyChallenge(t, u, answer, key.sensitive);
      var idevid :- VerifyIdevidKeyAndCsr(t, u, iak, csr.value, TemplateEccNistP384);
      Success(Identity(cardId, iak, idevid))
  }

  /** The order of the calls; NextStep never leaves it. */
  predicate Shaped(h: seq<Event>) {
    && |h| <= 5
    && (|h| > 0 ==> h[0].GotVendorId?)
    && (|h| > 1 ==> h[1].FetchedEk? && h[0].vendorId.Some?)
    && (|h| > 2 ==> h[2].GeneratedHmacKey? && h[1].ek.Some?)
    && (|h| > 3 ==> h[3].Challenged? && h[2].hmacKey.Some?)
    && (|h| > 4 ==> h[4].GotCsr? && h[3].answer.Some?)
  }

  /** What the service does after the history h of one card. */
  function NextStep(t: GoTpm, u: Tpm20Utils, selection: Option<Selection>, h: seq<Event>): Step
    requires Shaped(h)
  {
    match |h|
    case 0 => if selection.None? then Done(Failure(InvalidRequest)) else Do(DoGetVendorId)
    case 1 =>
      if h[0].vendorId.None? then Done(Failure(Dependency))
      else Do(DoFetchEk(SerialOf(h[0].vendorId.value), ManufacturerOf(h[0].vendorId.value)))
    case 2 => if h[1].ek.None? then Done(Failure(Dependency)) else Do(DoGenerateKey)
    case 3 => if h[2].hmacKey.None? then Done(Failure(Dependency)) else AfterKey(u, h[1].ek.value, h[2].hmacKey.value)
    case 4 => AfterChallenge(t, u, h[1].ek.value, h[2].hmacKey.value, h[3].answer)
    case _ => Done(AfterCsr(t, u, h[0].vendorId.value, h[2].hmacKey.value, h[3].answer.value, h[4].csrResp))
  }

  predicate Performs(selection: Option<Selection>, e: Event, call: Call) {
    match e
    case GotVendorId(s, _) => s == selection && call == DoGetVendorId
    case FetchedEk(serial, supplier, _) => call == DoFetchEk(serial, supplier)
    case GeneratedHmacKey(_) => call == DoGenerateKey
    case Challenged(s, challenge, keyType, _) => s == selection && call == DoChallenge(challenge, keyType)
    case GotCsr(s, keyType, template, _) => s == selection && call == DoGetCsr(keyType, template)
    case _ => false
  }

  ghost predicate Allowed(t: GoTpm, u: Tpm20Utils, selection: Option<Selection>, h: seq<Event>, e: Event) {
    && Shaped(h) && NextStep(t, u, selection, h).Do? && Performs(selection, e, NextStep(t, u, selection, h).call)
  }

  /** A history whose every call is the one the service makes there; answers are arbitrary. */
  ghost predicate History(t: GoTpm, u: Tpm20Utils, selection: Option<Selection>, h: seq<Event>) {
    h == [] || (History(t, u, selection, h[..|h| - 1]) && Allowed(t, u, selection, h[..|h| - 1], h[|h| - 1]))
  }

  ghost predicate Finished(t: GoTpm, u: Tpm20Utils, selection: Option<Selection>, h: seq<Event>, r: Result<Identity>) {
    History(t, u, selection, h) && Shaped(h) && NextStep(t, u, selection, h) == Done(r)
  }

  lemma Extend(t: GoTpm, u: Tpm20Utils, selection: Option<Selection>, h: seq<Event>, e: Event)
    requires History(t, u, selection, h) && Allowed(t, u, selection, h, e)
    ensures History(t, u, selection, h + [e]) && Shaped(h + [e])
  {
    assert (h + [e])[..|h|] == h;
  }

  lemma {:induction false} HistoryAt(t: GoTpm, u: Tpm20Utils, selection: Option<Selection>, h: seq<Event>, i: nat)
    requires History(t, u, selection, h) && i < |h|
    ensures History(t, u, selection, h[..i]) && Allowed(t, u, selection, h[..i], h[i])
  {
    var n := |h| - 1;
    if i < n {
      HistoryAt(t, u, selection, h[..n], i);
      assert h[..n][..i] == h[..i];
    }
  }

  /** The vendor id, the endorsement key and a wrapped HMAC key: the first half. */
  method SendChallenge(deps: Deps, t: GoTpm, u: Tpm20Utils, selection: Option<Selection>)
    returns (r: Result<()>, ghost h: seq<Event>, cardId: Option<CardId>, ek: EkResponse, sensitive: Sensitive, answer: ChallengeResponse)
    modifies deps
    ensures deps.trace == old(deps.trace) + h
    ensures r.Failure? ==> Finished(t, u, selection, h, Failure(r.error))
    ensures r.Success? ==>
      && History(t, u, selection, h) && Shaped(h) && |h| == 4
      && h[0].vendorId == Some(cardId) && h[1].ek == Some(ek) && h[2].hmacKey.value.sensitive == sensitive
      && h[3].answer == Some(answer)
  {
    h := [];
    cardId, ek, sensitive, answer := None, EkResponse(None, KeyUnspecified), Sensitive(None), ChallengeResponse(None);
    if selection.None? {
      return Failure(InvalidRequest), h, cardId, ek, sensitive, answer;
    }
    var vendorId := deps.GetControlCardVendorID(selection);
    Extend(t, u, selection, h, GotVendorId(selection, vendorId));
    h := h + [GotVendorId(selection, vendorId)];
    if vendorId.None? {
      return Failure(Dependency), h, cardId, ek, sensitive, answer;
    }
    cardId := vendorId.value;
    var serial, supplier := SerialOf(cardId), ManufacturerOf(cardId);
    var fetched := deps.FetchEK(serial, supplier);
    Extend(t, u, selection, h, FetchedEk(serial, supplier, fetched));
    h := h + [FetchedEk(serial, supplier, fetched)];
    if fetched.None? {
      return Failure(Dependency), h, cardId, ek, sensitive, answer;
    }
    ek := fetched.value;
    var key := deps.GenerateRestrictedHMACKey();
    Extend(t, u, selection, h, GeneratedHmacKey(key));
    h := h + [GeneratedHmacKey(key)];
    if key.None? {
      return Failure(Dependency), h, cardId, ek, sensitive, answer;
    }
    sensitive := key.value.sensitive;
    var wrapped := u.wrapHMACKey(ek.publicKey, key.value);
    if wrapped.Failure? {
      return Failure(wrapped.error), h, cardId, ek, sensitive, answer;
    }
    var challenge := HmacChallenge(key.value.pub, wrapped.value.0, wrapped.value.1);
    var response := deps.Challenge(selection, challenge, ek.keyType);
    Extend(t, u, selection, h, Challenged(selection, challenge, ek.keyType, response));
    h := h + [Challenged(selection, challenge, ek.keyType, response)];
    if response.None? {
      return Failure(Dependency), h, cardId, ek, sensitive, answer;
    }
    answer := response.value;
    r := Success(());
  }

  /** Every run, whatever the device and the RoT database answer, is one NextStep allows. */
  method VerifyIdentityWithHMACChallenge(deps: Deps, t: GoTpm, u: Tpm20Utils, selection: Option<Selection>)
    returns (r: Result<Identity>, ghost h: seq<Event>)
    modifies deps
    ensures deps.trace == old(deps.trace) + h
    ensures Finished(t, u, selection, h, r)
  {
    ghost var t0 := deps.trace;
    var sent, h0, cardId, ek, sensitive, answer := SendChallenge(deps, t, u, selection);
    h := h0;
    if sent.Failure? {
      return Failure(sent.error), h;
    }
    var iak := VerifyChallenge(t, u, answer, sensitive);
    if iak.Failure? {
      return Failure(iak.error), h;
    }
    var csr := deps.GetIdevidCsr(selection, ek.keyType, TemplateEccNistP384);
    Extend(t, u, selection, h, GotCsr(selection, ek.keyType, TemplateEccNistP384, csr));
    h := h + [GotCsr(selection, ek.keyType, TemplateEccNistP384, csr)];
    assert deps.trace == t0 + h;
    if csr.None? {
      return Failure(Dependency), h;
    }
    var idevid := VerifyIdevidKeyAndCsr(t, u, iak.value, csr.value, TemplateEccNistP384);
    if idevid.Failure? {
      return Failure(idevid.error), h;
    }
    r := Success(Identity(cardId, iak.value, idevid.value));
  }

  /**
   What acceptance rests on: the endorsement key was fetched for the serial and supplier of the
   returned card id, the challenge wraps the generated HMAC key to exactly that key, the IAK is
   the one the HMAC response certifies, and the IDevID key is the one the CSR proves with it.
   */
  lemma AcceptanceRestsOn(t: GoTpm, u: Tpm20Utils, selection: Option<Selection>, h: seq<Event>, id: Identity)
    requires Finished(t, u, selection, h, Success(id))
    ensures |h| == 5 && h[0] == GotVendorId(selection, Some(id.cardId))
    ensures h[1].serial == SerialOf(id.cardId) && h[1].supplier == ManufacturerOf(id.cardId)
    ensures Identifies(id.cardId, h[1].serial, h[1].supplier)
    ensures h[3].selection == selection && h[4].selection == selection
    ensures h[3].keyType == h[1].ek.value.keyType && h[4].keyType == h[1].ek.value.keyType
    ensures var ek, key := h[1].ek.value, h[2].hmacKey.value;
            && u.wrapHMACKey(ek.publicKey, key) == Success((h[3].challenge.duplicate, h[3].challenge.inSymSeed))
            && h[3].challenge.hmacPub == key.pub
            && VerifyChallenge(t, u, h[3].answer.value, key.sensitive) == Success(id.iak)
    ensures h[4].csrResp.Some? && h[4].template == TemplateEccNistP384
    ensures VerifyIdevidKeyAndCsr(t, u, id.iak, h[4].csrResp.value, TemplateEccNistP384) == Success(id.idevid)
  {
    HistoryAt(t, u, selection, h, 0);
    HistoryAt(t, u, selection, h, 1);
    HistoryAt(t, u, selection, h, 3);
    HistoryAt(t, u, selection, h, 4);
    var p, q, r := h[..1], h[..3], h[..4];
    assert p[0] == h[0] && q[1] == h[1] && q[2] == h[2] && r[1] == h[1];
  }

  // ----- The serial in the CSR ---------------------------------------------------------------

  /**
   The serial in an accepted CSR is the one of the card id in the CSR response, so it is that of
   the returned card, whose endorsement key was fetched, if and only if the two ids agree on it.
   */
  lemma SerialOfReturnedCard(t: GoTpm, u: Tpm20Utils, selection: Option<Selection>, h: seq<Event>, id: Identity)
    requires Finished(t, u, selection, h, Success(id))
    ensures |h| == 5 && h[4].GotCsr? && h[4].csrResp.Some? && h[4].csrResp.value.csr.Some?
    ensures u.parseCsr(h[4].csrResp.value.csr.value.contents).Success?
    ensures var parsed := u.parseCsr(h[4].csrResp.value.csr.value.contents).value;
            var answered := SerialOf(h[4].csrResp.value.cardId);
            && AsString(parsed.prodSerial) == answered
            && (AsString(parsed.prodSerial) == SerialOf(id.cardId) <==> answered == SerialOf(id.cardId))
  {
    AcceptanceRestsOn(t, u, selection, h, id);
    CsrAcceptedExactly(t, u, id.iak, h[4].csrResp.value, TemplateEccNistP384, id.idevid);
    AsStringSpells(SerialOf(h[4].csrResp.value.cardId), u.parseCsr(h[4].csrResp.value.csr.value.contents).value.prodSerial);
  }

  /** An accepted run in which they differ: vendor id of serial "A", CSR response of serial "B". */
  lemma ForeignSerialAccepted() returns (t: GoTpm, u: Tpm20Utils, selection: Option<Selection>, h: seq<Event>, id: Identity)
    ensures Finished(t, u, selection, h, Success(id))
    ensures |h| == 5 && h[4].csrResp.Some? && SerialOf(h[4].csrResp.value.cardId) != SerialOf(id.cardId)
  {
    var attributes := ObjectAttributes(true, true, true, true, false, true, true, true);
    var pub := PublicArea(AlgECC, AlgSHA384, attributes, EccDetail(NistP384, AlgECDSA), []);
    var info := Attest(TPM_GENERATED, AttestCertify, [], Certify([1], [2]));
    var signature := Signature(AlgECDSA, EccSignature(AlgSHA384, [1], [1]));
    var contents := CsrContents(1, 1, [1], [1], [66], "", pub, pub, info, signature);
    t := GoTpm(
      _ => Success(pub), _ => Success(pub), _ => Success(info), _ => Success(info), _ => Success(signature),
      _ => [1], _ => Success([1]), _ => Success(""), _ => Success(""));
    u := Tpm20Utils(
      (_, _) => Success(([1], [1])), (_, _, _) => Success(()), _ => Success(pub), (_, _) => Success(()),
      _ => Success(contents), (_, _, _) => Success(()), (_, _) => Success(()), _ => Success("pem"));
    var fetchedFor := CardId(1, "A", "slot", "manufacturer", "part", "chassis");
    var answered := fetchedFor.(controlCardSerial := "B");
    selection := Some(BySerial("A"));
    var key := HmacKey(pub, Sensitive(Some([1])));
    var h0 := [GotVendorId(selection, Some(Some(fetchedFor)))];
    var h1 := h0 + [FetchedEk("A", "manufacturer", Some(EkResponse(None, KeyEk)))];
    var h2 := h1 + [GeneratedHmacKey(Some(key))];
    var answer := ChallengeResponse(Some(HmacResponse([1], [1], [1])));
    var h3 := h2 + [Challenged(selection, HmacChallenge(pub, [1], [1]), KeyEk, Some(answer))];
    var csr := CsrResponse(Some(answered), Some(CsrBody([1], [1])));
    h := h3 + [GotCsr(selection, KeyEk, TemplateEccNistP384, Some(csr))];
    id := Identity(Some(fetchedFor), pub, pub);
    Extend(t, u, selection, [], h0[0]);
    Extend(t, u, selection, h0, h1[1]);
    Extend(t, u, selection, h1, h2[2]);
    Extend(t, u, selection, h2, h3[3]);
    assert AsString([66]) == "B";
    Extend(t, u, selection, h3, h[4]);
  }
}
