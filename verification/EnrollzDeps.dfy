/**
 The infrastructure the enrollment workflows call: device, switch-owner CA, certificate
 verifier and RoT database. Every call may answer anything or fail; the trace records each
 call with its answer.
 */
module EnrollzDeps {
  import opened Common
  import opened BigEndian
  import opened Cards
  import opened RsaKeys
  import opened Tpm20Types

  datatype GetIakCertResponse = GetIakCertResponse(
    cardId: Option<CardId>, iakCert: string, idevidCert: string, atomicRotation: bool)

  datatype CertUpdate = CertUpdate(selection: Option<Selection>, oiakCert: string, oidevidCert: string)

  /** The request's own card fields are the per-card form; the list is the atomic form. */
  datatype RotateRequest = RotateRequest(
    sslProfileId: string, selection: Option<Selection>, oiakCert: string, oidevidCert: string, updates: seq<CertUpdate>)

  datatype KeyType = KeyUnspecified | KeyEk | KeyPpk
  datatype KeyTemplate = TemplateUnspecified | TemplateEccNistP384

  /** FetchEKResp: the key may be absent. */
  datatype EkResponse = EkResponse(publicKey: Option<RsaPublicKey>, keyType: KeyType)

  /** A restricted HMAC key: its public area and TPMT_SENSITIVE, whose key bits may be absent. */
  datatype Sensitive = Sensitive(bits: Option<seq<byte>>)
  datatype HmacKey = HmacKey(pub: PublicArea, sensitive: Sensitive)
  datatype HmacChallenge = HmacChallenge(hmacPub: PublicArea, duplicate: seq<byte>, inSymSeed: seq<byte>)

  datatype HmacResponse = HmacResponse(iakPub: seq<byte>, iakCertifyInfo: seq<byte>, iakCertifyInfoSignature: seq<byte>)
  datatype ChallengeResponse = ChallengeResponse(challengeResp: Option<HmacResponse>)
  datatype CsrResponse = CsrResponse(cardId: Option<CardId>, csr: Option<CsrBody>)
  datatype CsrBody = CsrBody(contents: seq<byte>, signature: seq<byte>)

  datatype Event =
    | GotIakCert(selection: Option<Selection>, iakResp: Option<GetIakCertResponse>)
    | VerifiedIakAndIDevID(cardId: Option<CardId>, iakCert: string, idevidCert: string, pems: Option<(string, string)>)
    | VerifiedTpmCert(cardId: Option<CardId>, cert: string, pem: Option<string>)
    | IssuedIDevID(cardId: Option<CardId>, idevidPem: string, issued: Option<string>)
    | IssuedIak(cardId: Option<CardId>, iakPem: string, issued: Option<string>)
    | Rotated(request: RotateRequest, ok: bool)
    | GotVendorId(selection: Option<Selection>, vendorId: Option<Option<CardId>>)
    | FetchedEk(serial: string, supplier: string, ek: Option<EkResponse>)
    | GeneratedHmacKey(hmacKey: Option<HmacKey>)
    | Challenged(selection: Option<Selection>, challenge: HmacChallenge, keyType: KeyType, answer: Option<ChallengeResponse>)
    | GotCsr(selection: Option<Selection>, keyType: KeyType, template: KeyTemplate, csrResp: Option<CsrResponse>)

  class Deps {
    ghost var trace: seq<Event>

    constructor ()
      ensures trace == []
    {
      trace := [];
    }

    method GetIakCert(selection: Option<Selection>) returns (r: Option<GetIakCertResponse>)
      modifies this
      ensures trace == old(trace) + [GotIakCert(selection, r)]
    {
      r := *;
      trace := trace + [GotIakCert(selection, r)];
    }

    method VerifyIakAndIDevIDCerts(cardId: Option<CardId>, iakCert: string, idevidCert: string)
      returns (r: Option<(string, string)>)
      modifies this
      ensures trace == old(trace) + [VerifiedIakAndIDevID(cardId, iakCert, idevidCert, r)]
    {
      r := *;
      trace := trace + [VerifiedIakAndIDevID(cardId, iakCert, idevidCert, r)];
    }

    method VerifyTpmCert(cardId: Option<CardId>, cert: string) returns (r: Option<string>)
      modifies this
      ensures trace == old(trace) + [VerifiedTpmCert(cardId, cert, r)]
    {
      r := *;
      trace := trace + [VerifiedTpmCert(cardId, cert, r)];
    }

    method IssueOwnerIDevIDCert(cardId: Option<CardId>, idevidPem: string) returns (r: Option<string>)
      modifies this
      ensures trace == old(trace) + [IssuedIDevID(cardId, idevidPem, r)]
    {
      r := *;
      trace := trace + [IssuedIDevID(cardId, idevidPem, r)];
    }

    method IssueOwnerIakCert(cardId: Option<CardId>, iakPem: string) returns (r: Option<string>)
      modifies this
      ensures trace == old(trace) + [IssuedIak(cardId, iakPem, r)]
    {
      r := *;
      trace := trace + [IssuedIak(cardId, iakPem, r)];
    }

    method RotateOIakCert(request: RotateRequest) returns (ok: bool)
      modifies this
      ensures trace == old(trace) + [Rotated(request, ok)]
    {
      ok := *;
      trace := trace + [Rotated(request, ok)];
    }

    method GetControlCardVendorID(selection: Option<Selection>) returns (r: Option<Option<CardId>>)
      modifies this
      ensures trace == old(trace) + [GotVendorId(selection, r)]
    {
      r := *;
      trace := trace + [GotVendorId(selection, r)];
    }

    method FetchEK(serial: string, supplier: string) returns (r: Option<EkResponse>)
      modifies this
      ensures trace == old(trace) + [FetchedEk(serial, supplier, r)]
    {
      r := *;
      trace := trace + [FetchedEk(serial, supplier, r)];
    }

    method GenerateRestrictedHMACKey() returns (r: Option<HmacKey>)
      modifies this
      ensures trace == old(trace) + [GeneratedHmacKey(r)]
    {
      r := *;
      trace := trace + [GeneratedHmacKey(r)];
    }

    method Challenge(selection: Option<Selection>, challenge: HmacChallenge, keyType: KeyType) returns (r: Option<ChallengeResponse>)
      modifies this
      ensures trace == old(trace) + [Challenged(selection, challenge, keyType, r)]
    {
      r := *;
      trace := trace + [Challenged(selection, challenge, keyType, r)];
    }

    method GetIdevidCsr(selection: Option<Selection>, keyType: KeyType, template: KeyTemplate) returns (r: Option<CsrResponse>)
      modifies this
      ensures trace == old(trace) + [GotCsr(selection, keyType, template, r)]
    {
      r := *;
      trace := trace + [GotCsr(selection, keyType, template, r)];
    }
  }
}
