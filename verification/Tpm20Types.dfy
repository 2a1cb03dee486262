/** The TPM 2.0 values the service looks at, and go-tpm as arbitrary partial functions. */
module Tpm20Types {
  import opened Common
  import opened BigEndian

  datatype Algorithm =
    | AlgRSA | AlgECC | AlgKeyedHash | AlgHMAC | AlgSHA256 | AlgSHA384
    | AlgRSASSA | AlgRSAPSS | AlgECDSA | OtherAlgorithm(id: uint16)

  datatype Curve = NistP384 | OtherCurve(id: uint16)

  datatype ObjectAttributes = ObjectAttributes(
    fixedTPM: bool, restricted: bool, sensitiveDataOrigin: bool, signEncrypt: bool,
    decrypt: bool, fixedParent: bool, userWithAuth: bool, adminWithPolicy: bool)

  datatype PublicParameters = RsaDetail(scheme: Algorithm) | EccDetail(curve: Curve, eccScheme: Algorithm) | OtherDetail

  /** TPMT_PUBLIC. */
  datatype PublicArea = PublicArea(
    alg: Algorithm, nameAlg: Algorithm, attributes: ObjectAttributes,
    parameters: PublicParameters, unique: seq<byte>)

  /** TPMU_ATTEST. */
  datatype Attested = Certify(name: seq<byte>, qualifiedName: seq<byte>) | OtherAttested

  datatype AttestType = AttestCertify | OtherAttest(id: uint16)

  /** TPMS_ATTEST. */
  datatype Attest = Attest(magic: uint32, kind: AttestType, extraData: seq<byte>, attested: Attested)

  /** TPMU_SIGNATURE: what a signature carries depends on its algorithm. */
  datatype SignatureBody = RsaSignature(hash: Algorithm, bytes: seq<byte>) | EccSignature(eccHash: Algorithm, r: seq<byte>, s: seq<byte>)
    | HmacSignature(hmacHash: Algorithm, digest: seq<byte>) | OtherBody

  /** TPMT_SIGNATURE. */
  datatype Signature = Signature(sigAlg: Algorithm, body: SignatureBody)

  /** TPM_GENERATED_VALUE (section 6.2 of TPM 2.0 Library Part 2). */
  const TPM_GENERATED: uint32 := 0xFF544347

  /** go-tpm's marshalling, naming and key conversion. */
  datatype GoTpm = GoTpm(
    unmarshalPublic: seq<byte> -> Result<PublicArea>,
    unmarshalPublic2B: seq<byte> -> Result<PublicArea>,
    unmarshalAttest: seq<byte> -> Result<Attest>,
    unmarshalAttest2B: seq<byte> -> Result<Attest>,
    unmarshalSignature: seq<byte> -> Result<Signature>,
    marshalAttest: Attest -> seq<byte>,
    objectName: PublicArea -> Result<seq<byte>>,
    certificateDerToPem: seq<byte> -> Result<string>,
    publicToPem: PublicArea -> Result<string>)
}
