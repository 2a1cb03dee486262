/**
 TCG_CSR_IDEVID_CONTENT (section 13.1 of TCG TPM 2.0 Keys for Device Identity and
 Attestation): a hash, thirteen sizes, thirteen payloads.
 */
module CsrIdevid {
  import opened Common
  import opened BigEndian
  import opened Wire
  import opened ByteStreams
  import opened Tpm20Types

  datatype CsrContents = CsrContents(
    structVer: uint32, hashAlgoId: uint32, hash: seq<byte>,
    prodModel: seq<byte>, prodSerial: seq<byte>, ekCert: string,
    iakPub: PublicArea, idevidPub: PublicArea,
    signCertifyInfo: Attest, signCertifyInfoSignature: Signature)

  // ----- The layout --------------------------------------------------------------------------

  // Payloads, in order; the sizes come in the same order.
  const PROD_MODEL := 0
  const PROD_SERIAL := 1
  const EK_CERT := 4
  const ATTEST_PUB := 5
  const SIGNING_PUB := 9
  const SIGN_CERTIFY_INFO := 10
  const SIGN_CERTIFY_INFO_SIGNATURE := 11
  const FIELDS := 13

  /** The payloads whose size must not be zero. */
  predicate Mandatory(i: nat) {
    i in {PROD_MODEL, PROD_SERIAL, EK_CERT, ATTEST_PUB, SIGNING_PUB, SIGN_CERTIFY_INFO, SIGN_CERTIFY_INFO_SIGNATURE}
  }

  function PrefixSum(sizes: seq<uint32>, i: nat): nat
    requires i <= |sizes|
  {
    if i == 0 then 0 else PrefixSum(sizes, i - 1) + sizes[i - 1] as nat
  }

  /** The thirteen sizes that start at offset o. */
  function SizesAt(b: seq<byte>, o: nat): (s: seq<uint32>)
    requires o + 4 * FIELDS <= |b|
    ensures |s| == FIELDS
  {
    seq(FIELDS, i requires 0 <= i < FIELDS => U32At(b, o + 4 * i))
  }

  predicate MandatoryPresent(sizes: seq<uint32>)
    requires |sizes| == FIELDS
  {
    forall i :: 0 <= i < FIELDS && Mandatory(i) ==> sizes[i] != 0
  }

  predicate HeaderFits(b: seq<byte>) {
    |b| >= 12 && |b| >= 64 + U32At(b, 8) as int
  }

  function HashSize(b: seq<byte>): nat
    requires HeaderFits(b)
  {
    U32At(b, 8) as nat
  }

  function CsrSizes(b: seq<byte>): seq<uint32>
    requires HeaderFits(b)
  {
    SizesAt(b, 12 + HashSize(b))
  }

  /** Total length: 64 bytes, the hash, and the sum of the thirteen payload sizes. */
  predicate CsrLayout(b: seq<byte>) {
    && HeaderFits(b)
    && |b| == 64 + HashSize(b) + PrefixSum(CsrSizes(b), FIELDS)
    && U32At(b, 0) != 0 && U32At(b, 4) != 0 && U32At(b, 8) != 0
    && MandatoryPresent(CsrSizes(b))
  }

  lemma {:induction false} PrefixSumMonotone(sizes: seq<uint32>, i: nat, j: nat)
    requires i <= j <= |sizes|
    ensures PrefixSum(sizes, i) <= PrefixSum(sizes, j)
  {
    if i < j {
      PrefixSumMonotone(sizes, i, j - 1);
    }
  }

  /** The i-th of the payloads that start at offset base. */
  function FieldAt(b: seq<byte>, base: nat, sizes: seq<uint32>, i: nat): seq<byte>
    requires i < |sizes| && base + PrefixSum(sizes, |sizes|) <= |b|
  {
    PrefixSumMonotone(sizes, i, i + 1);
    PrefixSumMonotone(sizes, i + 1, |sizes|);
    b[base + PrefixSum(sizes, i)..base + PrefixSum(sizes, i + 1)]
  }

  /** The i-th payload: the slice at the prefix sum of the earlier sizes. */
  function CsrField(b: seq<byte>, i: nat): seq<byte>
    requires CsrLayout(b) && i < FIELDS
  {
    FieldAt(b, 64 + HashSize(b), CsrSizes(b), i)
  }

  /** The EK certificate is DER X.509 or, failing that, a TPMT_PUBLIC. */
  function EkCertPem(t: GoTpm, b: seq<byte>): Result<string> {
    var pem := if b == [] then Success("") else t.certificateDerToPem(b);
    if pem.Success? then pem
    else
      var pub :- t.unmarshalPublic(b);
      t.publicToPem(pub)
  }

  predicate FirstDecode(t: GoTpm, b: seq<byte>, base: nat, sizes: seq<uint32>)
    requires |sizes| == FIELDS && base + PrefixSum(sizes, FIELDS) <= |b|
  {
    && EkCertPem(t, FieldAt(b, base, sizes, EK_CERT)).Success?
    && t.unmarshalPublic(FieldAt(b, base, sizes, ATTEST_PUB)).Success?
  }

  predicate LastDecode(t: GoTpm, b: seq<byte>, base: nat, sizes: seq<uint32>)
    requires |sizes| == FIELDS && base + PrefixSum(sizes, FIELDS) <= |b|
  {
    && t.unmarshalPublic(FieldAt(b, base, sizes, SIGNING_PUB)).Success?
    && t.unmarshalAttest(FieldAt(b, base, sizes, SIGN_CERTIFY_INFO)).Success?
    && t.unmarshalSignature(FieldAt(b, base, sizes, SIGN_CERTIFY_INFO_SIGNATURE)).Success?
  }

  predicate PayloadsDecode(t: GoTpm, b: seq<byte>, base: nat, sizes: seq<uint32>)
    requires |sizes| == FIELDS && base + PrefixSum(sizes, FIELDS) <= |b|
  {
    FirstDecode(t, b, base, sizes) && LastDecode(t, b, base, sizes)
  }

  /** What the payloads decode to. */
  function DecodedPayloads(
    t: GoTpm, b: seq<byte>, base: nat, sizes: seq<uint32>, structVer: uint32, hashAlgoId: uint32, hash: seq<byte>): CsrContents
    requires |sizes| == FIELDS && base + PrefixSum(sizes, FIELDS) <= |b| && PayloadsDecode(t, b, base, sizes)
  {
    CsrContents(
      structVer, hashAlgoId, hash,
      FieldAt(b, base, sizes, PROD_MODEL), FieldAt(b, base, sizes, PROD_SERIAL),
      EkCertPem(t, FieldAt(b, base, sizes, EK_CERT)).value,
      t.unmarshalPublic(FieldAt(b, base, sizes, ATTEST_PUB)).value,
      t.unmarshalPublic(FieldAt(b, base, sizes, SIGNING_PUB)).value,
      t.unmarshalAttest(FieldAt(b, base, sizes, SIGN_CERTIFY_INFO)).value,
      t.unmarshalSignature(FieldAt(b, base, sizes, SIGN_CERTIFY_INFO_SIGNATURE)).value)
  }

  predicate InnerDecodes(t: GoTpm, b: seq<byte>)
    requires CsrLayout(b)
  {
    PayloadsDecode(t, b, 64 + HashSize(b), CsrSizes(b))
  }

  function DecodedCsr(t: GoTpm, b: seq<byte>): CsrContents
    requires CsrLayout(b) && InnerDecodes(t, b)
  {
    DecodedPayloads(t, b, 64 + HashSize(b), CsrSizes(b), U32At(b, 0), U32At(b, 4), b[12..12 + HashSize(b)])
  }

  /** What the parser returns: the layout and the inner decoders decide. */
  function ParsedCsr(t: GoTpm, b: seq<byte>): Result<CsrContents> {
    if CsrLayout(b) && InnerDecodes(t, b) then Success(DecodedCsr(t, b)) else Failure(MalformedInner)
  }

  // ----- The parser --------------------------------------------------------------------------

  ghost predicate SizesAcceptable(b: seq<byte>, o: nat) {
    o + 4 * FIELDS <= |b| && MandatoryPresent(SizesAt(b, o))
  }

  /** The sizes read so far, starting at offset o. */
  ghost predicate SizesRead(b: seq<byte>, o: nat, sizes: seq<uint32>) {
    && |sizes| <= FIELDS && o + 4 * |sizes| <= |b|
    && forall i :: 0 <= i < |sizes| ==> sizes[i] == U32At(b, o + 4 * i) && (Mandatory(i) ==> sizes[i] != 0)
  }

  /** Reads the next size; the mandatory ones are read with the non-zero check. */
  method ReadSize(reader: Reader, ghost o: nat, sizes: seq<uint32>) returns (r: Result<seq<uint32>>)
    requires reader.Valid() && |sizes| < FIELDS
    requires SizesRead(reader.data, o, sizes) && reader.pos == o + 4 * |sizes|
    modifies reader`pos
    ensures reader.Valid()
    ensures r.Failure? ==> !SizesAcceptable(reader.data, o)
    ensures r.Success? ==> SizesRead(reader.data, o, r.value) && |r.value| == |sizes| + 1
    ensures r.Success? ==> reader.pos == o + 4 * |r.value|
  {
    var i := |sizes|;
    assert SizesAcceptable(reader.data, o) ==> SizesAt(reader.data, o)[i] == U32At(reader.data, o + 4 * i);
    if Mandatory(i) {
      var size :- ReadNonZeroUint32(reader);
      r := Success(sizes + [size]);
    } else {
      var size :- ReadUint32(reader);
      r := Success(sizes + [size]);
    }
  }

  lemma AllSizesRead(b: seq<byte>, o: nat, sizes: seq<uint32>)
    requires SizesRead(b, o, sizes) && |sizes| == FIELDS
    ensures SizesAcceptable(b, o) && sizes == SizesAt(b, o)
  {
  }

  /** The sizes up to attestPubSize. */
  method ReadFirstSizes(reader: Reader, ghost o: nat) returns (r: Result<seq<uint32>>)
    requires reader.Valid() && reader.pos == o
    modifies reader`pos
    ensures reader.Valid()
    ensures r.Failure? ==> !SizesAcceptable(reader.data, o)
    ensures r.Success? ==> SizesRead(reader.data, o, r.value) && |r.value| == 6 && reader.pos == o + 4 * 6
  {
    var sizes :- ReadSize(reader, o, []); // prodModelSize
    sizes :- ReadSize(reader, o, sizes);  // prodSerialSize
    sizes :- ReadSize(reader, o, sizes);  // prodCaDataSize
    sizes :- ReadSize(reader, o, sizes);  // bootEventLogSize
    sizes :- ReadSize(reader, o, sizes);  // ekCertSize
    r := ReadSize(reader, o, sizes);      // attestPubSize
  }

  method ReadSizes(reader: Reader) returns (r: Result<seq<uint32>>)
    requires reader.Valid()
    modifies reader`pos
    ensures reader.Valid()
    ensures r.Success? <==> SizesAcceptable(reader.data, old(reader.pos))
    ensures r.Success? ==>
      reader.pos == old(reader.pos) + 4 * FIELDS && r.value == SizesAt(reader.data, old(reader.pos))
  {
    ghost var o := reader.pos;
    var sizes :- ReadFirstSizes(reader, o);
    sizes :- ReadSize(reader, o, sizes);  // atCreateTktSize
    sizes :- ReadSize(reader, o, sizes);  // atCertifyInfoSize
    sizes :- ReadSize(reader, o, sizes);  // atCertifyInfoSignatureSize
    sizes :- ReadSize(reader, o, sizes);  // signingPubSize
    sizes :- ReadSize(reader, o, sizes);  // signCertifyInfoSize
    sizes :- ReadSize(reader, o, sizes);  // signCertifyInfoSignatureSize
    sizes :- ReadSize(reader, o, sizes);  // padSize
    AllSizesRead(reader.data, o, sizes);
    r := Success(sizes);
  }

  /** The i-th payload; a short one means the input is shorter than its sizes say. */
  method ReadField(reader: Reader, ghost base: nat, sizes: seq<uint32>, i: nat) returns (r: Result<seq<byte>>)
    requires reader.Valid() && i < |sizes| && reader.pos == base + PrefixSum(sizes, i)
    modifies reader`pos
    ensures reader.Valid()
    ensures r.Failure? ==> |reader.data| < base + PrefixSum(sizes, |sizes|)
    ensures r.Success? ==> reader.pos == base + PrefixSum(sizes, i + 1)
    ensures r.Success? && base + PrefixSum(sizes, |sizes|) <= |reader.data| ==>
      r.value == FieldAt(reader.data, base, sizes, i)
  {
    PrefixSumMonotone(sizes, i + 1, |sizes|);
    r := ReadBytes(reader, sizes[i]);
  }

  /** A payload that is a TPMT_PUBLIC. */
  method ReadPublic(t: GoTpm, reader: Reader, ghost base: nat, sizes: seq<uint32>, i: nat) returns (r: Result<PublicArea>)
    requires reader.Valid() && i < |sizes| && reader.pos == base + PrefixSum(sizes, i)
    modifies reader`pos
    ensures reader.Valid()
    ensures r.Success? ==> reader.pos == base + PrefixSum(sizes, i + 1)
    ensures r.Failure? && base + PrefixSum(sizes, |sizes|) <= |reader.data| ==>
      t.unmarshalPublic(FieldAt(reader.data, base, sizes, i)).Failure?
    ensures r.Success? && base + PrefixSum(sizes, |sizes|) <= |reader.data| ==>
      r == t.unmarshalPublic(FieldAt(reader.data, base, sizes, i))
  {
    var b :- ReadField(reader, base, sizes, i);
    r := t.unmarshalPublic(b);
  }

  /** The payloads nothing is kept of. */
  method SkipField(reader: Reader, ghost base: nat, sizes: seq<uint32>, i: nat) returns (r: Result<()>)
    requires reader.Valid() && i < |sizes| && reader.pos == base + PrefixSum(sizes, i)
    modifies reader`pos
    ensures reader.Valid()
    ensures r.Failure? ==> |reader.data| < base + PrefixSum(sizes, |sizes|)
    ensures r.Success? ==> reader.pos == base + PrefixSum(sizes, i + 1)
  {
    var _ :- ReadField(reader, base, sizes, i);
    r := Success(());
  }

  /** What is kept of payloads 0 to 5. */
  datatype FirstPayloads = FirstPayloads(prodModel: seq<byte>, prodSerial: seq<byte>, ekCert: string, attestPub: PublicArea)

  /** What is kept of payloads 6 to 12. */
  datatype LastPayloads = LastPayloads(signingPub: PublicArea, signCertifyInfo: Attest, signature: Signature)

  /** Payloads up to attestPub. */
  method ParseFirstPayloads(t: GoTpm, reader: Reader, ghost base: nat, sizes: seq<uint32>) returns (r: Result<FirstPayloads>)
    requires reader.Valid() && |sizes| == FIELDS && reader.pos == base
    modifies reader`pos
    ensures reader.Valid()
    ensures r.Success? ==> reader.pos == base + PrefixSum(sizes, 6)
    ensures base + PrefixSum(sizes, FIELDS) <= |reader.data| ==> (r.Success? <==> FirstDecode(t, reader.data, base, sizes))
    ensures base + PrefixSum(sizes, FIELDS) <= |reader.data| && r.Success? ==>
      r.value == FirstPayloads(
        FieldAt(reader.data, base, sizes, PROD_MODEL), FieldAt(reader.data, base, sizes, PROD_SERIAL),
        EkCertPem(t, FieldAt(reader.data, base, sizes, EK_CERT)).value,
        t.unmarshalPublic(FieldAt(reader.data, base, sizes, ATTEST_PUB)).value)
  {
    var prodModel :- ReadField(reader, base, sizes, 0);
    var prodSerial :- ReadField(reader, base, sizes, 1);
    var _ :- SkipField(reader, base, sizes, 2);  // prodCaData
    var _ :- SkipField(reader, base, sizes, 3);  // bootEventLog
    var ekCertBytes :- ReadField(reader, base, sizes, 4);
    var ekCert :- EkCertPem(t, ekCertBytes);
    var attestPub :- ReadPublic(t, reader, base, sizes, 5);
    r := Success(FirstPayloads(prodModel, prodSerial, ekCert, attestPub));
  }

  /** The payloads after attestPub, and the end of the input. */
  method ParseLastPayloads(t: GoTpm, reader: Reader, ghost base: nat, sizes: seq<uint32>) returns (r: Result<LastPayloads>)
    requires reader.Valid() && |sizes| == FIELDS && reader.pos == base + PrefixSum(sizes, 6)
    modifies reader`pos
    ensures r.Success? <==> |reader.data| == base + PrefixSum(sizes, FIELDS) && LastDecode(t, reader.data, base, sizes)
    ensures r.Success? ==>
      r.value == LastPayloads(
        t.unmarshalPublic(FieldAt(reader.data, base, sizes, SIGNING_PUB)).value,
        t.unmarshalAttest(FieldAt(reader.data, base, sizes, SIGN_CERTIFY_INFO)).value,
        t.unmarshalSignature(FieldAt(reader.data, base, sizes, SIGN_CERTIFY_INFO_SIGNATURE)).value)
  {
    var _ :- SkipField(reader, base, sizes, 6);  // atCreateTkt
    var _ :- SkipField(reader, base, sizes, 7);  // atCertifyInfo
    var _ :- SkipField(reader, base, sizes, 8);  // atCertifyInfoSignature
    var signingPub :- ReadPublic(t, reader, base, sizes, 9);
    var signCertifyInfoBytes :- ReadField(reader, base, sizes, 10);
    var signCertifyInfo :- t.unmarshalAttest(signCertifyInfoBytes);
    var signatureBytes :- ReadField(reader, base, sizes, 11);
    var signature :- t.unmarshalSignature(signatureBytes);
    var _ :- SkipField(reader, base, sizes, 12);  // pad
    var left := reader.Len();
    if left > 0 {
      return Failure(Leftover);
    }
    r := Success(LastPayloads(signingPub, signCertifyInfo, signature));
  }

  /** The thirteen payloads and the end of the input. */
  method ParsePayloads(
    t: GoTpm, reader: Reader, structVer: uint32, hashAlgoId: uint32, hash: seq<byte>, sizes: seq<uint32>)
    returns (r: Result<CsrContents>)
    requires reader.Valid() && |sizes| == FIELDS
    modifies reader`pos
    ensures r.Success? <==>
      && |reader.data| == old(reader.pos) + PrefixSum(sizes, FIELDS)
      && PayloadsDecode(t, reader.data, old(reader.pos), sizes)
    ensures r.Success? ==>
      r.value == DecodedPayloads(t, reader.data, old(reader.pos), sizes, structVer, hashAlgoId, hash)
  {
    ghost var base := reader.pos;
    var first :- ParseFirstPayloads(t, reader, base, sizes);
    var last :- ParseLastPayloads(t, reader, base, sizes);
    r := Success(CsrContents(
      structVer, hashAlgoId, hash, first.prodModel, first.prodSerial, first.ekCert, first.attestPub,
      last.signingPub, last.signCertifyInfo, last.signature));
  }

  /** Accepts b exactly when the layout holds and the inner decoders succeed. */
  method ParseTCGCSRIDevIDContent(t: GoTpm, csrBytes: seq<byte>) returns (r: Result<CsrContents>)
    ensures r.Success? <==> CsrLayout(csrBytes) && InnerDecodes(t, csrBytes)
    ensures r.Success? ==> r.value == DecodedCsr(t, csrBytes)
  {
    var reader := new Reader(csrBytes);
    var structVer :- ReadNonZeroUint32(reader);
    var hashAlgoId :- ReadNonZeroUint32(reader);
    var hashSize :- ReadNonZeroUint32(reader);
    var hash :- ReadBytes(reader, hashSize);
    var sizes :- ReadSizes(reader);
    r := ParsePayloads(t, reader, structVer, hashAlgoId, hash, sizes);
  }
}
