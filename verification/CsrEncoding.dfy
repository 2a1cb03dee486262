/** The reference encoding of TCG_CSR_IDEVID_CONTENT: the parser's layout is exactly its image. */
module CsrEncoding {
  import opened Common
  import opened BigEndian
  import opened Wire
  import opened CsrIdevid
  import opened Tpm20Types

  /** The lengths of the payloads, as the sizes to write. */
  function SizesOf(payloads: seq<seq<byte>>): (s: seq<uint32>)
    requires forall i :: 0 <= i < |payloads| ==> |payloads[i]| <= MAX_UINT32
    ensures |s| == |payloads|
  {
    seq(|payloads|, i requires 0 <= i < |payloads| => |payloads[i]| as uint32)
  }

  /** The first n sizes. */
  function SizeBytes(sizes: seq<uint32>, n: nat): (b: seq<byte>)
    requires n <= |sizes|
    ensures |b| == 4 * n
  {
    if n == 0 then [] else SizeBytes(sizes, n - 1) + U32(sizes[n - 1])
  }

  /** The first n payloads. */
  function Flatten(payloads: seq<seq<byte>>, n: nat): seq<byte>
    requires n <= |payloads|
  {
    if n == 0 then [] else Flatten(payloads, n - 1) + payloads[n - 1]
  }

  function CsrHeader(structVer: uint32, hashAlgoId: uint32, hash: seq<byte>): seq<byte>
    requires |hash| <= MAX_UINT32
  {
    U32(structVer) + U32(hashAlgoId) + U32(|hash| as uint32) + hash
  }

  /** The hash and the thirteen payloads have lengths the sizes can carry. */
  predicate Fits(hash: seq<byte>, payloads: seq<seq<byte>>) {
    && |hash| <= 0xFFFF_FFFF && |payloads| == 13
    && forall i :: 0 <= i < 13 ==> |payloads[i]| <= 0xFFFF_FFFF
  }

  /** prodModel, prodSerial, ekCert, attestPub, signingPub, signCertifyInfo and its signature are there. */
  predicate MandatoryThere(payloads: seq<seq<byte>>)
    requires |payloads| == 13
  {
    && payloads[0] != [] && payloads[1] != [] && payloads[4] != [] && payloads[5] != []
    && payloads[9] != [] && payloads[10] != [] && payloads[11] != []
  }

  predicate Encodable(structVer: uint32, hashAlgoId: uint32, hash: seq<byte>, payloads: seq<seq<byte>>) {
    Fits(hash, payloads) && structVer != 0 && hashAlgoId != 0 && hash != [] && MandatoryThere(payloads)
  }

  function CsrBytes(structVer: uint32, hashAlgoId: uint32, hash: seq<byte>, payloads: seq<seq<byte>>): seq<byte>
    requires Fits(hash, payloads)
  {
    CsrHeader(structVer, hashAlgoId, hash) + SizeBytes(SizesOf(payloads), FIELDS) + Flatten(payloads, FIELDS)
  }

  lemma U32AtOf(b: seq<byte>, o: nat, n: uint32)
    requires o + 4 <= |b| && b[o..o + 4] == U32(n)
    ensures U32At(b, o) == n
  {
    Pow256Widths();
    ValueOfFixed(n as nat, 4);
  }

  lemma U32OfAt(b: seq<byte>, o: nat)
    requires o + 4 <= |b|
    ensures U32(U32At(b, o)) == b[o..o + 4]
  {
    FixedOfValue(b[o..o + 4]);
  }

  lemma {:induction false} SizeBytesAt(sizes: seq<uint32>, n: nat, i: nat)
    requires i < n <= |sizes|
    ensures SizeBytes(sizes, n)[4 * i..4 * i + 4] == U32(sizes[i])
  {
    if i < n - 1 {
      SizeBytesAt(sizes, n - 1, i);
    }
  }

  lemma {:induction false} FlattenLength(payloads: seq<seq<byte>>, n: nat)
    requires n <= |payloads| && forall i :: 0 <= i < |payloads| ==> |payloads[i]| <= MAX_UINT32
    ensures |Flatten(payloads, n)| == PrefixSum(SizesOf(payloads), n)
  {
    if n > 0 {
      FlattenLength(payloads, n - 1);
    }
  }

  lemma SliceOfPrefix(m: seq<byte>, z: seq<byte>, i: nat, j: nat)
    requires i <= j <= |m|
    ensures (m + z)[i..j] == m[i..j]
  {
  }

  lemma {:induction false} FlattenAt(payloads: seq<seq<byte>>, n: nat, i: nat)
    requires i < n <= |payloads| && forall i :: 0 <= i < |payloads| ==> |payloads[i]| <= MAX_UINT32
    ensures var s := SizesOf(payloads);
            && 0 <= PrefixSum(s, i) <= PrefixSum(s, i + 1) <= |Flatten(payloads, n)|
            && Flatten(payloads, n)[PrefixSum(s, i)..PrefixSum(s, i + 1)] == payloads[i]
  {
    FlattenLength(payloads, n);
    FlattenLength(payloads, i);
    PrefixSumMonotone(SizesOf(payloads), i, i + 1);
    PrefixSumMonotone(SizesOf(payloads), i + 1, n);
    if i < n - 1 {
      FlattenAt(payloads, n - 1, i);
      FlattenLength(payloads, n - 1);
      PrefixSumMonotone(SizesOf(payloads), i + 1, n - 1);
      SliceOfPrefix(Flatten(payloads, n - 1), payloads[n - 1], PrefixSum(SizesOf(payloads), i), PrefixSum(SizesOf(payloads), i + 1));
    } else {
      assert Flatten(payloads, n)[|Flatten(payloads, i)|..] == payloads[i];
    }
  }

  lemma SliceOfMiddle(a: seq<byte>, m: seq<byte>, z: seq<byte>, i: nat, j: nat)
    requires i <= j <= |m|
    ensures (a + m + z)[|a| + i..|a| + j] == m[i..j]
  {
  }

  /** The four header fields are where the parser looks for them, whatever follows. */
  lemma HeaderAt(structVer: uint32, hashAlgoId: uint32, hash: seq<byte>, tail: seq<byte>)
    requires |hash| <= MAX_UINT32
    ensures var b := CsrHeader(structVer, hashAlgoId, hash) + tail;
            && |b| == 12 + |hash| + |tail|
            && U32At(b, 0) == structVer && U32At(b, 4) == hashAlgoId && U32At(b, 8) as int == |hash|
            && b[12..12 + |hash|] == hash
  {
    var header := CsrHeader(structVer, hashAlgoId, hash);
    var b := header + tail;
    assert header[0..4] == U32(structVer) && header[4..8] == U32(hashAlgoId);
    assert header[8..12] == U32(|hash| as uint32) && header[12..] == hash;
    assert b[0..4] == header[0..4] && b[4..8] == header[4..8] && b[8..12] == header[8..12];
    U32AtOf(b, 0, structVer);
    U32AtOf(b, 4, hashAlgoId);
    U32AtOf(b, 8, |hash| as uint32);
  }

  /** So are the sizes behind a header of any length. */
  lemma SizesBehind(header: seq<byte>, sizes: seq<uint32>, body: seq<byte>)
    requires |sizes| == FIELDS
    ensures |header + SizeBytes(sizes, FIELDS) + body| >= |header| + 4 * FIELDS
    ensures SizesAt(header + SizeBytes(sizes, FIELDS) + body, |header|) == sizes
  {
    var b := header + SizeBytes(sizes, FIELDS) + body;
    forall i | 0 <= i < FIELDS ensures U32At(b, |header| + 4 * i) == sizes[i] {
      SizeBytesAt(sizes, FIELDS, i);
      SliceOfMiddle(header, SizeBytes(sizes, FIELDS), body, 4 * i, 4 * i + 4);
      U32AtOf(b, |header| + 4 * i, sizes[i]);
    }
  }

  /** The header fields and sizes of an encoding are where the parser looks for them. */
  lemma EncodingHeader(structVer: uint32, hashAlgoId: uint32, hash: seq<byte>, payloads: seq<seq<byte>>)
    requires Fits(hash, payloads)
    ensures var b := CsrBytes(structVer, hashAlgoId, hash, payloads);
            && HeaderFits(b) && HashSize(b) == |hash|
            && U32At(b, 0) == structVer && U32At(b, 4) == hashAlgoId && b[12..12 + |hash|] == hash
            && CsrSizes(b) == SizesOf(payloads)
  {
    var sizes, header := SizesOf(payloads), CsrHeader(structVer, hashAlgoId, hash);
    var body := Flatten(payloads, FIELDS);
    Reassociate(header, SizeBytes(sizes, FIELDS), body);
    HeaderAt(structVer, hashAlgoId, hash, SizeBytes(sizes, FIELDS) + body);
    SizesBehind(header, sizes, body);
  }

  /** The sizes demanded by the parser are those of the mandatory payloads. */
  lemma MandatorySizes(payloads: seq<seq<byte>>)
    requires Fits([], payloads)
    ensures MandatoryPresent(SizesOf(payloads)) <==> MandatoryThere(payloads)
  {
    var sizes := SizesOf(payloads);
    if MandatoryPresent(sizes) {
      assert forall i {:trigger sizes[i]} :: 0 <= i < 13 && Mandatory(i) ==> sizes[i] != 0;
      assert sizes[0] != 0 && sizes[1] != 0 && sizes[4] != 0 && sizes[5] != 0;
      assert sizes[9] != 0 && sizes[10] != 0 && sizes[11] != 0;
    }
  }

  /**
   Encoding then parsing the layout gives back every payload, and the layout is accepted exactly
   when version, algorithm, hash and the mandatory payloads are there.
   */
  lemma EncodingHasLayout(structVer: uint32, hashAlgoId: uint32, hash: seq<byte>, payloads: seq<seq<byte>>)
    requires Fits(hash, payloads)
    ensures var b := CsrBytes(structVer, hashAlgoId, hash, payloads);
            && (CsrLayout(b) <==> Encodable(structVer, hashAlgoId, hash, payloads))
            && (CsrLayout(b) ==> forall i :: 0 <= i < 13 ==> CsrField(b, i) == payloads[i])
  {
    var b := CsrBytes(structVer, hashAlgoId, hash, payloads);
    var sizes := SizesOf(payloads);
    EncodingHeader(structVer, hashAlgoId, hash, payloads);
    FlattenLength(payloads, FIELDS);
    MandatorySizes(payloads);
    if CsrLayout(b) {
      var front := CsrHeader(structVer, hashAlgoId, hash) + SizeBytes(sizes, FIELDS);
      var body := Flatten(payloads, FIELDS);
      assert b == front + body + [];
      forall i | 0 <= i < FIELDS ensures CsrField(b, i) == payloads[i] {
        FlattenAt(payloads, FIELDS, i);
        SliceOfMiddle(front, body, [], PrefixSum(sizes, i), PrefixSum(sizes, i + 1));
      }
    }
  }

  /** The EK certificate: DER X.509 if it is that, else the PEM of a TPMT_PUBLIC. */
  predicate IsEkCert(t: GoTpm, b: seq<byte>, pem: string) {
    if t.certificateDerToPem(b).Success? then t.certificateDerToPem(b) == Success(pem)
    else t.unmarshalPublic(b).Success? && t.publicToPem(t.unmarshalPublic(b).value) == Success(pem)
  }

  /** The contents decoded from these header fields and payloads, each field from its own payload. */
  predicate DecodedFrom(
    t: GoTpm, structVer: uint32, hashAlgoId: uint32, hash: seq<byte>, payloads: seq<seq<byte>>, c: CsrContents)
    requires |payloads| == 13
  {
    && c.structVer == structVer && c.hashAlgoId == hashAlgoId && c.hash == hash
    && c.prodModel == payloads[0] && c.prodSerial == payloads[1]
    && IsEkCert(t, payloads[4], c.ekCert)
    && t.unmarshalPublic(payloads[5]) == Success(c.iakPub)
    && t.unmarshalPublic(payloads[9]) == Success(c.idevidPub)
    && t.unmarshalAttest(payloads[10]) == Success(c.signCertifyInfo)
    && t.unmarshalSignature(payloads[11]) == Success(c.signCertifyInfoSignature)
  }

  /**
   The whole parser on any encoding: it accepts with contents c exactly when the mandatory values
   are there and c is what the payloads decode to.
   */
  lemma EncodingParsesExactly(
    t: GoTpm, structVer: uint32, hashAlgoId: uint32, hash: seq<byte>, payloads: seq<seq<byte>>, c: CsrContents)
    requires Fits(hash, payloads)
    ensures ParsedCsr(t, CsrBytes(structVer, hashAlgoId, hash, payloads)) == Success(c) <==>
            && structVer != 0 && hashAlgoId != 0 && hash != [] && MandatoryThere(payloads)
            && DecodedFrom(t, structVer, hashAlgoId, hash, payloads, c)
  {
    var b := CsrBytes(structVer, hashAlgoId, hash, payloads);
    EncodingHasLayout(structVer, hashAlgoId, hash, payloads);
    EncodingHeader(structVer, hashAlgoId, hash, payloads);
    if CsrLayout(b) {
      assert CsrField(b, 0) == payloads[0] && CsrField(b, 1) == payloads[1] && CsrField(b, 4) == payloads[4];
      assert CsrField(b, 5) == payloads[5] && CsrField(b, 9) == payloads[9] && CsrField(b, 10) == payloads[10];
      assert CsrField(b, 11) == payloads[11];
      EkCertExactly(t, payloads[4], c.ekCert);
    }
  }

  lemma EkCertExactly(t: GoTpm, b: seq<byte>, pem: string)
    requires b != []
    ensures EkCertPem(t, b) == Success(pem) <==> IsEkCert(t, b, pem)
  {
  }

  /** The payloads of an accepted layout. */
  function CsrPayloads(b: seq<byte>): (p: seq<seq<byte>>)
    requires CsrLayout(b)
    ensures |p| == FIELDS
  {
    seq(FIELDS, i requires 0 <= i < FIELDS => CsrField(b, i))
  }

  lemma Join(b: seq<byte>, i: nat, j: nat, k: nat)
    requires i <= j <= k <= |b|
    ensures b[i..j] + b[j..k] == b[i..k]
  {
  }

  lemma {:induction false} FlattenOfFields(b: seq<byte>, n: nat)
    requires CsrLayout(b) && n <= FIELDS
    ensures var base := 64 + HashSize(b);
            0 <= base + PrefixSum(CsrSizes(b), n) <= |b| && Flatten(CsrPayloads(b), n) == b[base..base + PrefixSum(CsrSizes(b), n)]
  {
    PrefixSumMonotone(CsrSizes(b), n, FIELDS);
    if n > 0 {
      var base := 64 + HashSize(b);
      FlattenOfFields(b, n - 1);
      PrefixSumMonotone(CsrSizes(b), n - 1, n);
      Join(b, base, base + PrefixSum(CsrSizes(b), n - 1), base + PrefixSum(CsrSizes(b), n));
    }
  }

  lemma {:induction false} SizeBytesOfLayout(b: seq<byte>, n: nat)
    requires CsrLayout(b) && n <= FIELDS
    ensures var o := 12 + HashSize(b);
            SizeBytes(CsrSizes(b), n) == b[o..o + 4 * n]
  {
    if n > 0 {
      var o := 12 + HashSize(b);
      SizeBytesOfLayout(b, n - 1);
      U32OfAt(b, o + 4 * (n - 1));
      Join(b, o, o + 4 * (n - 1), o + 4 * n);
    }
  }

  lemma HeaderOfLayout(b: seq<byte>)
    requires HeaderFits(b)
    ensures CsrHeader(U32At(b, 0), U32At(b, 4), b[12..12 + HashSize(b)]) == b[..12 + HashSize(b)]
  {
    U32OfAt(b, 0);
    U32OfAt(b, 4);
    U32OfAt(b, 8);
    Join(b, 0, 4, 8);
    Join(b, 0, 8, 12);
    Join(b, 0, 12, 12 + HashSize(b));
  }

  lemma PayloadSizes(b: seq<byte>)
    requires CsrLayout(b)
    ensures forall i :: 0 <= i < FIELDS ==> |CsrPayloads(b)[i]| == CsrSizes(b)[i] as int
    ensures SizesOf(CsrPayloads(b)) == CsrSizes(b)
  {
    forall i | 0 <= i < FIELDS ensures |CsrPayloads(b)[i]| == CsrSizes(b)[i] as int {
      PrefixSumMonotone(CsrSizes(b), i, i + 1);
      PrefixSumMonotone(CsrSizes(b), i + 1, FIELDS);
    }
  }

  lemma ThreeSlices(b: seq<byte>, i: nat, j: nat)
    requires i <= j <= |b|
    ensures b == b[..i] + b[i..j] + b[j..]
  {
  }

  /** Every accepted layout is the encoding of its own header and payloads: nothing is ambiguous. */
  lemma LayoutIsEncoding(b: seq<byte>)
    requires CsrLayout(b)
    ensures var hash := b[12..12 + HashSize(b)];
            && Encodable(U32At(b, 0), U32At(b, 4), hash, CsrPayloads(b))
            && b == CsrBytes(U32At(b, 0), U32At(b, 4), hash, CsrPayloads(b))
  {
    var n := HashSize(b);
    var hash := b[12..12 + n];
    PayloadSizes(b);
    FlattenOfFields(b, FIELDS);
    SizeBytesOfLayout(b, FIELDS);
    HeaderOfLayout(b);
    ThreeSlices(b, 12 + n, 64 + n);
  }
}
