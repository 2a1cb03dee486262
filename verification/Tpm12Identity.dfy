/**
 TPM_SYMMETRIC_KEY, TPM_IDENTITY_REQ and TPM_IDENTITY_PROOF: decoders that specify the
 parsers and the theorems saying exactly which byte strings each accepts.
 */
module Tpm12Identity {
  import opened Common
  import opened BigEndian
  import opened Wire
  import opened Tpm12Formats

  // ----- TPM_SYMMETRIC_KEY -----------------------------------------------------------------

  /** Layout of a symmetric key; the serializer also restricts the algorithm and scheme. */
  function SymmetricKeyLayout(k: SymmetricKey): seq<byte>
    requires |k.key| <= MAX_UINT16
  {
    U32(k.algId) + U16(k.encScheme) + U16(|k.key| as uint16) + k.key
  }

  function DecodeSymmetricKey(b: seq<byte>): (r: Result<SymmetricKey>)
    ensures r.Success? ==> WellFormedSymmetricKey(r.value) && b == SymmetricKeyLayout(r.value)
  {
    var (alg, b1) :- TakeNonZeroU32(b);
    if !KnownAlgorithm(alg) then Failure(UnknownAlgorithm)
    else
      var (enc, b2) :- TakeU16(b1);
      var (size, b3) :- TakeU16(b2);
      if size == 0 then Failure(ZeroValue)
      else
        var (key, b4) :- TakeBytes(b3, size as uint32);
        if b4 != [] then Failure(Leftover)
        else
          assert b == U32(alg) + U16(enc) + U16(size) + key;
          Success(SymmetricKey(alg, enc, key))
  }

  /** ParseSymmetricKey accepts b, returning k, exactly when b is the layout of a well-formed k. */
  lemma SymmetricKeyExact(b: seq<byte>, k: SymmetricKey)
    ensures DecodeSymmetricKey(b) == Success(k) <==> WellFormedSymmetricKey(k) && b == SymmetricKeyLayout(k)
  {
    if WellFormedSymmetricKey(k) {
      var size := |k.key| as uint16;
      var t2 := U16(size) + k.key;
      var t1 := U16(k.encScheme) + t2;
      assert SymmetricKeyLayout(k) == U32(k.algId) + t1;
      assert k.key == k.key + [];
      TakeNonZeroU32Back(k.algId, t1);
      TakeU16Back(k.encScheme, t2);
      TakeU16Back(size, k.key);
      TakeBytesBack(size as uint32, k.key, []);
    }
  }

  // ----- TPM_IDENTITY_REQ ------------------------------------------------------------------

  predicate WellFormedIdentityReq(q: IdentityReq) {
    && WellFormedKeyParms(q.asymAlgorithm)
    && WellFormedKeyParms(q.symAlgorithm)
    && 0 < |q.asymBlob| <= MAX_UINT32
    && 0 < |q.symBlob| <= MAX_UINT32
  }

  /** The wire form of well-formed key parameters. */
  function KeyParmsWire(k: KeyParms): seq<byte>
    requires WellFormedKeyParms(k)
  {
    DecodeKeyParmsBack(k, []);
    KeyParmsBytes(k).value
  }

  /** The wire form of a well-formed public key. */
  function PubKeyWire(k: PubKey): seq<byte>
    requires WellFormedPubKey(k)
  {
    DecodePubKeyBack(k, []);
    PubKeyBytes(k).value
  }

  /** Both sizes, both algorithms, both blobs, and the bytes after them. */
  function IdentityReqLayout(q: IdentityReq, tail: seq<byte>): seq<byte>
    requires WellFormedIdentityReq(q)
  {
    U32(|q.asymBlob| as uint32) + (U32(|q.symBlob| as uint32)
    + (KeyParmsWire(q.asymAlgorithm) + (KeyParmsWire(q.symAlgorithm)
    + (q.asymBlob + (q.symBlob + tail)))))
  }

  predicate AllZero(b: seq<byte>) {
    forall i :: 0 <= i < |b| ==> b[i] == 0
  }

  /** The request and whatever follows it. */
  function DecodeIdentityReqPrefix(b: seq<byte>): (r: Result<(IdentityReq, seq<byte>)>)
    ensures r.Success? ==> WellFormedIdentityReq(r.value.0) && b == IdentityReqLayout(r.value.0, r.value.1)
  {
    var (asymSize, b1) :- TakeNonZeroU32(b);
    var (symSize, b2) :- TakeNonZeroU32(b1);
    var (asymAlg, b3) :- DecodeKeyParms(b2);
    var (symAlg, b4) :- DecodeKeyParms(b3);
    var (asymBlob, b5) :- TakeBytes(b4, asymSize);
    var (symBlob, b6) :- TakeBytes(b5, symSize);
    Success((IdentityReq(asymAlg, symAlg, asymBlob, symBlob), b6))
  }

  function DecodeIdentityReq(b: seq<byte>): Result<IdentityReq> {
    var (q, rest) :- DecodeIdentityReqPrefix(b);
    if AllZero(rest) then Success(q) else Failure(Leftover)
  }

  lemma DecodeIdentityReqBack(q: IdentityReq, t: seq<byte>)
    requires WellFormedIdentityReq(q)
    ensures DecodeIdentityReqPrefix(IdentityReqLayout(q, t)) == Success((q, t))
  {
    var asymSize, symSize := |q.asymBlob| as uint32, |q.symBlob| as uint32;
    var t5 := q.symBlob + t;
    var t4 := q.asymBlob + t5;
    var t3 := KeyParmsWire(q.symAlgorithm) + t4;
    var t2 := KeyParmsWire(q.asymAlgorithm) + t3;
    TakeNonZeroU32Back(asymSize, U32(symSize) + t2);
    TakeNonZeroU32Back(symSize, t2);
    DecodeKeyParmsBack(q.asymAlgorithm, t3);
    DecodeKeyParmsBack(q.symAlgorithm, t4);
    TakeBytesBack(asymSize, q.asymBlob, t5);
    TakeBytesBack(symSize, q.symBlob, t);
  }

  /**
   ParseIdentityRequest accepts b, returning q, exactly when b is the encoding of a
   well-formed q followed by zero or more 0x00 bytes.
   */
  lemma IdentityReqExact(b: seq<byte>, q: IdentityReq)
    ensures DecodeIdentityReq(b) == Success(q) <==>
            WellFormedIdentityReq(q) && exists zeros :: AllZero(zeros) && b == IdentityReqLayout(q, zeros)
  {
    if DecodeIdentityReq(b) == Success(q) {
      var zeros := DecodeIdentityReqPrefix(b).value.1;
      assert AllZero(zeros) && b == IdentityReqLayout(q, zeros);
    }
    if WellFormedIdentityReq(q) {
      forall zeros | AllZero(zeros) && b == IdentityReqLayout(q, zeros)
        ensures DecodeIdentityReq(b) == Success(q)
      {
        DecodeIdentityReqBack(q, zeros);
      }
    }
  }

  lemma IdentityReqAppend(q: IdentityReq, s: seq<byte>, t: seq<byte>)
    requires WellFormedIdentityReq(q)
    ensures IdentityReqLayout(q, s) + t == IdentityReqLayout(q, s + t)
  {
    var w1, w2 := KeyParmsWire(q.asymAlgorithm), KeyParmsWire(q.symAlgorithm);
    var f1, f2 := U32(|q.asymBlob| as uint32), U32(|q.symBlob| as uint32);
    Reassociate(q.symBlob, s, t);
    Reassociate(q.asymBlob, q.symBlob + s, t);
    Reassociate(w2, q.asymBlob + (q.symBlob + s), t);
    Reassociate(w1, w2 + (q.asymBlob + (q.symBlob + s)), t);
    Reassociate(f2, w1 + (w2 + (q.asymBlob + (q.symBlob + s))), t);
    Reassociate(f1, f2 + (w1 + (w2 + (q.asymBlob + (q.symBlob + s)))), t);
  }

  /** Appending zeros to an accepted request never changes the result. */
  lemma IdentityReqIgnoresZeros(b: seq<byte>, zeros: seq<byte>)
    requires DecodeIdentityReq(b).Success? && AllZero(zeros)
    ensures DecodeIdentityReq(b + zeros) == DecodeIdentityReq(b)
  {
    var (q, rest) := DecodeIdentityReqPrefix(b).value;
    IdentityReqAppend(q, rest, zeros);
    DecodeIdentityReqBack(q, rest + zeros);
  }

  lemma IdentityReqLength(q: IdentityReq, s: seq<byte>)
    requires WellFormedIdentityReq(q)
    ensures |IdentityReqLayout(q, s)| == |IdentityReqLayout(q, [])| + |s|
  {
  }

  lemma IdentityReqTails(q: IdentityReq, s: seq<byte>, t: seq<byte>) returns (zeros: seq<byte>)
    requires WellFormedIdentityReq(q) && AllZero(s) && AllZero(t)
    requires |IdentityReqLayout(q, s)| <= |IdentityReqLayout(q, t)|
    ensures AllZero(zeros) && IdentityReqLayout(q, t) == IdentityReqLayout(q, s) + zeros
  {
    IdentityReqLength(q, s);
    IdentityReqLength(q, t);
    zeros := t[|s|..];
    IdentityReqAppend(q, s, zeros);
    assert s + zeros == t;
  }

  /** Two accepted inputs with equal results differ only in trailing zeros. */
  lemma IdentityReqUnique(a: seq<byte>, b: seq<byte>)
    requires DecodeIdentityReq(a).Success? && DecodeIdentityReq(a) == DecodeIdentityReq(b)
    requires |a| <= |b|
    ensures exists zeros :: AllZero(zeros) && b == a + zeros
  {
    var (q, s) := DecodeIdentityReqPrefix(a).value;
    var zeros := IdentityReqTails(q, s, DecodeIdentityReqPrefix(b).value.1);
  }

  // ----- TPM_IDENTITY_PROOF ----------------------------------------------------------------

  datatype ProofSizes = ProofSizes(area: uint32, binding: uint32, endorsement: uint32, platform: uint32, conformance: uint32)
  datatype ProofPayloads = ProofPayloads(
    area: seq<byte>, binding: seq<byte>, endorsement: seq<byte>, platform: seq<byte>, conformance: seq<byte>)

  predicate FitsSizes(p: ProofPayloads) {
    && |p.area| <= MAX_UINT32
    && 0 < |p.binding| <= MAX_UINT32
    && |p.endorsement| <= MAX_UINT32
    && |p.platform| <= MAX_UINT32
    && |p.conformance| <= MAX_UINT32
  }

  function SizesOf(p: ProofPayloads): ProofSizes
    requires FitsSizes(p)
  {
    ProofSizes(|p.area| as uint32, |p.binding| as uint32, |p.endorsement| as uint32,
               |p.platform| as uint32, |p.conformance| as uint32)
  }

  function Payloads(p: IdentityProof): ProofPayloads {
    ProofPayloads(p.labelArea, p.identityBinding, p.endorsementCredential, p.platformCredential, p.conformanceCredential)
  }

  predicate WellFormedIdentityProof(p: IdentityProof) {
    p.version == VERSION_1_1 && WellFormedPubKey(p.aik) && FitsSizes(Payloads(p))
  }

  function SizesLayout(s: ProofSizes, tail: seq<byte>): seq<byte> {
    U32(s.area) + (U32(s.binding) + (U32(s.endorsement) + (U32(s.platform) + (U32(s.conformance) + tail))))
  }

  function PayloadLayout(p: ProofPayloads, tail: seq<byte>): seq<byte> {
    p.area + (p.binding + (p.endorsement + (p.platform + (p.conformance + tail))))
  }

  /** Version, five sizes, the variable-length AIK, then the five payloads and nothing more. */
  function IdentityProofBytes(p: IdentityProof): seq<byte>
    requires WellFormedIdentityProof(p)
  {
    VersionBytes(p.version) + SizesLayout(SizesOf(Payloads(p)), PubKeyWire(p.aik) + PayloadLayout(Payloads(p), []))
  }

  function DecodeSizes(b: seq<byte>): (r: Result<(ProofSizes, seq<byte>)>)
    ensures r.Success? ==> r.value.0.binding != 0 && b == SizesLayout(r.value.0, r.value.1)
  {
    var (area, b1) :- TakeU32(b);
    var (binding, b2) :- TakeNonZeroU32(b1);
    var (endorsement, b3) :- TakeU32(b2);
    var (platform, b4) :- TakeU32(b3);
    var (conformance, b5) :- TakeU32(b4);
    Success((ProofSizes(area, binding, endorsement, platform, conformance), b5))
  }

  function DecodePayloads(b: seq<byte>, s: ProofSizes): (r: Result<(ProofPayloads, seq<byte>)>)
    requires s.binding != 0
    ensures r.Success? ==>
      FitsSizes(r.value.0) && SizesOf(r.value.0) == s && b == PayloadLayout(r.value.0, r.value.1)
  {
    var (area, b1) :- TakeBytes(b, s.area);
    var (binding, b2) :- TakeBytes(b1, s.binding);
    var (endorsement, b3) :- TakeBytes(b2, s.endorsement);
    var (platform, b4) :- TakeBytes(b3, s.platform);
    var (conformance, b5) :- TakeBytes(b4, s.conformance);
    Success((ProofPayloads(area, binding, endorsement, platform, conformance), b5))
  }

  function DecodeIdentityProof(b: seq<byte>): (r: Result<IdentityProof>)
    ensures r.Success? ==> WellFormedIdentityProof(r.value) && b == IdentityProofBytes(r.value)
  {
    var (version, b1) :- DecodeVersion(b);
    var (sizes, b2) :- DecodeSizes(b1);
    var (aik, b3) :- DecodePubKey(b2);
    var (p, b4) :- DecodePayloads(b3, sizes);
    if b4 != [] then Failure(Leftover)
    else Success(IdentityProof(version, aik, p.area, p.binding, p.endorsement, p.platform, p.conformance))
  }

  lemma DecodeSizesBack(s: ProofSizes, t: seq<byte>)
    requires s.binding != 0
    ensures DecodeSizes(SizesLayout(s, t)) == Success((s, t))
  {
    var t4 := U32(s.conformance) + t;
    var t3 := U32(s.platform) + t4;
    var t2 := U32(s.endorsement) + t3;
    TakeU32Back(s.area, U32(s.binding) + t2);
    TakeNonZeroU32Back(s.binding, t2);
    TakeU32Back(s.endorsement, t3);
    TakeU32Back(s.platform, t4);
    TakeU32Back(s.conformance, t);
  }

  lemma DecodePayloadsBack(p: ProofPayloads, t: seq<byte>)
    requires FitsSizes(p)
    ensures DecodePayloads(PayloadLayout(p, t), SizesOf(p)) == Success((p, t))
  {
    var s := SizesOf(p);
    var t4 := p.conformance + t;
    var t3 := p.platform + t4;
    var t2 := p.endorsement + t3;
    TakeBytesBack(s.area, p.area, p.binding + t2);
    TakeBytesBack(s.binding, p.binding, t2);
    TakeBytesBack(s.endorsement, p.endorsement, t3);
    TakeBytesBack(s.platform, p.platform, t4);
    TakeBytesBack(s.conformance, p.conformance, t);
  }

  /**
   ParseIdentityProof accepts b, returning p, exactly when b is the encoding of a well-formed
   p: version 1.1.0.0, non-empty binding, sizes that match the payloads, nothing left over.
   */
  lemma IdentityProofExact(b: seq<byte>, p: IdentityProof)
    ensures DecodeIdentityProof(b) == Success(p) <==> WellFormedIdentityProof(p) && b == IdentityProofBytes(p)
  {
    if WellFormedIdentityProof(p) && b == IdentityProofBytes(p) {
      var body := PayloadLayout(Payloads(p), []);
      DecodeSizesBack(SizesOf(Payloads(p)), PubKeyWire(p.aik) + body);
      DecodePubKeyBack(p.aik, body);
      DecodePayloadsBack(Payloads(p), []);
    }
  }

  lemma Field(b: seq<byte>, front: seq<byte>, field: seq<byte>, rest: seq<byte>)
    requires b == front + (field + rest)
    ensures b[|front|..|front| + |field|] == field
    ensures b == front + field + rest
  {
  }

  lemma PayloadOffsets(b: seq<byte>, front: seq<byte>, p: ProofPayloads)
    requires b == front + PayloadLayout(p, [])
    ensures var o1 := |front| + |p.area|;
            var o2 := o1 + |p.binding|;
            var o3 := o2 + |p.endorsement|;
            var o4 := o3 + |p.platform|;
            && |b| == o4 + |p.conformance|
            && p.area == b[|front|..o1]
            && p.binding == b[o1..o2]
            && p.endorsement == b[o2..o3]
            && p.platform == b[o3..o4]
            && p.conformance == b[o4..]
  {
    var r4 := p.conformance + [];
    var r3 := p.platform + r4;
    var r2 := p.endorsement + r3;
    var r1 := p.binding + r2;
    Field(b, front, p.area, r1);
    Field(b, front + p.area, p.binding, r2);
    Field(b, front + p.area + p.binding, p.endorsement, r3);
    Field(b, front + p.area + p.binding + p.endorsement, p.platform, r4);
    Field(b, front + p.area + p.binding + p.endorsement + p.platform, p.conformance, []);
  }

  lemma SizesAppend(s: ProofSizes, tail: seq<byte>)
    ensures SizesLayout(s, tail) == SizesLayout(s, []) + tail
    ensures |SizesLayout(s, [])| == 20
  {
    var r4 := U32(s.conformance) + [];
    var r3 := U32(s.platform) + r4;
    var r2 := U32(s.endorsement) + r3;
    var r1 := U32(s.binding) + r2;
    Reassociate(U32(s.conformance), [], tail);
    assert [] + tail == tail;
    Reassociate(U32(s.platform), r4, tail);
    Reassociate(U32(s.endorsement), r3, tail);
    Reassociate(U32(s.binding), r2, tail);
    Reassociate(U32(s.area), r1, tail);
  }

  lemma IdentityProofFront(p: IdentityProof) returns (front: seq<byte>)
    requires WellFormedIdentityProof(p)
    ensures |front| == 24 + |PubKeyWire(p.aik)|
    ensures IdentityProofBytes(p) == front + PayloadLayout(Payloads(p), [])
  {
    var v, w, body := VersionBytes(p.version), PubKeyWire(p.aik), PayloadLayout(Payloads(p), []);
    var z := SizesLayout(SizesOf(Payloads(p)), []);
    SizesAppend(SizesOf(Payloads(p)), w + body);
    Reassociate(v, z, w + body);
    Reassociate(v + z, w, body);
    front := v + z + w;
  }

  /**
   Where each payload of an accepted proof sits: at the sum of the sizes before it, counted
   from the end of the AIK, whose own length varies; the last one ends the input.
   */
  lemma IdentityProofOffsets(b: seq<byte>, p: IdentityProof)
    requires WellFormedIdentityProof(p) && b == IdentityProofBytes(p)
    ensures var o0 := 24 + |PubKeyWire(p.aik)|;
            var o1 := o0 + |p.labelArea|;
            var o2 := o1 + |p.identityBinding|;
            var o3 := o2 + |p.endorsementCredential|;
            var o4 := o3 + |p.platformCredential|;
            && |b| == o4 + |p.conformanceCredential|
            && p.labelArea == b[o0..o1]
            && p.identityBinding == b[o1..o2]
            && p.endorsementCredential == b[o2..o3]
            && p.platformCredential == b[o3..o4]
            && p.conformanceCredential == b[o4..]
  {
    var front := IdentityProofFront(p);
    PayloadOffsets(b, front, Payloads(p));
  }
}
