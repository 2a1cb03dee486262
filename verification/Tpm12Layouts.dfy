/**
 The TPM 1.2 structures byte by byte: what the serializers write, field after field in network
 byte order, and that the parsers read exactly that back.
 */
module Tpm12Layouts {
  import opened Common
  import opened BigEndian
  import opened Tpm12Formats
  import opened Tpm12Identity

  lemma Words(a: uint32, b: uint32, c: uint32)
    ensures U32(a) == Be32(a) && U32(b) == Be32(b) && U32(c) == Be32(c)
  {
    NetworkOrder(a, 0);
    NetworkOrder(b, 0);
    NetworkOrder(c, 0);
  }

  /** Algorithm, encryption scheme, signature scheme, and the size of what follows. */
  lemma HeaderLayout(alg: uint32, enc: uint16, sig: uint16, size: uint32)
    ensures KeyParmsHeader(alg, enc, sig, size) == Be32(alg) + Be16(enc) + Be16(sig) + Be32(size)
  {
    NetworkOrder(alg, enc);
    NetworkOrder(size, sig);
  }

  lemma RsaBlockLayout(p: RsaKeyParms)
    requires |p.exponent| <= 0xFFFF_FFFF
    ensures RsaKeyParmsBytes(p) == Success(
              Be32(p.keyLength) + Be32(p.numPrimes) + Be32(|p.exponent| as uint32) + p.exponent)
  {
    Words(p.keyLength, p.numPrimes, |p.exponent| as uint32);
  }

  lemma AesBlockLayout(p: SymmetricKeyParms)
    requires |p.iv| <= 0xFFFF_FFFF
    ensures SymmetricKeyParmsBytes(p) == Success(
              Be32(p.keyLength) + Be32(p.blockSize) + Be32(|p.iv| as uint32) + p.iv)
  {
    Words(p.keyLength, p.blockSize, |p.iv| as uint32);
  }

  /** RSA parameters: key length in bits, number of primes, and the exponent behind its size. */
  lemma RsaParmsLayout(k: KeyParms)
    requires k.algId == 1 && k.rsa.Some? && k.sym.None? && 12 + |k.rsa.value.exponent| <= 0xFFFF_FFFF
    ensures var p := k.rsa.value;
            var e := p.exponent;
            KeyParmsBytes(k) == Success(
              Be32(1) + Be16(k.encScheme) + Be16(k.sigScheme) + Be32((12 + |e|) as uint32)
              + (Be32(p.keyLength) + Be32(p.numPrimes) + Be32(|e| as uint32) + e))
  {
    RsaBlockLayout(k.rsa.value);
    HeaderLayout(1, k.encScheme, k.sigScheme, (12 + |k.rsa.value.exponent|) as uint32);
  }

  /** AES parameters: key length, block size, and the IV behind its size. */
  lemma AesParmsLayout(k: KeyParms)
    requires k.algId in {6, 8, 9} && k.sym.Some? && k.rsa.None? && 12 + |k.sym.value.iv| <= 0xFFFF_FFFF
    ensures var p := k.sym.value;
            KeyParmsBytes(k) == Success(
              Be32(k.algId) + Be16(k.encScheme) + Be16(k.sigScheme) + Be32((12 + |p.iv|) as uint32)
              + (Be32(p.keyLength) + Be32(p.blockSize) + Be32(|p.iv| as uint32) + p.iv))
  {
    AesBlockLayout(k.sym.value);
    HeaderLayout(k.algId, k.encScheme, k.sigScheme, (12 + |k.sym.value.iv|) as uint32);
  }

  /** Which key parameters the parser reads back, whatever follows them. */
  lemma KeyParmsReadBack(k: KeyParms, t: seq<byte>)
    requires match k.algId
             case 1 =>
               && k.rsa.Some? && k.sym.None?
               && k.rsa.value.keyLength != 0 && k.rsa.value.numPrimes != 0 && 12 + |k.rsa.value.exponent| <= 0xFFFF_FFFF
             case 6 | 8 | 9 =>
               && k.sym.Some? && k.rsa.None?
               && k.sym.value.keyLength != 0 && k.sym.value.blockSize != 0 && 12 + |k.sym.value.iv| <= 0xFFFF_FFFF
             case _ => k.algId in {4, 5, 7} && k.rsa.None? && k.sym.None?
    ensures KeyParmsBytes(k).Success? && DecodeKeyParms(KeyParmsBytes(k).value + t) == Success((k, t))
  {
    DecodeKeyParmsBack(k, t);
  }

  /** The other known algorithms have no parameters. */
  lemma PlainParmsLayout(k: KeyParms)
    requires k.algId in {4, 5, 7} && k.rsa.None? && k.sym.None?
    ensures KeyParmsBytes(k) == Success(Be32(k.algId) + Be16(k.encScheme) + Be16(k.sigScheme) + [0, 0, 0, 0])
  {
    HeaderLayout(k.algId, k.encScheme, k.sigScheme, 0);
    var header := KeyParmsHeader(k.algId, k.encScheme, k.sigScheme, 0);
    assert header + [] == header && Be32(0) == [0, 0, 0, 0];
  }

  /** And no other algorithm is parsed at all. */
  lemma OtherAlgorithmsRejected(b: seq<byte>)
    requires DecodeKeyParms(b).Success?
    ensures DecodeKeyParms(b).value.0.algId in {1, 4, 5, 6, 7, 8, 9}
  {
  }

  /** TPM_PUBKEY: the key parameters, the length of the key and the key. */
  lemma PubKeyLayout(k: PubKey, t: seq<byte>)
    requires WellFormedKeyParms(k.algorithmParms) && k.pubKey.keyLength as int == |k.pubKey.key| != 0
    ensures KeyParmsBytes(k.algorithmParms).Success?
    ensures var b := KeyParmsBytes(k.algorithmParms).value + (Be32(k.pubKey.keyLength) + k.pubKey.key);
            PubKeyBytes(k) == Success(b) && DecodePubKey(b + t) == Success((k, t))
  {
    NetworkOrder(k.pubKey.keyLength, 0);
    DecodePubKeyBack(k, t);
  }

  /** TPM_SYMMETRIC_KEY: algorithm, scheme, 16-bit length, key. */
  lemma SymmetricKeyBytesLayout(k: SymmetricKey)
    requires k.algId in {6, 8, 9} && k.encScheme == 0xFF && 0 < |k.key| <= 0xFFFF
    ensures var b := Be32(k.algId) + [0, 0xFF] + Be16(|k.key| as uint16) + k.key;
            SymmetricKeyBytes(k) == Success(b) && DecodeSymmetricKey(b) == Success(k)
  {
    NetworkOrder(k.algId, k.encScheme);
    NetworkOrder(0, |k.key| as uint16);
    SymmetricKeyExact(SymmetricKeyLayout(k), k);
  }

  /** TPM_IDENTITY_CONTENTS: version, ordinal, the digest as it is, the key. */
  lemma IdentityContentsLayout(c: IdentityContents)
    requires PubKeyBytes(c.identityPubKey).Success?
    ensures IdentityContentsBytes(c) == Success(
              [c.version.major, c.version.minor, c.version.revMajor, c.version.revMinor] + Be32(c.ordinal)
              + c.labelPrivCADigest + PubKeyBytes(c.identityPubKey).value)
  {
    NetworkOrder(c.ordinal, 0);
  }

  /** TPM_SYM_CA_ATTESTATION: the credential's size, the key parameters, the credential. */
  lemma AttestationLayout(a: SymCAAttestation)
    requires KeyParmsBytes(a.algorithm).Success? && |a.credential| <= 0xFFFF_FFFF
    ensures SymCAAttestationBytes(a) == Success(
              Be32(|a.credential| as uint32) + KeyParmsBytes(a.algorithm).value + a.credential)
  {
    NetworkOrder(|a.credential| as uint32, 0);
  }

  /** TPM_IDENTITY_REQ: both sizes, both algorithms, both blobs, asymmetric first. */
  lemma IdentityReqFields(q: IdentityReq)
    requires WellFormedKeyParms(q.asymAlgorithm) && WellFormedKeyParms(q.symAlgorithm)
    requires 0 < |q.asymBlob| <= 0xFFFF_FFFF && 0 < |q.symBlob| <= 0xFFFF_FFFF
    ensures KeyParmsBytes(q.asymAlgorithm).Success? && KeyParmsBytes(q.symAlgorithm).Success?
    ensures var b := Be32(|q.asymBlob| as uint32) + (Be32(|q.symBlob| as uint32)
                     + (KeyParmsBytes(q.asymAlgorithm).value + (KeyParmsBytes(q.symAlgorithm).value
                     + (q.asymBlob + q.symBlob))));
            DecodeIdentityReq(b) == Success(q)
  {
    DecodeKeyParmsBack(q.asymAlgorithm, []);
    DecodeKeyParmsBack(q.symAlgorithm, []);
    NetworkOrder(|q.asymBlob| as uint32, 0);
    NetworkOrder(|q.symBlob| as uint32, 0);
    assert q.symBlob + [] == q.symBlob;
    DecodeIdentityReqBack(q, []);
  }

  /** TPM_IDENTITY_PROOF: version 1.1.0.0 and the five sizes, in the order of the payloads. */
  lemma IdentityProofSizes(p: IdentityProof)
    requires WellFormedIdentityProof(p)
    ensures var b := IdentityProofBytes(p);
            && |b| >= 24 && b[0..4] == [1, 1, 0, 0]
            && b[4..8] == Be32(|p.labelArea| as uint32)
            && b[8..12] == Be32(|p.identityBinding| as uint32)
            && b[12..16] == Be32(|p.endorsementCredential| as uint32)
            && b[16..20] == Be32(|p.platformCredential| as uint32)
            && b[20..24] == Be32(|p.conformanceCredential| as uint32)
  {
    var s := SizesOf(Payloads(p));
    Words(s.area, s.binding, s.endorsement);
    Words(s.platform, s.conformance, 0);
    var body := PubKeyWire(p.aik) + PayloadLayout(Payloads(p), []);
    var b := IdentityProofBytes(p);
    assert b == VersionBytes(p.version) + SizesLayout(s, body);
    var t5 := U32(s.conformance) + body;
    var t4 := U32(s.platform) + t5;
    var t3 := U32(s.endorsement) + t4;
    var t2 := U32(s.binding) + t3;
    FieldAfter(VersionBytes(p.version), U32(s.area), t2);
    FieldAfter(VersionBytes(p.version) + U32(s.area), U32(s.binding), t3);
    FieldAfter(VersionBytes(p.version) + U32(s.area) + U32(s.binding), U32(s.endorsement), t4);
    FieldAfter(VersionBytes(p.version) + U32(s.area) + U32(s.binding) + U32(s.endorsement), U32(s.platform), t5);
    FieldAfter(VersionBytes(p.version) + U32(s.area) + U32(s.binding) + U32(s.endorsement) + U32(s.platform), U32(s.conformance), body);
  }

  lemma FieldAfter(front: seq<byte>, field: seq<byte>, rest: seq<byte>)
    ensures (front + (field + rest))[..|front|] == front
    ensures (front + (field + rest))[|front|..|front| + |field|] == field
    ensures front + (field + rest) == front + field + rest
  {
  }
}
