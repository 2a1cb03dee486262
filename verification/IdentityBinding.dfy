/** TPM_IDENTITY_CONTENTS: what the AIK's identity binding signs, and why it identifies. */
module IdentityBinding {
  import opened Common
  import opened BigEndian
  import opened Wire
  import opened Tpm12Formats
  import opened RsaKeys

  type Digest = d: seq<byte> | |d| == DIGEST_SIZE witness seq(DIGEST_SIZE, _ => 0)
  /** SHA-1 as an arbitrary function with 20-byte values. */
  type Sha1 = seq<byte> -> Digest

  const ORDINAL_MAKE_IDENTITY: uint32 := 0x79
  /** The bytes of "Identity". */
  const IDENTITY_LABEL: seq<byte> := [0x49, 0x64, 0x65, 0x6E, 0x74, 0x69, 0x74, 0x79]

  /** What the label digest hashes: the label and the serialized issuer key. */
  function LabelPreimage(publicKey: Option<RsaPublicKey>): Result<seq<byte>> {
    var k :- ConstructPubKey(publicKey);
    var privacyCA :- PubKeyBytes(k);
    Success(IDENTITY_LABEL + privacyCA)
  }

  function ConstructIdentityContents(sha1: Sha1, publicKey: Option<RsaPublicKey>, aik: PubKey): Result<IdentityContents> {
    var preimage :- LabelPreimage(publicKey);
    Success(IdentityContents(VERSION_1_1, ORDINAL_MAKE_IDENTITY, sha1(preimage), aik))
  }

  /** The bytes whose SHA-1 the AIK signs. */
  function SignedContents(sha1: Sha1, issuer: Option<RsaPublicKey>, aik: PubKey): Result<seq<byte>> {
    var contents :- ConstructIdentityContents(sha1, issuer, aik);
    IdentityContentsBytes(contents)
  }

  /**
   The signed bytes spelled out: version 1.1.0.0, the ordinal of TPM_MakeIdentity, the SHA-1 of
   "Identity" and the printed issuer key, the printed AIK. They exist whenever both keys print.
   */
  lemma SignedContentsBytes(sha1: Sha1, issuer: RsaPublicKey, aik: PubKey)
    ensures SignedContents(sha1, Some(issuer), aik).Success? <==>
            && ConstructPubKey(Some(issuer)).Success? && PubKeyBytes(ConstructPubKey(Some(issuer)).value).Success?
            && PubKeyBytes(aik).Success?
    ensures SignedContents(sha1, Some(issuer), aik).Success? ==>
            var printed := PubKeyBytes(ConstructPubKey(Some(issuer)).value).value;
            var preimage := [0x49, 0x64, 0x65, 0x6E, 0x74, 0x69, 0x74, 0x79] + printed;
            && LabelPreimage(Some(issuer)) == Success(preimage)
            && SignedContents(sha1, Some(issuer), aik)
               == Success([1, 1, 0, 0] + [0, 0, 0, 0x79] + sha1(preimage) + PubKeyBytes(aik).value)
  {
    NetworkOrder(0x79, 0);
    assert Be32(0x79) == [0, 0, 0, 0x79];
  }

  lemma SplitEqual(a: seq<byte>, b: seq<byte>, s: seq<byte>, t: seq<byte>)
    requires |a| == |b| && a + s == b + t
    ensures a == b && s == t
  {
    assert a == (a + s)[..|a|] && b == (b + t)[..|b|];
    assert s == (a + s)[|a|..] && t == (b + t)[|b|..];
  }

  lemma StoreInjective(a: StorePubKey, b: StorePubKey)
    requires StorePubKeyBytes(a) == StorePubKeyBytes(b)
    ensures a == b
  {
    U32Injective(a.keyLength, b.keyLength, a.key, b.key);
  }

  lemma RsaParmsInjective(a: RsaKeyParms, b: RsaKeyParms)
    requires RsaKeyParmsBytes(a).Success? && RsaKeyParmsBytes(a) == RsaKeyParmsBytes(b)
    ensures a == b
  {
    var a2, b2 := U32(|a.exponent| as uint32) + a.exponent, U32(|b.exponent| as uint32) + b.exponent;
    var a1, b1 := U32(a.numPrimes) + a2, U32(b.numPrimes) + b2;
    assert RsaKeyParmsBytes(a).value == U32(a.keyLength) + a1;
    assert RsaKeyParmsBytes(b).value == U32(b.keyLength) + b1;
    U32Injective(a.keyLength, b.keyLength, a1, b1);
    U32Injective(a.numPrimes, b.numPrimes, a2, b2);
    U32Injective(|a.exponent| as uint32, |b.exponent| as uint32, a.exponent, b.exponent);
  }

  lemma HeaderInjective(g: Header, h: Header)
    requires KnownAlgorithm(g.alg) && KnownAlgorithm(h.alg)
    requires KeyParmsHeader(g.alg, g.enc, g.sig, g.size) == KeyParmsHeader(h.alg, h.enc, h.sig, h.size)
    ensures g == h
  {
    DecodeHeaderBack(g, []);
    DecodeHeaderBack(h, []);
  }

  /** Two printed RSA keys, well formed or not, are equal only when the keys are. */
  lemma RsaPubKeyInjective(k: PubKey, l: PubKey)
    requires k.algorithmParms.algId == ALG_RSA && k.algorithmParms.rsa.Some? && k.algorithmParms.sym.None?
    requires l.algorithmParms.algId == ALG_RSA && l.algorithmParms.rsa.Some? && l.algorithmParms.sym.None?
    requires PubKeyBytes(k).Success? && PubKeyBytes(k) == PubKeyBytes(l)
    ensures k == l
  {
    var a, b := k.algorithmParms, l.algorithmParms;
    var p, q := RsaKeyParmsBytes(a.rsa.value).value, RsaKeyParmsBytes(b.rsa.value).value;
    var g := Header(a.algId, a.encScheme, a.sigScheme, |p| as uint32);
    var h := Header(b.algId, b.encScheme, b.sigScheme, |q| as uint32);
    var gb, hb := KeyParmsHeader(g.alg, g.enc, g.sig, g.size), KeyParmsHeader(h.alg, h.enc, h.sig, h.size);
    var s, t := StorePubKeyBytes(k.pubKey), StorePubKeyBytes(l.pubKey);
    assert PubKeyBytes(k).value == gb + (p + s);
    assert PubKeyBytes(l).value == hb + (q + t);
    SplitEqual(gb, hb, p + s, q + t);
    HeaderInjective(g, h);
    SplitEqual(p, q, s, t);
    RsaParmsInjective(a.rsa.value, b.rsa.value);
    StoreInjective(k.pubKey, l.pubKey);
  }

  /** The keys that survive the full cycle: positive modulus, exponent from 1 to 2^32 - 1. */
  predicate InRange(pk: RsaPublicKey) {
    pk.n.Some? && pk.n.value > 0 && 1 <= pk.e as int <= MAX_UINT32
  }

  lemma InRangeEqual(x: RsaPublicKey, y: RsaPublicKey)
    requires InRange(x) && InRange(y)
    requires Abs(x.n.value) == Abs(y.n.value) && ToUint32(x.e) == ToUint32(y.e)
    ensures x == y
  {
  }

  /** Equal label preimages come from the same absolute modulus and the same 32-bit exponent: the same key, if in range. */
  lemma LabelPreimageInjective(x: RsaPublicKey, y: RsaPublicKey)
    requires LabelPreimage(Some(x)).Success? && LabelPreimage(Some(x)) == LabelPreimage(Some(y))
    ensures Abs(x.n.value) == Abs(y.n.value) && ToUint32(x.e) == ToUint32(y.e)
    ensures InRange(x) && InRange(y) ==> x == y
  {
    var k, l := ConstructPubKey(Some(x)).value, ConstructPubKey(Some(y)).value;
    SplitEqual(IDENTITY_LABEL, IDENTITY_LABEL, PubKeyBytes(k).value, PubKeyBytes(l).value);
    RsaPubKeyInjective(k, l);
    ConstructedKey(x);
    ConstructedKey(y);
    if InRange(x) && InRange(y) {
      InRangeEqual(x, y);
    }
  }

  /**
   On contents built from parsed AIKs the serialization is injective, although the 20-byte
   digest has no length prefix.
   */
  lemma IdentityContentsInjective(c: IdentityContents, d: IdentityContents)
    requires |c.labelPrivCADigest| == |d.labelPrivCADigest| == DIGEST_SIZE
    requires WellFormedPubKey(c.identityPubKey) && WellFormedPubKey(d.identityPubKey)
    requires IdentityContentsBytes(c) == IdentityContentsBytes(d)
    ensures c == d
  {
    DecodePubKeyBack(c.identityPubKey, []);
    DecodePubKeyBack(d.identityPubKey, []);
    var f, g := VersionBytes(c.version) + U32(c.ordinal), VersionBytes(d.version) + U32(d.ordinal);
    var k, l := PubKeyBytes(c.identityPubKey).value, PubKeyBytes(d.identityPubKey).value;
    SplitEqual(f + c.labelPrivCADigest, g + d.labelPrivCADigest, k, l);
    SplitEqual(f, g, c.labelPrivCADigest, d.labelPrivCADigest);
    SplitEqual(VersionBytes(c.version), VersionBytes(d.version), U32(c.ordinal), U32(d.ordinal));
    TakeU32Back(c.ordinal, []);
    TakeU32Back(d.ordinal, []);
    assert U32(c.ordinal) + [] == U32(d.ordinal) + [];
    assert forall i :: 0 <= i < 4 ==> VersionBytes(c.version)[i] == VersionBytes(d.version)[i];
    assert k + [] == l + [];
    PubKeyInjective(c.identityPubKey, d.identityPubKey, [], []);
  }

  /**
   The signed bytes determine both identities: if two bindings sign the same bytes and SHA-1
   does not collide on their label preimages, they name the same AIK and the same issuer key.
   */
  lemma SignedBytesDetermineIdentities(sha1: Sha1, x: RsaPublicKey, y: RsaPublicKey, a: PubKey, b: PubKey)
    requires WellFormedPubKey(a) && WellFormedPubKey(b)
    requires SignedContents(sha1, Some(x), a).Success?
    requires SignedContents(sha1, Some(x), a) == SignedContents(sha1, Some(y), b)
    requires sha1(LabelPreimage(Some(x)).value) == sha1(LabelPreimage(Some(y)).value) ==>
               LabelPreimage(Some(x)) == LabelPreimage(Some(y))
    ensures a == b && Abs(x.n.value) == Abs(y.n.value) && ToUint32(x.e) == ToUint32(y.e)
    ensures InRange(x) && InRange(y) ==> x == y
  {
    var c := ConstructIdentityContents(sha1, Some(x), a).value;
    var d := ConstructIdentityContents(sha1, Some(y), b).value;
    IdentityContentsInjective(c, d);
    LabelPreimageInjective(x, y);
  }
}
