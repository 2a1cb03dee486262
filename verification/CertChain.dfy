/**
 The reference certificate verifier: PEM chains, the intermediate pool the callee grows through
 the caller's pointer, subject serial numbers and public key sizes.
 */
module CertChain {
  import opened Common
  import opened BigEndian
  import opened Cards
  import opened RsaKeys
  import opened Tpm20Checks

  datatype PemBlock = PemBlock(kind: string, headers: nat, bytes: seq<byte>)
  datatype PublicKey = RsaCertKey(n: int) | EcdsaCertKey(bitSize: nat) | OtherCertKey
  datatype Certificate = Certificate(raw: seq<byte>, subjectSerial: string, publicKey: Option<PublicKey>)
  datatype KeyUsage = ExtKeyUsageAny | OtherUsage(id: nat)

  /** pem.Decode, x509.ParseCertificate, Certificate.Verify and key marshalling, as arbitrary functions. */
  datatype Library = Library(
    decode: seq<byte> -> (Option<PemBlock>, seq<byte>),
    parse: seq<byte> -> Result<Certificate>,
    verify: (Certificate, Option<set<Certificate>>, nat, seq<KeyUsage>) -> bool,
    publicKeyPem: PublicKey -> Result<string>)

  /** A decoded block leaves less input. */
  ghost predicate Shrinks(lib: Library) {
    forall data :: lib.decode(data).0.Some? ==> |lib.decode(data).1| < |data|
  }

  // ----- Chains ------------------------------------------------------------------------------

  predicate IsCertificate(b: PemBlock) {
    b.kind == "CERTIFICATE" && b.headers == 0
  }

  /** The certificate blocks of the input, in order. */
  ghost function ChainBlocks(lib: Library, data: seq<byte>): seq<PemBlock>
    requires Shrinks(lib)
    decreases |data|
  {
    if data == [] || lib.decode(data).0.None? then []
    else
      var b := lib.decode(data).0.value;
      (if IsCertificate(b) then [b] else []) + ChainBlocks(lib, lib.decode(data).1)
  }

  /** Every certificate block parses, and there is one: the parsed blocks, in order. */
  ghost function ParsedChain(lib: Library, data: seq<byte>): (r: Result<seq<Certificate>>)
    requires Shrinks(lib)
    ensures r.Success? ==> r.value != []
  {
    var blocks := ChainBlocks(lib, data);
    if exists b :: b in blocks && lib.parse(b.bytes).Failure? then Failure(MalformedInner)
    else if blocks == [] then Failure(EmptyInput)
    else Success(seq(|blocks|, i requires 0 <= i < |blocks| => lib.parse(blocks[i].bytes).value))
  }

  /** The blocks collected so far and the certificates they parse to. */
  ghost predicate Collected(lib: Library, blocks: seq<PemBlock>, certs: seq<Certificate>) {
    && |blocks| == |certs|
    && forall i :: 0 <= i < |blocks| ==> lib.parse(blocks[i].bytes) == Success(certs[i])
  }

  lemma CollectedAll(lib: Library, data: seq<byte>, certs: seq<Certificate>)
    requires Shrinks(lib) && Collected(lib, ChainBlocks(lib, data), certs)
    ensures ParsedChain(lib, data) == if certs == [] then Failure(EmptyInput) else Success(certs)
  {
    if certs != [] {
      assert ParsedChain(lib, data).value == certs;
    }
  }

  method ParseCertChain(lib: Library, certChainPem: seq<byte>) returns (r: Result<seq<Certificate>>)
    requires Shrinks(lib)
    ensures r == ParsedChain(lib, certChainPem)
  {
    var certs: seq<Certificate> := [];
    var pemData := certChainPem;
    ghost var blocks: seq<PemBlock> := [];
    while |pemData| > 0
      invariant Collected(lib, blocks, certs)
      invariant ChainBlocks(lib, certChainPem) == blocks + ChainBlocks(lib, pemData)
      decreases |pemData|
    {
      var (block, rest) := lib.decode(pemData);
      if block.None? {
        break;
      }
      ghost var later := ChainBlocks(lib, rest);
      pemData := rest;
      if block.value.kind != "CERTIFICATE" || block.value.headers != 0 {
        continue;
      }
      assert blocks + ([block.value] + later) == blocks + [block.value] + later;
      var cert := lib.parse(block.value.bytes);
      if cert.Failure? {
        assert block.value in ChainBlocks(lib, certChainPem);
        return Failure(MalformedInner);
      }
      certs, blocks := certs + [cert.value], blocks + [block.value];
    }
    assert ChainBlocks(lib, certChainPem) == blocks;
    CollectedAll(lib, certChainPem, certs);
    if |certs| == 0 {
      return Failure(EmptyInput);
    }
    r := Success(certs);
  }

  function Encoded(encode: PemBlock -> seq<byte>, blocks: seq<PemBlock>): seq<byte> {
    if blocks == [] then [] else encode(blocks[0]) + Encoded(encode, blocks[1..])
  }

  /** Decoding the block's encoding, whatever follows, gives the block and what follows. */
  ghost predicate DecodesBack(lib: Library, encode: PemBlock -> seq<byte>, b: PemBlock) {
    encode(b) != [] && forall rest :: lib.decode(encode(b) + rest) == (Some(b), rest)
  }

  function CertificateBlocks(blocks: seq<PemBlock>): seq<PemBlock> {
    if blocks == [] then []
    else
      (if blocks[0].kind == "CERTIFICATE" && blocks[0].headers == 0 then [blocks[0]] else []) + CertificateBlocks(blocks[1..])
  }

  /** Concatenated PEM blocks come back in order, leaf first, without the non-certificates. */
  lemma {:induction false} ChainOfEncodedBlocks(lib: Library, encode: PemBlock -> seq<byte>, blocks: seq<PemBlock>)
    requires Shrinks(lib)
    requires forall b :: b in blocks ==> DecodesBack(lib, encode, b)
    ensures ChainBlocks(lib, Encoded(encode, blocks)) == CertificateBlocks(blocks)
  {
    if blocks != [] {
      assert DecodesBack(lib, encode, blocks[0]);
      ChainOfEncodedBlocks(lib, encode, blocks[1..]);
    }
  }

  /** So the chain is parsed exactly when there is a certificate block and all of them parse, into those certificates. */
  lemma ChainOfEncodedParsesExactly(lib: Library, encode: PemBlock -> seq<byte>, blocks: seq<PemBlock>)
    requires Shrinks(lib)
    requires forall b :: b in blocks ==> DecodesBack(lib, encode, b)
    ensures var certs, r := CertificateBlocks(blocks), ParsedChain(lib, Encoded(encode, blocks));
            && (r.Success? <==> certs != [] && forall i :: 0 <= i < |certs| ==> lib.parse(certs[i].bytes).Success?)
            && (r.Success? ==> |r.value| == |certs| && forall i :: 0 <= i < |certs| ==> lib.parse(certs[i].bytes) == Success(r.value[i]))
  {
    ChainOfEncodedBlocks(lib, encode, blocks);
    var certs := CertificateBlocks(blocks);
    assert forall i :: 0 <= i < |certs| ==> certs[i] in certs;
  }

  // ----- Verification and the intermediate pool ----------------------------------------------

  class CertPool {
    var certs: set<Certificate>

    constructor ()
      ensures certs == {}
    {
      certs := {};
    }

    method AddCert(cert: Certificate)
      modifies this
      ensures certs == old(certs) + {cert}
    {
      certs := certs + {cert};
    }
  }

  /** x509.VerifyOptions, passed by value; the pool is shared through its pointer. */
  datatype VerifyOptions = VerifyOptions(intermediates: CertPool?, others: nat, keyUsages: seq<KeyUsage>)

  ghost function SetOf(certs: seq<Certificate>): set<Certificate> {
    set c | c in certs
  }

  /** Every certificate of a parsed chain but the leaf. */
  ghost function NonLeaf(lib: Library, pem: seq<byte>): set<Certificate>
    requires Shrinks(lib)
  {
    var chain := ParsedChain(lib, pem);
    if chain.Success? then SetOf(chain.value[1..]) else {}
  }

  ghost function PoolOf(opts: VerifyOptions): Option<set<Certificate>>
    reads opts.intermediates
  {
    if opts.intermediates == null then None else Some(opts.intermediates.certs)
  }

  /** A caller's pool after one verification: a nil pool stays nil. */
  ghost function PoolAfter(lib: Library, pool: Option<set<Certificate>>, pem: seq<byte>): Option<set<Certificate>>
    requires Shrinks(lib)
  {
    if pool.None? then None else Some(pool.value + NonLeaf(lib, pem))
  }

  /** The pool Certificate.Verify is given: it exists as soon as the chain has a non-leaf. */
  ghost function PoolSeen(lib: Library, pool: Option<set<Certificate>>, pem: seq<byte>): Option<set<Certificate>>
    requires Shrinks(lib)
  {
    if pool.Some? then Some(pool.value + NonLeaf(lib, pem))
    else if NonLeaf(lib, pem) != {} then Some(NonLeaf(lib, pem))
    else None
  }

  /** The leaf, if the chain parses and it verifies with that pool and any key usage. */
  ghost function VerifiedLeaf(lib: Library, pool: Option<set<Certificate>>, others: nat, pem: seq<byte>): Result<Certificate>
    requires Shrinks(lib)
  {
    var chain :- ParsedChain(lib, pem);
    if lib.verify(chain[0], PoolSeen(lib, pool, pem), others, [ExtKeyUsageAny]) then Success(chain[0])
    else Failure(BadSignature)
  }

  /**
   Exactly the leaves accepted: the first certificate of a chain that parses, if it verifies for
   any key usage with the caller's pool and the rest of the chain, or, without a pool, with a new
   one holding the rest if there is any.
   */
  lemma VerifiedLeafExactly(lib: Library, pool: Option<set<Certificate>>, others: nat, pem: seq<byte>, leaf: Certificate)
    requires Shrinks(lib)
    ensures VerifiedLeaf(lib, pool, others, pem) == Success(leaf) <==>
            && ParsedChain(lib, pem).Success?
            && var chain := ParsedChain(lib, pem).value;
            && leaf == chain[0]
            && lib.verify(
                 leaf,
                 (match pool
                  case Some(certs) => Some(certs + set c | c in chain[1..])
                  case None => if |chain| > 1 then Some(set c | c in chain[1..]) else None),
                 others, [ExtKeyUsageAny])
  {
    var parsed := ParsedChain(lib, pem);
    if parsed.Success? {
      var chain := parsed.value;
      assert SetOf(chain[1..]) == set c | c in chain[1..];
      assert |chain| > 1 ==> chain[1] in chain[1..] && chain[1] in NonLeaf(lib, pem);
    }
  }

  ghost function Footprint(opts: VerifyOptions): set<object> {
    if opts.intermediates == null then {} else {opts.intermediates}
  }

  /** The loop that hands the non-leaf certificates to the pool. */
  method AddIntermediates(pool: CertPool, certs: seq<Certificate>)
    requires certs != []
    modifies pool
    ensures pool.certs == old(pool.certs) + SetOf(certs[1..])
  {
    for i := 1 to |certs|
      invariant pool.certs == old(pool.certs) + SetOf(certs[1..i])
    {
      pool.AddCert(certs[i]);
      assert certs[1..i + 1] == certs[1..i] + [certs[i]];
    }
    assert certs[1..|certs|] == certs[1..];
  }

  lemma NonLeafEmpty(lib: Library, pem: seq<byte>)
    requires Shrinks(lib) && ParsedChain(lib, pem).Success?
    ensures NonLeaf(lib, pem) == {} <==> |ParsedChain(lib, pem).value| == 1
  {
    var chain := ParsedChain(lib, pem).value;
    if |chain| > 1 {
      assert chain[1] in chain[1..];
      assert chain[1] in NonLeaf(lib, pem);
    }
  }

  method VerifyAndParsePemCert(lib: Library, certPem: seq<byte>, certVerificationOpts: VerifyOptions)
    returns (r: Result<Certificate>)
    requires Shrinks(lib)
    modifies Footprint(certVerificationOpts)
    ensures r == VerifiedLeaf(lib, old(PoolOf(certVerificationOpts)), certVerificationOpts.others, certPem)
    ensures PoolOf(certVerificationOpts) == PoolAfter(lib, old(PoolOf(certVerificationOpts)), certPem)
  {
    var opts := certVerificationOpts;
    ghost var before := PoolOf(opts);
    assert before.Some? ==> before.value + {} == before.value;
    var certs :- ParseCertChain(lib, certPem);
    NonLeafEmpty(lib, certPem);
    var leafCert := certs[0];
    if |certs| > 1 {
      if opts.intermediates == null {
        var pool := new CertPool();
        opts := opts.(intermediates := pool);
      }
      AddIntermediates(opts.intermediates, certs);
    }
    opts := opts.(keyUsages := [ExtKeyUsageAny]);
    var pool: Option<set<Certificate>> := if opts.intermediates == null then None else Some(opts.intermediates.certs);
    assert {} + NonLeaf(lib, certPem) == NonLeaf(lib, certPem);
    assert pool == PoolSeen(lib, before, certPem);
    if !lib.verify(leafCert, pool, opts.others, opts.keyUsages) {
      return Failure(BadSignature);
    }
    r := Success(leafCert);
  }

  /** The caller's pool after verifications of all these inputs, in order. */
  ghost function PoolAfterAll(lib: Library, pool: Option<set<Certificate>>, pems: seq<seq<byte>>): Option<set<Certificate>>
    requires Shrinks(lib)
  {
    if pems == [] then pool
    else PoolAfter(lib, PoolAfterAll(lib, pool, pems[..|pems| - 1]), pems[|pems| - 1])
  }

  ghost predicate AddedBy(lib: Library, pems: seq<seq<byte>>, c: Certificate)
    requires Shrinks(lib)
  {
    exists pem :: pem in pems && ParsedChain(lib, pem).Success? && c in ParsedChain(lib, pem).value[1..]
  }

  /**
   Over any sequence of verifications sharing one options value: a nil pool stays nil, and a
   caller's pool is what it was plus every non-leaf certificate of every chain that parsed,
   whether or not its leaf verified.
   */
  lemma {:induction false} PoolAccumulates(lib: Library, pool: Option<set<Certificate>>, pems: seq<seq<byte>>)
    requires Shrinks(lib)
    ensures pool.Some? <==> PoolAfterAll(lib, pool, pems).Some?
    ensures pool.Some? ==> forall c :: c in PoolAfterAll(lib, pool, pems).value <==> c in pool.value || AddedBy(lib, pems, c)
  {
    if pems != [] {
      PoolAccumulates(lib, pool, pems[..|pems| - 1]);
      forall c {
        AddedByLast(lib, pems, c);
      }
    }
  }

  lemma AddedByLast(lib: Library, pems: seq<seq<byte>>, c: Certificate)
    requires Shrinks(lib) && pems != []
    ensures AddedBy(lib, pems, c) <==> AddedBy(lib, pems[..|pems| - 1], c) || c in NonLeaf(lib, pems[|pems| - 1])
  {
    var n := |pems| - 1;
    assert pems == pems[..n] + [pems[n]];
    if AddedBy(lib, pems, c) {
      var pem :| pem in pems && ParsedChain(lib, pem).Success? && c in ParsedChain(lib, pem).value[1..];
      assert pem in pems[..n] || pem == pems[n];
    }
  }

  // ----- Subject serial numbers --------------------------------------------------------------

  const MARKER := "SN:"

  predicate MarkerAt(s: string, i: nat) {
    i + |MARKER| <= |s| && s[i..i + |MARKER|] == MARKER
  }

  lemma MarkerAtMeans(s: string, i: nat)
    ensures MarkerAt(s, i) <==> i + 3 <= |s| && s[i] == 'S' && s[i + 1] == 'N' && s[i + 2] == ':'
  {
    if i + 3 <= |s| {
      var m := s[i..i + 3];
      assert m[0] == s[i] && m[1] == s[i + 1] && m[2] == s[i + 2];
    }
  }

  predicate MarkerFree(s: string) {
    forall i :: 0 <= i < |s| ==> !MarkerAt(s, i)
  }

  /** The first marker at or after i, or the length of s. */
  function FirstMarker(s: string, i: nat): (k: nat)
    requires i <= |s|
    ensures i <= k <= |s| && (k < |s| ==> MarkerAt(s, k))
    ensures forall j :: i <= j < k ==> !MarkerAt(s, j)
    decreases |s| - i
  {
    if i == |s| || MarkerAt(s, i) then i else FirstMarker(s, i + 1)
  }

  /** strings.Split at the marker. */
  function Split(s: string): (parts: seq<string>)
    ensures parts != []
    decreases |s|
  {
    var k := FirstMarker(s, 0);
    if k == |s| then [s] else [s[..k]] + Split(s[k + |MARKER|..])
  }

  /** With exactly one marker the text after it, else the text before the first. */
  function CertSerialNumber(serial: string): string {
    var sn := Split(serial);
    if |sn| != 2 then sn[0] else sn[1]
  }

  lemma SplitAtMarker(before: string, after: string)
    requires MarkerFree(before)
    ensures Split(before + MARKER + after) == [before] + Split(after)
  {
    var s := before + MARKER + after;
    assert MarkerAt(s, |before|);
    forall i | 0 <= i < |before| ensures !MarkerAt(s, i) {
      if MarkerAt(s, i) {
        assert s[i..i + 3][0] == 'S' && s[i..i + 3][1] == 'N' && s[i..i + 3][2] == ':';
        assert s[|before|] == 'S';
        assert i + 3 <= |before| ==> before[i..i + 3] == s[i..i + 3] && MarkerAt(before, i);
      }
    }
    assert FirstMarker(s, 0) == |before|;
    assert s[..|before|] == before && s[|before| + 3..] == after;
  }

  /**
   "PID:p SN:s" yields s, and a serial without the marker is taken as it is; but as soon as a
   second marker follows, it is the text before the first that is taken.
   */
  lemma SerialAfterMarker(pid: string, rest: string)
    requires MarkerFree(pid)
    ensures CertSerialNumber(pid) == pid
    ensures CertSerialNumber(pid + "SN:" + rest) == if MarkerFree(rest) then rest else pid
  {
    SplitAtMarker(pid, rest);
  }

  // ----- Keys and serials --------------------------------------------------------------------

  const MIN_RSA_BITS := 2048
  const MIN_ECC_BITS := 256

  function VerifyAndSerializePubKey(lib: Library, cert: Certificate): Result<string> {
    match cert.publicKey
    case None => Failure(NilInput)
    case Some(RsaCertKey(n)) =>
      if KeySize(n) * 8 < MIN_RSA_BITS then Failure(BadKeySize) else lib.publicKeyPem(RsaCertKey(n))
    case Some(EcdsaCertKey(bits)) =>
      if bits < MIN_ECC_BITS then Failure(BadKeySize) else lib.publicKeyPem(EcdsaCertKey(bits))
    case Some(OtherCertKey) => Failure(UnsupportedAlgorithm)
  }

  /** The RSA check is on whole bytes: moduli of 2041 bits already pass. */
  lemma RsaKeyAcceptedFrom2041Bits(lib: Library, cert: Certificate, n: int)
    requires cert.publicKey == Some(RsaCertKey(n)) && lib.publicKeyPem(RsaCertKey(n)).Success?
    ensures VerifyAndSerializePubKey(lib, cert).Success? <==> BitLen(Abs(n)) >= 2041
  {
  }

  /** Exactly the keys accepted: RSA from 2041 bits, elliptic curves from 256, no other kind. */
  lemma KeyAcceptedExactly(lib: Library, cert: Certificate, pem: string)
    ensures VerifyAndSerializePubKey(lib, cert) == Success(pem) <==>
            && cert.publicKey.Some? && lib.publicKeyPem(cert.publicKey.value) == Success(pem)
            && match cert.publicKey.value
               case RsaCertKey(n) => BitLen(Abs(n)) >= 2041
               case EcdsaCertKey(bits) => bits >= 256
               case OtherCertKey => false
  {
  }

  predicate SerialMatches(serial: string, card: CardId) {
    serial == card.chassisSerialNumber || serial == card.controlCardSerial
  }

  /** One certificate checked for a card: its serial number and its key in PEM. */
  ghost function CheckedCert(lib: Library, pool: Option<set<Certificate>>, others: nat, cardId: Option<CardId>, pem: seq<byte>)
    : Result<(string, string)>
    requires Shrinks(lib)
  {
    if cardId.None? then Failure(InvalidRequest)
    else
      var leaf :- VerifiedLeaf(lib, pool, others, pem);
      var serial := CertSerialNumber(leaf.subjectSerial);
      if !SerialMatches(serial, cardId.value) then Failure(SerialMismatch)
      else
        var key :- VerifyAndSerializePubKey(lib, leaf);
        Success((serial, key))
  }

  /** The IDevID certificate, checked against the serial of the IAK certificate. */
  ghost function CheckedIDevID(lib: Library, pool: Option<set<Certificate>>, others: nat, iakSerial: string, pem: seq<byte>): Result<string>
    requires Shrinks(lib)
  {
    if pem == [] then Success("")
    else
      var leaf :- VerifiedLeaf(lib, pool, others, pem);
      if iakSerial != CertSerialNumber(leaf.subjectSerial) then Failure(SerialMismatch)
      else VerifyAndSerializePubKey(lib, leaf)
  }

  /** The second verification already sees what the first added to the caller's pool. */
  ghost function CheckedPair(
    lib: Library, pool: Option<set<Certificate>>, others: nat, cardId: Option<CardId>, iakPem: seq<byte>, idevidPem: seq<byte>)
    : Result<(string, string)>
    requires Shrinks(lib)
  {
    var iak :- CheckedCert(lib, pool, others, cardId, iakPem);
    var idevidKey :- CheckedIDevID(lib, PoolAfter(lib, pool, iakPem), others, iak.0, idevidPem);
    Success((iak.1, idevidKey))
  }

  /** Exactly the certificates accepted for a card: the leaf names it or its chassis, and its key is accepted. */
  lemma CheckedCertExactly(
    lib: Library, pool: Option<set<Certificate>>, others: nat, cardId: Option<CardId>, pem: seq<byte>, serial: string, key: string)
    requires Shrinks(lib)
    ensures CheckedCert(lib, pool, others, cardId, pem) == Success((serial, key)) <==>
            && cardId.Some? && VerifiedLeaf(lib, pool, others, pem).Success?
            && var leaf := VerifiedLeaf(lib, pool, others, pem).value;
            && serial == CertSerialNumber(leaf.subjectSerial)
            && (serial == cardId.value.controlCardSerial || serial == cardId.value.chassisSerialNumber)
            && VerifyAndSerializePubKey(lib, leaf) == Success(key)
  {
  }

  /**
   Exactly the pairs accepted: the IAK certificate is, and the IDevID certificate is absent or its
   leaf, verified behind the IAK chain, names the same serial and has an accepted key.
   */
  lemma CheckedPairExactly(
    lib: Library, pool: Option<set<Certificate>>, others: nat, cardId: Option<CardId>, iakPem: seq<byte>, idevidPem: seq<byte>,
    keys: (string, string))
    requires Shrinks(lib)
    ensures CheckedPair(lib, pool, others, cardId, iakPem, idevidPem) == Success(keys) <==>
            && CheckedCert(lib, pool, others, cardId, iakPem).Success?
            && var (serial, key) := CheckedCert(lib, pool, others, cardId, iakPem).value;
            && keys.0 == key
            && if idevidPem == [] then keys.1 == ""
               else
                 var leaf := VerifiedLeaf(lib, PoolAfter(lib, pool, iakPem), others, idevidPem);
                 && leaf.Success? && CertSerialNumber(leaf.value.subjectSerial) == serial
                 && VerifyAndSerializePubKey(lib, leaf.value) == Success(keys.1)
  {
  }

  method VerifyTpmCert(lib: Library, cardId: Option<CardId>, opts: VerifyOptions, certPem: seq<byte>) returns (r: Result<string>)
    requires Shrinks(lib)
    modifies Footprint(opts)
    ensures var checked := CheckedCert(lib, old(PoolOf(opts)), opts.others, cardId, certPem);
            r == if checked.Success? then Success(checked.value.1) else Failure(checked.error)
    ensures PoolOf(opts) == if cardId.None? then old(PoolOf(opts)) else PoolAfter(lib, old(PoolOf(opts)), certPem)
  {
    if cardId.None? {
      return Failure(InvalidRequest);
    }
    var certX509 :- VerifyAndParsePemCert(lib, certPem, opts);
    var certSerialNumber := CertSerialNumber(certX509.subjectSerial);
    if certSerialNumber != cardId.value.chassisSerialNumber && certSerialNumber != cardId.value.controlCardSerial {
      return Failure(SerialMismatch);
    }
    r := VerifyAndSerializePubKey(lib, certX509);
  }

  method VerifyIakAndIDevIDCerts(
    lib: Library, cardId: Option<CardId>, opts: VerifyOptions, iakCertPem: seq<byte>, iDevIDCertPem: seq<byte>)
    returns (r: Result<(string, string)>)
    requires Shrinks(lib)
    modifies Footprint(opts)
    ensures r == CheckedPair(lib, old(PoolOf(opts)), opts.others, cardId, iakCertPem, iDevIDCertPem)
    ensures PoolOf(opts) ==
      if cardId.None? then old(PoolOf(opts))
      else if iDevIDCertPem == [] || CheckedCert(lib, old(PoolOf(opts)), opts.others, cardId, iakCertPem).Failure? then
        PoolAfterAll(lib, old(PoolOf(opts)), [iakCertPem])
      else PoolAfterAll(lib, old(PoolOf(opts)), [iakCertPem, iDevIDCertPem])
  {
    ghost var start := PoolOf(opts);
    TwoVerifications(lib, start, iakCertPem, iDevIDCertPem);
    if cardId.None? {
      return Failure(InvalidRequest);
    }
    var iakX509 :- VerifyAndParsePemCert(lib, iakCertPem, opts);
    var iakSerialNumber := CertSerialNumber(iakX509.subjectSerial);
    if iakSerialNumber != cardId.value.chassisSerialNumber && iakSerialNumber != cardId.value.controlCardSerial {
      return Failure(SerialMismatch);
    }
    var iakPubPem :- VerifyAndSerializePubKey(lib, iakX509);
    if iDevIDCertPem == [] {
      return Success((iakPubPem, ""));
    }
    var iDevIDX509 :- VerifyAndParsePemCert(lib, iDevIDCertPem, opts);
    var iDevIDSerialNumber := CertSerialNumber(iDevIDX509.subjectSerial);
    if iakSerialNumber != iDevIDSerialNumber {
      return Failure(SerialMismatch);
    }
    var iDevIDPubPem :- VerifyAndSerializePubKey(lib, iDevIDX509);
    r := Success((iakPubPem, iDevIDPubPem));
  }

  lemma TwoVerifications(lib: Library, pool: Option<set<Certificate>>, p: seq<byte>, q: seq<byte>)
    requires Shrinks(lib)
    ensures PoolAfterAll(lib, pool, [p]) == PoolAfter(lib, pool, p)
    ensures PoolAfterAll(lib, pool, [p, q]) == PoolAfter(lib, PoolAfter(lib, pool, p), q)
  {
    assert [p][..0] == [] && [p, q][..1] == [p];
  }

  /**
   What accepting a pair means: each returned key is that of a chain's first certificate, which
   verified with that pool, and both subjects carry one serial, the card's or the chassis's.
   */
  lemma AcceptedPairShareSerial(
    lib: Library, pool: Option<set<Certificate>>, others: nat, cardId: Option<CardId>, iakPem: seq<byte>, idevidPem: seq<byte>)
    requires Shrinks(lib) && CheckedPair(lib, pool, others, cardId, iakPem, idevidPem).Success?
    ensures cardId.Some? && ParsedChain(lib, iakPem).Success?
    ensures var keys := CheckedPair(lib, pool, others, cardId, iakPem, idevidPem).value;
            var iak := ParsedChain(lib, iakPem).value[0];
            && lib.verify(iak, PoolSeen(lib, pool, iakPem), others, [ExtKeyUsageAny])
            && SerialMatches(CertSerialNumber(iak.subjectSerial), cardId.value)
            && iak.publicKey.Some? && lib.publicKeyPem(iak.publicKey.value) == Success(keys.0)
            && (idevidPem == [] ==> keys.1 == "")
            && (idevidPem != [] ==>
                  && ParsedChain(lib, idevidPem).Success?
                  && var idevid := ParsedChain(lib, idevidPem).value[0];
                     && CertSerialNumber(idevid.subjectSerial) == CertSerialNumber(iak.subjectSerial)
                     && lib.verify(idevid, PoolSeen(lib, PoolAfter(lib, pool, iakPem), idevidPem), others, [ExtKeyUsageAny])
                     && idevid.publicKey.Some? && lib.publicKeyPem(idevid.publicKey.value) == Success(keys.1))
  {
  }
}
