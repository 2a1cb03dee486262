/** The vendor workflows with the reference certificate verifier in place of an arbitrary one. */
module VendorReference {
  import opened Common
  import opened BigEndian
  import opened Cards
  import opened EnrollzDeps
  import opened CertChain
  import opened OwnerCerts
  import V = VendorEnrollment

  /** Go strings are byte strings. */
  function Bytes(s: string): seq<byte> {
    seq(|s|, i requires 0 <= i < |s| => (s[i] as int % 256) as byte)
  }

  /** Byte for byte, in order. */
  lemma BytesAt(s: string, i: nat)
    requires i < |s| && s[i] as int < 256
    ensures |Bytes(s)| == |s| && Bytes(s)[i] as int == s[i] as int
  {
  }

  /** The chains a verification call hands to the caller's pool, if they parse. */
  ghost function ChainsTried(lib: Library, pool: Option<set<Certificate>>, others: nat, e: Event): seq<seq<byte>>
    requires Shrinks(lib)
  {
    match e
    case VerifiedIakAndIDevID(cardId, iakCert, idevidCert, _) =>
      if cardId.None? then []
      else if idevidCert == "" || CheckedCert(lib, pool, others, cardId, Bytes(iakCert)).Failure? then [Bytes(iakCert)]
      else [Bytes(iakCert), Bytes(idevidCert)]
    case VerifiedTpmCert(cardId, cert, _) => if cardId.None? then [] else [Bytes(cert)]
    case _ => []
  }

  /** The caller's pool after these calls: they all share the one options value. */
  ghost function PoolBehind(lib: Library, pool: Option<set<Certificate>>, others: nat, t: seq<Event>): Option<set<Certificate>>
    requires Shrinks(lib)
  {
    if t == [] then pool
    else
      var n := |t| - 1;
      var found := PoolBehind(lib, pool, others, t[..n]);
      PoolAfterAll(lib, found, ChainsTried(lib, found, others, t[n]))
  }

  /** The reference verifier gives this answer when it finds that pool. */
  ghost predicate ReferenceAnswer(lib: Library, found: Option<set<Certificate>>, others: nat, e: Event)
    requires Shrinks(lib)
  {
    match e
    case VerifiedIakAndIDevID(cardId, iakCert, idevidCert, pems) =>
      pems == (match CheckedPair(lib, found, others, cardId, Bytes(iakCert), Bytes(idevidCert))
               case Success(keys) => Some(keys)
               case Failure(_) => None)
    case VerifiedTpmCert(cardId, cert, pem) =>
      pem == (match CheckedCert(lib, found, others, cardId, Bytes(cert))
              case Success(checked) => Some(checked.1)
              case Failure(_) => None)
    case _ => true
  }

  /** Every recorded verification got the reference verifier's answer for its recorded arguments. */
  ghost predicate ReferenceVerifies(lib: Library, pool: Option<set<Certificate>>, others: nat, t: seq<Event>)
    requires Shrinks(lib)
  {
    forall j :: 0 <= j < |t| ==> ReferenceAnswer(lib, PoolBehind(lib, pool, others, t[..j]), others, t[j])
  }

  /** This key in PEM is that of the chain's leaf, which verified with that pool and names the card. */
  ghost predicate KeyOfVerifiedLeaf(
    lib: Library, pool: Option<set<Certificate>>, others: nat, cardId: Option<CardId>, chain: seq<byte>, keyPem: string)
    requires Shrinks(lib)
  {
    && cardId.Some? && ParsedChain(lib, chain).Success?
    && var leaf := ParsedChain(lib, chain).value[0];
    && lib.verify(leaf, PoolSeen(lib, pool, chain), others, [ExtKeyUsageAny])
    && SerialMatches(CertSerialNumber(leaf.subjectSerial), cardId.value)
    && leaf.publicKey.Some? && lib.publicKeyPem(leaf.publicKey.value) == Success(keyPem)
  }

  /** What an accepted pair of certificates means, at the call that verified it. */
  lemma PairVerifiedAt(
    lib: Library, pool: Option<set<Certificate>>, others: nat, t: seq<Event>, j: nat,
    cardId: Option<CardId>, iakCert: string, idevidCert: string, keys: (string, string))
    requires Shrinks(lib) && ReferenceVerifies(lib, pool, others, t)
    requires j < |t| && t[j] == VerifiedIakAndIDevID(cardId, iakCert, idevidCert, Some(keys))
    ensures var found := PoolBehind(lib, pool, others, t[..j]);
            && KeyOfVerifiedLeaf(lib, found, others, cardId, Bytes(iakCert), keys.0)
            && (keys.1 != "" ==>
                  KeyOfVerifiedLeaf(lib, PoolAfter(lib, found, Bytes(iakCert)), others, cardId, Bytes(idevidCert), keys.1))
  {
    var found := PoolBehind(lib, pool, others, t[..j]);
    assert ReferenceAnswer(lib, found, others, t[j]);
    AcceptedPairShareSerial(lib, found, others, cardId, Bytes(iakCert), Bytes(idevidCert));
  }

  lemma CertVerifiedAt(
    lib: Library, pool: Option<set<Certificate>>, others: nat, t: seq<Event>, j: nat,
    cardId: Option<CardId>, cert: string, key: string)
    requires Shrinks(lib) && ReferenceVerifies(lib, pool, others, t)
    requires j < |t| && t[j] == VerifiedTpmCert(cardId, cert, Some(key))
    ensures KeyOfVerifiedLeaf(lib, PoolBehind(lib, pool, others, t[..j]), others, cardId, Bytes(cert), key)
  {
    assert ReferenceAnswer(lib, PoolBehind(lib, pool, others, t[..j]), others, t[j]);
  }

  /** One of these calls handed this chain to the pool. */
  ghost predicate TriedIn(lib: Library, pool: Option<set<Certificate>>, others: nat, t: seq<Event>, chain: seq<byte>)
    requires Shrinks(lib)
  {
    t != [] &&
    var n := |t| - 1;
    TriedIn(lib, pool, others, t[..n], chain) || chain in ChainsTried(lib, PoolBehind(lib, pool, others, t[..n]), others, t[n])
  }

  ghost predicate AddedIn(lib: Library, pool: Option<set<Certificate>>, others: nat, t: seq<Event>, c: Certificate)
    requires Shrinks(lib)
  {
    exists chain ::
      TriedIn(lib, pool, others, t, chain) && ParsedChain(lib, chain).Success? && c in ParsedChain(lib, chain).value[1..]
  }

  lemma AddedInLast(lib: Library, pool: Option<set<Certificate>>, others: nat, t: seq<Event>, c: Certificate)
    requires Shrinks(lib) && t != []
    ensures var n := |t| - 1;
            AddedIn(lib, pool, others, t, c) <==>
            || AddedIn(lib, pool, others, t[..n], c)
            || AddedBy(lib, ChainsTried(lib, PoolBehind(lib, pool, others, t[..n]), others, t[n]), c)
  {
    var n := |t| - 1;
    var chains := ChainsTried(lib, PoolBehind(lib, pool, others, t[..n]), others, t[n]);
    if AddedIn(lib, pool, others, t[..n], c) {
      var chain :| TriedIn(lib, pool, others, t[..n], chain) && ParsedChain(lib, chain).Success? && c in ParsedChain(lib, chain).value[1..];
      assert TriedIn(lib, pool, others, t, chain);
    }
    if AddedBy(lib, chains, c) {
      var chain :| chain in chains && ParsedChain(lib, chain).Success? && c in ParsedChain(lib, chain).value[1..];
      assert TriedIn(lib, pool, others, t, chain);
    }
  }

  /** The pool behind any calls: the caller's, plus every non-leaf of every chain they tried that parses. */
  lemma {:induction false} PoolGrowsByEarlierCalls(
    lib: Library, pool: Option<set<Certificate>>, others: nat, t: seq<Event>, c: Certificate)
    requires Shrinks(lib)
    ensures PoolBehind(lib, pool, others, t).Some? <==> pool.Some?
    ensures pool.Some? ==> (c in PoolBehind(lib, pool, others, t).value <==> c in pool.value || AddedIn(lib, pool, others, t, c))
  {
    if t != [] {
      var n := |t| - 1;
      var found := PoolBehind(lib, pool, others, t[..n]);
      PoolGrowsByEarlierCalls(lib, pool, others, t[..n], c);
      PoolAccumulates(lib, found, ChainsTried(lib, found, others, t[n]));
      AddedInLast(lib, pool, others, t, c);
    }
  }

  /**
   The vendor workflows end to end with the reference verifier: whenever anything is rotated, the
   i-th card's oIAK was issued for the key of the leaf of its own IAK chain, and its oIDevID, if
   it has one, for the key of the leaf of its own IDevID chain; both leaves name the reported card
   or its chassis, and verified with the pool that the calls before them had grown.
   */
  lemma RotatedKeysOfVerifiedLeaves(
    lib: Library, pool: Option<set<Certificate>>, others: nat,
    selections: seq<Option<Selection>>, verifyIDevID: bool, p: Policy, ph: V.Phases, r: Result<()>, i: nat)
    requires Shrinks(lib) && ReferenceVerifies(lib, pool, others, ph.verify)
    requires V.VendorRun(selections, verifyIDevID, p, ph, r) && ph.owner.rotate != [] && i < |selections|
    ensures |ph.verified| == |selections| == |ph.owner.updates| && |ph.verify| == 2 * |selections|
    ensures var v, u, found := ph.verified[i], ph.owner.updates[i], PoolBehind(lib, pool, others, ph.verify[..2 * i + 1]);
            && ph.verify[2 * i] == GotIakCert(selections[i], Some(v.resp))
            && u.selection == selections[i]
            && IssuedIak(v.resp.cardId, v.iakPem, Some(u.oiakCert)) in ph.owner.issue
            && KeyOfVerifiedLeaf(lib, found, others, v.resp.cardId, Bytes(v.resp.iakCert), v.iakPem)
            && (u.oidevidCert != "" ==>
                  && IssuedIDevID(v.resp.cardId, v.idevidPem, Some(u.oidevidCert)) in ph.owner.issue
                  && KeyOfVerifiedLeaf(
                       lib, PoolAfter(lib, found, Bytes(v.resp.iakCert)), others, v.resp.cardId,
                       Bytes(v.resp.idevidCert), v.idevidPem))
  {
    V.RotatedCertsComeFromVerifiedKeys(selections, verifyIDevID, p, ph, r, i);
    var v := ph.verified[i];
    if verifyIDevID {
      PairVerifiedAt(
        lib, pool, others, ph.verify, 2 * i + 1, v.resp.cardId, v.resp.iakCert, v.resp.idevidCert, (v.iakPem, v.idevidPem));
    } else {
      CertVerifiedAt(lib, pool, others, ph.verify, 2 * i + 1, v.resp.cardId, v.resp.iakCert, v.iakPem);
    }
  }
}
