/** The HMAC workflow against the untrusted network: which TPM the rotated certificates are for. */
module HmacEndToEnd {
  import opened Common
  import opened Cards
  import opened EnrollzDeps
  import opened ChainOfTrust
  import opened ChainOfTrustProofs
  import H = HmacEnrollment
  import W = HmacWorkflow

  /** The histories of the passed cards are those of sessions in this world. */
  ghost predicate RanIn(w: World, selections: seq<Option<Selection>>, passed: seq<W.ChallengedCard>)
    requires |selections| == |passed|
  {
    forall i :: 0 <= i < |passed| ==> RanAs(w, Session(selections[i], passed[i].history))
  }

  ghost predicate RanAs(w: World, s: Session) {
    exists id :: id in w.sessions && w.sessions[id] == s
  }

  /** One TPM holds the endorsement key fetched for the card, its IAK and its IDevID key. */
  ghost predicate OnOneTpm(n: Net, w: World, v: W.ChallengedCard) {
    && H.Shaped(v.history) && |v.history| == 5
    && exists tpm :: HoldsIak(n, w, v.history, v.id, tpm) && HoldsIdevid(n, w, v.id, tpm)
  }

  /**
   End to end over all runs of TPMs, network and workflow: whenever anything is rotated, the i-th
   selected card gets an oIAK, and an oIDevID, issued for keys that are on the TPM holding the
   endorsement key the RoT database has for that card, certified there.
   */
  lemma RotatedCertsAreForTpmKeys(
    n: Net, run: seq<Action>, w: World, selections: seq<Option<Selection>>, profile: string, ph: W.Phases, r: Result<()>, i: nat)
    requires Injective(n) && Sealing(n) && n.u == DefaultUtils(n.t, n.c) && Reaches(n, run, w)
    requires W.HmacRun(n.t, n.u, selections, profile, ph, r) && ph.owner.rotate != [] && i < |selections|
    requires |selections| == |ph.passed| ==> RanIn(w, selections, ph.passed)
    ensures |ph.passed| == |selections| == |ph.owner.updates|
    ensures OnOneTpm(n, w, ph.passed[i])
    ensures var v, up := ph.passed[i], ph.owner.updates[i];
            && up.selection == selections[i]
            && n.u.publicToPem(v.id.iak) == Success(v.iakPem)
            && IssuedIak(v.id.cardId, v.iakPem, Some(up.oiakCert)) in ph.owner.issue
            && n.u.publicToPem(v.id.idevid) == Success(v.idevidPem)
            && (if v.idevidPem == "" then up.oidevidCert == ""
                else IssuedIDevID(v.id.cardId, v.idevidPem, Some(up.oidevidCert)) in ph.owner.issue)
  {
    W.RotatedCertsComeFromChallengedKeys(n.t, n.u, selections, profile, ph, r, i);
    var v := ph.passed[i];
    assert RanAs(w, Session(selections[i], v.history));
    var session :| session in w.sessions && w.sessions[session] == Session(selections[i], v.history);
    ChainOfTrustHolds(n, run, w, session, v.id);
  }
}
