/**
 EnrollControlCard and RotateOwnerIakCert: verify every selected card with its vendor
 certificates, agree on the rotation mode, then issue and rotate.
 */
module VendorEnrollment {
  import opened Common
  import opened Cards
  import opened EnrollzDeps
  import opened OwnerCerts
  import opened OwnerCertsProofs

  /** What verification established about a card: the device's answer and the verified keys. */
  datatype VerifiedCard = VerifiedCard(resp: GetIakCertResponse, iakPem: string, idevidPem: string)

  function VerifyCall(v: VerifiedCard, verifyIDevID: bool, ok: bool): Event {
    if verifyIDevID then
      VerifiedIakAndIDevID(v.resp.cardId, v.resp.iakCert, v.resp.idevidCert, if ok then Some((v.iakPem, v.idevidPem)) else None)
    else
      VerifiedTpmCert(v.resp.cardId, v.resp.iakCert, if ok then Some(v.iakPem) else None)
  }

  /** The two calls that verify one card. */
  function CardChecks(selection: Option<Selection>, v: VerifiedCard, verifyIDevID: bool): seq<Event> {
    [GotIakCert(selection, Some(v.resp)), VerifyCall(v, verifyIDevID, true)]
  }

  function ChecksOf(selections: seq<Option<Selection>>, vs: seq<VerifiedCard>, verifyIDevID: bool): seq<Event>
    requires |selections| == |vs|
  {
    if vs == [] then []
    else
      var n := |vs| - 1;
      ChecksOf(selections[..n], vs[..n], verifyIDevID) + CardChecks(selections[n], vs[n], verifyIDevID)
  }

  ghost predicate AllVerified(selections: seq<Option<Selection>>, verifyIDevID: bool, vs: seq<VerifiedCard>, t: seq<Event>) {
    && |vs| == |selections|
    && (!verifyIDevID ==> forall i :: 0 <= i < |vs| ==> vs[i].idevidPem == "")
    && t == ChecksOf(selections, vs, verifyIDevID)
  }

  /** The calls made for the card at which verification stopped. */
  ghost predicate FailedCheck(selection: Option<Selection>, verifyIDevID: bool, t: seq<Event>) {
    || t == [GotIakCert(selection, None)]
    || exists v: VerifiedCard :: t == [GotIakCert(selection, Some(v.resp)), VerifyCall(v, verifyIDevID, false)]
  }

  ghost predicate StopsDuringVerification(
    selections: seq<Option<Selection>>, verifyIDevID: bool, vs: seq<VerifiedCard>, t: seq<Event>, before: seq<Event>)
  {
    && |vs| < |selections| && before <= t
    && AllVerified(selections[..|vs|], verifyIDevID, vs, before)
    && FailedCheck(selections[|vs|], verifyIDevID, t[|before|..])
  }

  /** The card data handed to the issuing phase. */
  function CardsOf(selections: seq<Option<Selection>>, vs: seq<VerifiedCard>): seq<CardData>
    requires |selections| == |vs|
  {
    seq(|vs|, i requires 0 <= i < |vs| => CardData(selections[i], vs[i].resp.cardId, vs[i].iakPem, vs[i].idevidPem))
  }

  predicate FlagsAgree(vs: seq<VerifiedCard>) {
    |vs| == 2 ==> vs[0].resp.atomicRotation == vs[1].resp.atomicRotation
  }

  /** The phases of a run and what the verification phase found. */
  datatype Phases = Phases(verify: seq<Event>, verified: seq<VerifiedCard>, owner: Parts)

  ghost predicate VendorRun(
    selections: seq<Option<Selection>>, verifyIDevID: bool, p: Policy, ph: Phases, r: Result<()>)
  {
    if !(1 <= |selections| <= 2) then
      r == Failure(InvalidRequest) && ph.verify == [] && NothingIssued(ph)
    else if !AllVerified(selections, verifyIDevID, ph.verified, ph.verify) then
      && r.Failure? && NothingIssued(ph)
      && exists before :: StopsDuringVerification(selections, verifyIDevID, ph.verified, ph.verify, before)
    else if !FlagsAgree(ph.verified) then
      r == Failure(AtomicMismatch) && NothingIssued(ph)
    else
      OwnerCertsRun(CardsOf(selections, ph.verified), p, ph.verified[0].resp.atomicRotation, ph.owner, r)
  }

  ghost predicate NothingIssued(ph: Phases) {
    ph.owner.issue == [] && ph.owner.rotate == []
  }

  method VerifyIdentityWithVendorCerts(deps: Deps, selection: Option<Selection>, verifyIDevID: bool)
    returns (r: Result<VerifiedCard>, ghost calls: seq<Event>)
    modifies deps
    ensures deps.trace == old(deps.trace) + calls
    ensures r.Success? ==> calls == CardChecks(selection, r.value, verifyIDevID) && (!verifyIDevID ==> r.value.idevidPem == "")
    ensures r.Failure? ==> FailedCheck(selection, verifyIDevID, calls)
  {
    var resp := deps.GetIakCert(selection);
    calls := [GotIakCert(selection, resp)];
    if resp.None? {
      return Failure(Dependency), calls;
    }
    var v := VerifiedCard(resp.value, "", "");
    if verifyIDevID {
      var pems := deps.VerifyIakAndIDevIDCerts(v.resp.cardId, v.resp.iakCert, v.resp.idevidCert);
      calls := calls + [VerifiedIakAndIDevID(v.resp.cardId, v.resp.iakCert, v.resp.idevidCert, pems)];
      if pems.None? {
        assert calls == [GotIakCert(selection, Some(v.resp)), VerifyCall(v, verifyIDevID, false)];
        return Failure(Dependency), calls;
      }
      v := v.(iakPem := pems.value.0, idevidPem := pems.value.1);
    } else {
      var pem := deps.VerifyTpmCert(v.resp.cardId, v.resp.iakCert);
      calls := calls + [VerifiedTpmCert(v.resp.cardId, v.resp.iakCert, pem)];
      if pem.None? {
        assert calls == [GotIakCert(selection, Some(v.resp)), VerifyCall(v, verifyIDevID, false)];
        return Failure(Dependency), calls;
      }
      v := v.(iakPem := pem.value);
    }
    r := Success(v);
  }

  lemma ExtendVerified(
    selections: seq<Option<Selection>>, i: nat, verifyIDevID: bool, vs: seq<VerifiedCard>, t: seq<Event>, v: VerifiedCard)
    requires i < |selections| && AllVerified(selections[..i], verifyIDevID, vs, t)
    requires !verifyIDevID ==> v.idevidPem == ""
    ensures AllVerified(selections[..i + 1], verifyIDevID, vs + [v], t + CardChecks(selections[i], v, verifyIDevID))
  {
    assert selections[..i + 1][..i] == selections[..i];
    assert (vs + [v])[..i] == vs;
  }

  /** The verification loop both workflows start with. */
  method VerifyCards(deps: Deps, selections: seq<Option<Selection>>, verifyIDevID: bool)
    returns (r: Result<seq<VerifiedCard>>, ghost vs: seq<VerifiedCard>, ghost t: seq<Event>)
    modifies deps
    ensures deps.trace == old(deps.trace) + t
    ensures r.Success? ==> r.value == vs && AllVerified(selections, verifyIDevID, vs, t)
    ensures r.Failure? ==> !AllVerified(selections, verifyIDevID, vs, t)
    ensures r.Failure? ==> exists before :: StopsDuringVerification(selections, verifyIDevID, vs, t, before)
  {
    var found: seq<VerifiedCard> := [];
    t := [];
    for i := 0 to |selections|
      invariant deps.trace == old(deps.trace) + t
      invariant AllVerified(selections[..i], verifyIDevID, found, t)
    {
      var v, calls := VerifyIdentityWithVendorCerts(deps, selections[i], verifyIDevID);
      if v.Failure? {
        vs := found;
        assert (t + calls)[|t|..] == calls;
        assert StopsDuringVerification(selections, verifyIDevID, vs, t + calls, t);
        return Failure(v.error), vs, t + calls;
      }
      ExtendVerified(selections, i, verifyIDevID, found, t, v.value);
      found, t := found + [v.value], t + calls;
    }
    assert selections[..|selections|] == selections;
    vs := found;
    r := Success(found);
  }

  /** The body shared by the two workflows. */
  method VerifyThenRotate(deps: Deps, selections: seq<Option<Selection>>, verifyIDevID: bool, p: Policy)
    returns (r: Result<()>, ghost ph: Phases)
    modifies deps
    ensures deps.trace == old(deps.trace) + ph.verify + ph.owner.issue + ph.owner.rotate
    ensures VendorRun(selections, verifyIDevID, p, ph, r)
  {
    ph := Phases([], [], Parts([], [], []));
    if |selections| == 0 || |selections| > 2 {
      return Failure(InvalidRequest), ph;
    }
    var verified, vs, t := VerifyCards(deps, selections, verifyIDevID);
    ph := Phases(t, vs, Parts([], [], []));
    if verified.Failure? {
      return Failure(verified.error), ph;
    }
    var found := verified.value;
    if |found| == 2 {
      if found[0].resp.atomicRotation != found[1].resp.atomicRotation {
        return Failure(AtomicMismatch), ph;
      }
    }
    ghost var owner;
    r, owner := IssueAndRotateOwnerCerts(deps, CardsOf(selections, found), p, found[0].resp.atomicRotation);
    ph := ph.(owner := owner);
  }

  /** With the oIDevID rotation skipped, no run asks the CA for one. */
  lemma SkippedAsksNoIDevID(selections: seq<Option<Selection>>, verifyIDevID: bool, p: Policy, ph: Phases, r: Result<()>)
    requires VendorRun(selections, verifyIDevID, p, ph, r) && p.skipOidevid
    ensures forall e :: e in ph.owner.issue ==> !e.IssuedIDevID?
  {
    if 1 <= |selections| <= 2 && AllVerified(selections, verifyIDevID, ph.verified, ph.verify) && FlagsAgree(ph.verified) {
      OwnerCertsProofs.SkippedAsksNoIDevID(
        CardsOf(selections, ph.verified), p, ph.verified[0].resp.atomicRotation, ph.owner, r);
    }
  }

  /** Initial enrollment: the IDevID certificate is always verified. */
  method EnrollControlCard(deps: Deps, selections: seq<Option<Selection>>, sslProfileId: string, skipOidevidRotate: bool)
    returns (r: Result<()>, ghost ph: Phases)
    modifies deps
    ensures deps.trace == old(deps.trace) + ph.verify + ph.owner.issue + ph.owner.rotate
    ensures VendorRun(selections, true, Policy(sslProfileId, skipOidevidRotate), ph, r)
    ensures skipOidevidRotate ==> forall e :: e in ph.owner.issue ==> !e.IssuedIDevID?
  {
    r, ph := VerifyThenRotate(deps, selections, true, Policy(sslProfileId, skipOidevidRotate));
    if skipOidevidRotate {
      SkippedAsksNoIDevID(selections, true, Policy(sslProfileId, skipOidevidRotate), ph, r);
    }
  }

  /** Rotation after installation: IDevID verification and oIDevID rotation go together. */
  method RotateOwnerIakCert(deps: Deps, selections: seq<Option<Selection>>, sslProfileId: string, enableOidevidRotate: bool)
    returns (r: Result<()>, ghost ph: Phases)
    modifies deps
    ensures deps.trace == old(deps.trace) + ph.verify + ph.owner.issue + ph.owner.rotate
    ensures VendorRun(selections, enableOidevidRotate, Policy(sslProfileId, !enableOidevidRotate), ph, r)
    ensures !enableOidevidRotate ==> forall e :: e in ph.owner.issue ==> !e.IssuedIDevID?
  {
    r, ph := VerifyThenRotate(deps, selections, enableOidevidRotate, Policy(sslProfileId, !enableOidevidRotate));
    if !enableOidevidRotate {
      SkippedAsksNoIDevID(selections, enableOidevidRotate, Policy(sslProfileId, !enableOidevidRotate), ph, r);
    }
  }

  // ----- Every run ---------------------------------------------------------------------------

  predicate IsCheck(e: Event) {
    e.GotIakCert? || e.VerifiedIakAndIDevID? || e.VerifiedTpmCert?
  }

  lemma {:induction false} ChecksAreChecks(selections: seq<Option<Selection>>, vs: seq<VerifiedCard>, verifyIDevID: bool)
    requires |selections| == |vs|
    ensures forall e :: e in ChecksOf(selections, vs, verifyIDevID) ==> IsCheck(e)
  {
    if vs != [] {
      ChecksAreChecks(selections[..|vs| - 1], vs[..|vs| - 1], verifyIDevID);
    }
  }

  /**
   Phase order in every run: nothing is issued before every selected card is verified and the
   atomic flags agree, nothing is rotated before every card's certificates are issued, and a
   run that fails before that point sends no rotation.
   */
  lemma PhasesInOrder(selections: seq<Option<Selection>>, verifyIDevID: bool, p: Policy, ph: Phases, r: Result<()>)
    requires VendorRun(selections, verifyIDevID, p, ph, r)
    ensures forall e :: e in ph.verify ==> IsCheck(e)
    ensures forall e :: e in ph.owner.issue ==> IsIssue(e)
    ensures forall e :: e in ph.owner.rotate ==> e.Rotated?
    ensures ph.owner.issue != [] || ph.owner.rotate != [] ==>
      AllVerified(selections, verifyIDevID, ph.verified, ph.verify) && FlagsAgree(ph.verified)
    ensures ph.owner.rotate != [] ==>
      |ph.verified| == |selections| && AllIssued(CardsOf(selections, ph.verified), p, ph.owner.updates, ph.owner.issue)
    ensures r.Success? ==> ph.owner.rotate != []
  {
    if 1 <= |selections| <= 2 {
      if AllVerified(selections, verifyIDevID, ph.verified, ph.verify) {
        ChecksAreChecks(selections, ph.verified, verifyIDevID);
        if FlagsAgree(ph.verified) {
          NoRotationBeforeAllIssued(CardsOf(selections, ph.verified), p, ph.verified[0].resp.atomicRotation, ph.owner, r);
        }
      } else {
        var before :| StopsDuringVerification(selections, verifyIDevID, ph.verified, ph.verify, before);
        ChecksAreChecks(selections[..|ph.verified|], ph.verified, verifyIDevID);
        assert ph.verify == before + ph.verify[|before|..];
      }
    }
  }

  /**
   The two calls of each card, with their arguments and answers: the device is asked for its
   certificates, and the verifier is given the reported card id and exactly those, the IAK
   certificate as such and the IDevID certificate as such.
   */
  lemma {:induction false} ChecksAt(selections: seq<Option<Selection>>, vs: seq<VerifiedCard>, verifyIDevID: bool, i: nat)
    requires |selections| == |vs| && i < |vs|
    ensures var t, v := ChecksOf(selections, vs, verifyIDevID), vs[i];
            && |t| == 2 * |vs|
            && t[2 * i] == GotIakCert(selections[i], Some(v.resp))
            && t[2 * i + 1] ==
               if verifyIDevID then
                 VerifiedIakAndIDevID(v.resp.cardId, v.resp.iakCert, v.resp.idevidCert, Some((v.iakPem, v.idevidPem)))
               else VerifiedTpmCert(v.resp.cardId, v.resp.iakCert, Some(v.iakPem))
  {
    var n := |vs| - 1;
    ChecksLength(selections[..n], vs[..n], verifyIDevID);
    if i < n {
      ChecksAt(selections[..n], vs[..n], verifyIDevID, i);
    }
  }

  lemma {:induction false} ChecksLength(selections: seq<Option<Selection>>, vs: seq<VerifiedCard>, verifyIDevID: bool)
    requires |selections| == |vs|
    ensures |ChecksOf(selections, vs, verifyIDevID)| == 2 * |vs|
  {
    if vs != [] {
      ChecksLength(selections[..|vs| - 1], vs[..|vs| - 1], verifyIDevID);
    }
  }

  /**
   From the device's own certificate to the rotated one: whenever anything is rotated, the i-th
   update goes to the i-th selected card, and its certificates were issued for the id that card
   reported and the keys the verifier accepted in that card's own certificates, each in its role.
   */
  lemma RotatedCertsComeFromVerifiedKeys(
    selections: seq<Option<Selection>>, verifyIDevID: bool, p: Policy, ph: Phases, r: Result<()>, i: nat)
    requires VendorRun(selections, verifyIDevID, p, ph, r) && ph.owner.rotate != [] && i < |selections|
    ensures |ph.verified| == |selections| == |ph.owner.updates| && |ph.verify| == 2 * |selections|
    ensures var v, u := ph.verified[i], ph.owner.updates[i];
            && ph.verify[2 * i] == GotIakCert(selections[i], Some(v.resp))
            && ph.verify[2 * i + 1] ==
               (if verifyIDevID then
                  VerifiedIakAndIDevID(v.resp.cardId, v.resp.iakCert, v.resp.idevidCert, Some((v.iakPem, v.idevidPem)))
                else VerifiedTpmCert(v.resp.cardId, v.resp.iakCert, Some(v.iakPem)))
            && u.selection == selections[i]
            && IssuedIak(v.resp.cardId, v.iakPem, Some(u.oiakCert)) in ph.owner.issue
            && (if p.skipOidevid || !verifyIDevID || v.idevidPem == "" then u.oidevidCert == ""
                else p.sslProfileId != "" && IssuedIDevID(v.resp.cardId, v.idevidPem, Some(u.oidevidCert)) in ph.owner.issue)
  {
    PhasesInOrder(selections, verifyIDevID, p, ph, r);
    ChecksAt(selections, ph.verified, verifyIDevID, i);
    UpdatesBoundToCards(CardsOf(selections, ph.verified), p, ph.verified[0].resp.atomicRotation, ph.owner, r, i);
  }

  /** The requests sent to the device are in the mode all cards report, with this profile. */
  lemma RotatesInReportedMode(
    selections: seq<Option<Selection>>, verifyIDevID: bool, p: Policy, ph: Phases, r: Result<()>, j: nat)
    requires VendorRun(selections, verifyIDevID, p, ph, r) && j < |ph.owner.rotate|
    ensures |ph.verified| == |selections| == |ph.owner.updates|
    ensures ph.owner.rotate[j].Rotated?
    ensures SameMode(ph.verified)
    ensures ph.owner.rotate[j].request ==
            if ph.verified[0].resp.atomicRotation then RotateRequest(p.sslProfileId, None, "", "", ph.owner.updates)
            else
              var u := ph.owner.updates[j];
              RotateRequest(p.sslProfileId, u.selection, u.oiakCert, u.oidevidCert, [])
  {
    PhasesInOrder(selections, verifyIDevID, p, ph, r);
    NoRotationBeforeAllIssued(CardsOf(selections, ph.verified), p, ph.verified[0].resp.atomicRotation, ph.owner, r);
  }

  lemma {:induction false} ChecksSucceeded(selections: seq<Option<Selection>>, vs: seq<VerifiedCard>, verifyIDevID: bool, e: Event)
    requires |selections| == |vs| && e in ChecksOf(selections, vs, verifyIDevID)
    ensures !CallFailed(e)
  {
    var n := |vs| - 1;
    if e !in CardChecks(selections[n], vs[n], verifyIDevID) {
      ChecksSucceeded(selections[..n], vs[..n], verifyIDevID, e);
    }
  }

  lemma VerificationStoppedByFailure(
    selections: seq<Option<Selection>>, verifyIDevID: bool, vs: seq<VerifiedCard>, t: seq<Event>, before: seq<Event>)
    requires StopsDuringVerification(selections, verifyIDevID, vs, t, before)
    ensures exists e :: e in t && CallFailed(e)
  {
    var tail := t[|before|..];
    var e := tail[|tail| - 1];
    assert e in t && CallFailed(e);
  }

  predicate SameMode(vs: seq<VerifiedCard>) {
    forall i, k :: 0 <= i < k < |vs| ==> vs[i].resp.atomicRotation == vs[k].resp.atomicRotation
  }

  /** The issuing phase rejects this card before asking the CA. */
  predicate CardRejected(v: VerifiedCard, selection: Option<Selection>, p: Policy) {
    || v.resp.cardId.None? || selection.None? || v.iakPem == ""
    || (!p.skipOidevid && v.idevidPem != "" && p.sslProfileId == "")
  }

  /**
   Exactly the runs that succeed: one or two cards, no call failed, all cards report the same
   mode, and no card is rejected.
   */
  lemma VendorSucceedsExactly(selections: seq<Option<Selection>>, verifyIDevID: bool, p: Policy, ph: Phases, r: Result<()>)
    requires VendorRun(selections, verifyIDevID, p, ph, r)
    ensures r.Success? <==>
            && 1 <= |selections| <= 2 && |ph.verified| == |selections|
            && (forall e :: e in ph.verify ==> !CallFailed(e))
            && (forall e :: e in ph.owner.issue ==> !CallFailed(e))
            && (forall e :: e in ph.owner.rotate ==> !CallFailed(e))
            && SameMode(ph.verified)
            && (forall i :: 0 <= i < |ph.verified| ==> !CardRejected(ph.verified[i], selections[i], p))
    ensures !(1 <= |selections| <= 2) ==>
      r == Failure(InvalidRequest) && ph.verify == [] && ph.owner.issue == [] && ph.owner.rotate == []
  {
    if 1 <= |selections| <= 2 {
      if !AllVerified(selections, verifyIDevID, ph.verified, ph.verify) {
        var before :| StopsDuringVerification(selections, verifyIDevID, ph.verified, ph.verify, before);
        VerificationStoppedByFailure(selections, verifyIDevID, ph.verified, ph.verify, before);
      } else if FlagsAgree(ph.verified) {
        forall e | e in ph.verify ensures !CallFailed(e) {
          ChecksSucceeded(selections, ph.verified, verifyIDevID, e);
        }
        var cards := CardsOf(selections, ph.verified);
        forall i | 0 <= i < |cards| ensures RejectedUnasked(cards[i], p) == CardRejected(ph.verified[i], selections[i], p) {
        }
        OwnerCertsSucceedExactly(cards, p, ph.verified[0].resp.atomicRotation, ph.owner, r);
      }
    }
  }
}
