/** EnrollSwitchWithHMACChallenge over all selected cards, and the order of its phases. */
module HmacWorkflow {
  import opened Common
  import opened Cards
  import opened Tpm20Types
  import opened EnrollzDeps
  import opened OwnerCerts
  import opened OwnerCertsProofs
  import opened HmacEnrollment

  /** A card that passed: the calls made for it, what they established, the keys in PEM. */
  datatype ChallengedCard = ChallengedCard(history: seq<Event>, id: Identity, iakPem: string, idevidPem: string)

  ghost predicate CardPassed(t: GoTpm, u: Tpm20Utils, selection: Option<Selection>, v: ChallengedCard) {
    && Finished(t, u, selection, v.history, Success(v.id))
    && u.publicToPem(v.id.iak) == Success(v.iakPem)
    && u.publicToPem(v.id.idevid) == Success(v.idevidPem)
  }

  /** The calls made for the card at which verification stopped. */
  ghost predicate CardFailed(t: GoTpm, u: Tpm20Utils, selection: Option<Selection>, h: seq<Event>) {
    exists r: Result<Identity> ::
      && Finished(t, u, selection, h, r)
      && (r.Success? ==> u.publicToPem(r.value.iak).Failure? || u.publicToPem(r.value.idevid).Failure?)
  }

  function CallsFor(vs: seq<ChallengedCard>): seq<Event> {
    if vs == [] then [] else CallsFor(vs[..|vs| - 1]) + vs[|vs| - 1].history
  }

  /** Every card passed, and calls is exactly the calls made for them, one card after the other. */
  ghost predicate AllPassed(t: GoTpm, u: Tpm20Utils, selections: seq<Option<Selection>>, vs: seq<ChallengedCard>, calls: seq<Event>) {
    && |vs| == |selections| && calls == CallsFor(vs)
    && forall i :: 0 <= i < |vs| ==> CardPassed(t, u, selections[i], vs[i])
  }

  ghost predicate StopsAtCard(
    t: GoTpm, u: Tpm20Utils, selections: seq<Option<Selection>>, vs: seq<ChallengedCard>, calls: seq<Event>, last: seq<Event>)
  {
    && |vs| < |selections| && calls == CallsFor(vs) + last
    && AllPassed(t, u, selections[..|vs|], vs, CallsFor(vs))
    && CardFailed(t, u, selections[|vs|], last)
  }

  function CardsOf(selections: seq<Option<Selection>>, vs: seq<ChallengedCard>): seq<CardData>
    requires |selections| == |vs|
  {
    seq(|vs|, i requires 0 <= i < |vs| => CardData(selections[i], vs[i].id.cardId, vs[i].iakPem, vs[i].idevidPem))
  }

  /** The phases of a run and what the verification phase found. */
  datatype Phases = Phases(verify: seq<Event>, passed: seq<ChallengedCard>, owner: Parts)

  ghost predicate HmacRun(
    t: GoTpm, u: Tpm20Utils, selections: seq<Option<Selection>>, profile: string, ph: Phases, r: Result<()>)
  {
    if !(1 <= |selections| <= 2) then
      r == Failure(InvalidRequest) && ph.verify == [] && ph.owner.issue == [] && ph.owner.rotate == []
    else if |ph.passed| == |selections| then
      && AllPassed(t, u, selections, ph.passed, ph.verify)
      && OwnerCertsRun(CardsOf(selections, ph.passed), Policy(profile, false), true, ph.owner, r)
    else
      && r.Failure? && ph.owner.issue == [] && ph.owner.rotate == []
      && exists last :: StopsAtCard(t, u, selections, ph.passed, ph.verify, last)
  }

  /** Verify one card and convert both keys; the two conversions are always both attempted. */
  method ChallengeCard(deps: Deps, t: GoTpm, u: Tpm20Utils, selection: Option<Selection>)
    returns (r: Result<CardData>, ghost v: ChallengedCard, ghost h: seq<Event>)
    modifies deps
    ensures deps.trace == old(deps.trace) + h
    ensures r.Success? ==> CardPassed(t, u, selection, v) && h == v.history
    ensures r.Success? ==> r.value == CardData(selection, v.id.cardId, v.iakPem, v.idevidPem)
    ensures r.Failure? ==> CardFailed(t, u, selection, h)
  {
    var identity, calls := VerifyIdentityWithHMACChallenge(deps, t, u, selection);
    h := calls;
    v := *;
    if identity.Failure? {
      return Failure(identity.error), v, h;
    }
    var id := identity.value;
    var iakPem := u.publicToPem(id.iak);
    var idevidPem := u.publicToPem(id.idevid);
    if iakPem.Failure? {
      return Failure(iakPem.error), v, h;
    }
    if idevidPem.Failure? {
      return Failure(idevidPem.error), v, h;
    }
    v := ChallengedCard(h, id, iakPem.value, idevidPem.value);
    r := Success(CardData(selection, id.cardId, iakPem.value, idevidPem.value));
  }

  lemma ExtendCards(selections: seq<Option<Selection>>, i: nat, vs: seq<ChallengedCard>, v: ChallengedCard)
    requires i < |selections| && |vs| == i
    ensures CardsOf(selections[..i + 1], vs + [v])
         == CardsOf(selections[..i], vs) + [CardData(selections[i], v.id.cardId, v.iakPem, v.idevidPem)]
  {
  }

  lemma ExtendPassed(
    t: GoTpm, u: Tpm20Utils, selections: seq<Option<Selection>>, i: nat, vs: seq<ChallengedCard>, calls: seq<Event>, v: ChallengedCard)
    requires i < |selections| && AllPassed(t, u, selections[..i], vs, calls) && CardPassed(t, u, selections[i], v)
    ensures AllPassed(t, u, selections[..i + 1], vs + [v], calls + v.history)
  {
    assert (vs + [v])[..i] == vs;
    forall j | 0 <= j < i + 1 ensures CardPassed(t, u, selections[..i + 1][j], (vs + [v])[j]) {
      if j < i {
        assert CardPassed(t, u, selections[..i][j], vs[j]);
      }
    }
  }

  lemma Append(before: seq<Event>, calls: seq<Event>, h: seq<Event>)
    ensures before + calls + h == before + (calls + h)
  {
  }

  /** The loop that challenges the selected cards one after the other. */
  method ChallengeCards(deps: Deps, t: GoTpm, u: Tpm20Utils, selections: seq<Option<Selection>>)
    returns (r: Result<seq<CardData>>, ghost vs: seq<ChallengedCard>, ghost calls: seq<Event>, ghost last: seq<Event>)
    modifies deps
    ensures deps.trace == old(deps.trace) + calls
    ensures r.Success? ==> AllPassed(t, u, selections, vs, calls) && r.value == CardsOf(selections, vs)
    ensures r.Failure? ==> StopsAtCard(t, u, selections, vs, calls, last)
  {
    var cards: seq<CardData> := [];
    vs, calls, last := [], [], [];
    for i := 0 to |selections|
      invariant deps.trace == old(deps.trace) + calls
      invariant AllPassed(t, u, selections[..i], vs, calls)
      invariant cards == CardsOf(selections[..i], vs)
    {
      var card, v, h := ChallengeCard(deps, t, u, selections[i]);
      Append(old(deps.trace), calls, h);
      if card.Failure? {
        return Failure(card.error), vs, calls + h, h;
      }
      ExtendPassed(t, u, selections, i, vs, calls, v);
      ExtendCards(selections, i, vs, v);
      cards, vs, calls := cards + [card.value], vs + [v], calls + h;
    }
    assert selections[..|selections|] == selections;
    r := Success(cards);
  }

  method EnrollSwitchWithHMACChallenge(
    deps: Deps, t: GoTpm, u: Tpm20Utils, selections: seq<Option<Selection>>, sslProfileId: string)
    returns (r: Result<()>, ghost ph: Phases)
    modifies deps
    ensures deps.trace == old(deps.trace) + ph.verify + ph.owner.issue + ph.owner.rotate
    ensures HmacRun(t, u, selections, sslProfileId, ph, r)
  {
    ph := Phases([], [], Parts([], [], []));
    if |selections| < 1 || |selections| > 2 {
      return Failure(InvalidRequest), ph;
    }
    var cards, vs, calls, last := ChallengeCards(deps, t, u, selections);
    ph := Phases(calls, vs, Parts([], [], []));
    if cards.Failure? {
      return Failure(cards.error), ph;
    }
    ghost var owner;
    r, owner := IssueAndRotateOwnerCerts(deps, cards.value, Policy(sslProfileId, false), true);
    ph := ph.(owner := owner);
  }

  // ----- Every run ---------------------------------------------------------------------------

  predicate IsChallengeCall(e: Event) {
    e.GotVendorId? || e.FetchedEk? || e.GeneratedHmacKey? || e.Challenged? || e.GotCsr?
  }

  lemma {:induction false} HistoryCalls(t: GoTpm, u: Tpm20Utils, selection: Option<Selection>, h: seq<Event>)
    requires History(t, u, selection, h)
    ensures forall e :: e in h ==> IsChallengeCall(e)
  {
    forall i | 0 <= i < |h| ensures IsChallengeCall(h[i]) {
      HistoryAt(t, u, selection, h, i);
    }
  }

  lemma {:induction false} CallsAreChallenges(t: GoTpm, u: Tpm20Utils, selections: seq<Option<Selection>>, vs: seq<ChallengedCard>)
    requires AllPassed(t, u, selections, vs, CallsFor(vs))
    ensures forall e :: e in CallsFor(vs) ==> IsChallengeCall(e)
  {
    if vs != [] {
      var n := |vs| - 1;
      assert CardPassed(t, u, selections[n], vs[n]);
      HistoryCalls(t, u, selections[n], vs[n].history);
      CallsAreChallenges(t, u, selections[..n], vs[..n]);
    }
  }

  /**
   Phase order in every run: nothing is issued before every selected card passed, nothing is
   rotated before every card's certificates are issued, the rotation is one atomic request, and
   a run that fails before that point sends no rotation.
   */
  lemma HmacPhasesInOrder(
    t: GoTpm, u: Tpm20Utils, selections: seq<Option<Selection>>, profile: string, ph: Phases, r: Result<()>)
    requires HmacRun(t, u, selections, profile, ph, r)
    ensures forall e :: e in ph.verify ==> IsChallengeCall(e)
    ensures forall e :: e in ph.owner.issue ==> IsIssue(e)
    ensures ph.owner.issue != [] || ph.owner.rotate != [] ==> AllPassed(t, u, selections, ph.passed, ph.verify)
    ensures ph.owner.rotate != [] ==>
      |ph.passed| == |selections| && AllIssued(CardsOf(selections, ph.passed), Policy(profile, false), ph.owner.updates, ph.owner.issue)
    ensures ph.owner.rotate != [] ==>
      ph.owner.rotate == [Rotated(RotateRequest(profile, None, "", "", ph.owner.updates), r.Success?)]
    ensures r.Success? ==> ph.owner.rotate != []
  {
    if 1 <= |selections| <= 2 {
      if |ph.passed| == |selections| {
        CallsAreChallenges(t, u, selections, ph.passed);
        NoRotationBeforeAllIssued(CardsOf(selections, ph.passed), Policy(profile, false), true, ph.owner, r);
      } else {
        var last :| StopsAtCard(t, u, selections, ph.passed, ph.verify, last);
        CallsAreChallenges(t, u, selections[..|ph.passed|], ph.passed);
        var result :| Finished(t, u, selections[|ph.passed|], last, result);
        HistoryCalls(t, u, selections[|ph.passed|], last);
      }
    }
  }

  /**
   From the challenge to the rotated certificates: whenever anything is rotated, the i-th update
   goes to the i-th selection, and its oIAK and oIDevID were issued for the card id and the keys
   that card's challenge established.
   */
  lemma RotatedCertsComeFromChallengedKeys(
    t: GoTpm, u: Tpm20Utils, selections: seq<Option<Selection>>, profile: string, ph: Phases, r: Result<()>, i: nat)
    requires HmacRun(t, u, selections, profile, ph, r) && ph.owner.rotate != [] && i < |selections|
    ensures |ph.passed| == |selections| == |ph.owner.updates|
    ensures var v, up := ph.passed[i], ph.owner.updates[i];
            && Finished(t, u, selections[i], v.history, Success(v.id))
            && up.selection == selections[i]
            && IssuedIak(v.id.cardId, v.iakPem, Some(up.oiakCert)) in ph.owner.issue
            && u.publicToPem(v.id.iak) == Success(v.iakPem)
            && u.publicToPem(v.id.idevid) == Success(v.idevidPem)
            && (if v.idevidPem == "" then up.oidevidCert == ""
                else profile != "" && IssuedIDevID(v.id.cardId, v.idevidPem, Some(up.oidevidCert)) in ph.owner.issue)
  {
    HmacPhasesInOrder(t, u, selections, profile, ph, r);
    assert CardPassed(t, u, selections[i], ph.passed[i]);
    UpdatesBoundToCards(CardsOf(selections, ph.passed), Policy(profile, false), true, ph.owner, r, i);
  }

  /** Exactly the runs that succeed: one or two cards that all pass, none rejected, and no failed call after that. */
  lemma HmacSucceedsExactly(
    t: GoTpm, u: Tpm20Utils, selections: seq<Option<Selection>>, profile: string, ph: Phases, r: Result<()>)
    requires HmacRun(t, u, selections, profile, ph, r)
    ensures r.Success? <==>
            && 1 <= |selections| <= 2 && |ph.passed| == |selections|
            && (forall e :: e in ph.owner.issue ==> !CallFailed(e)) && (forall e :: e in ph.owner.rotate ==> !CallFailed(e))
            && (forall i :: 0 <= i < |ph.passed| ==>
                  var v := ph.passed[i];
                  && v.id.cardId.Some? && selections[i].Some? && v.iakPem != ""
                  && (v.idevidPem == "" || profile != ""))
    ensures !(1 <= |selections| <= 2) ==>
      r == Failure(InvalidRequest) && ph.verify == [] && ph.owner.issue == [] && ph.owner.rotate == []
  {
    if 1 <= |selections| <= 2 && |ph.passed| == |selections| {
      var cards := CardsOf(selections, ph.passed);
      forall i | 0 <= i < |cards|
        ensures RejectedUnasked(cards[i], Policy(profile, false)) <==>
                var v := ph.passed[i];
                !(v.id.cardId.Some? && selections[i].Some? && v.iakPem != "" && (v.idevidPem == "" || profile != ""))
      {
      }
      OwnerCertsSucceedExactly(cards, Policy(profile, false), true, ph.owner, r);
    }
  }
}
