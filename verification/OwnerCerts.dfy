/**
 issueAndRotateOwnerCerts and rotateOIakCert for card lists of any length: which calls a run
 may consist of, how each update is bound to its card, and what the device ends up with.
 */
module OwnerCerts {
  import opened Common
  import opened Cards
  import opened EnrollzDeps

  datatype CardData = CardData(selection: Option<Selection>, cardId: Option<CardId>, iakPem: string, idevidPem: string)

  /** The inputs of the issuing phase besides the cards. */
  datatype Policy = Policy(sslProfileId: string, skipOidevid: bool)

  // ----- Issuing -----------------------------------------------------------------------------

  predicate Complete(card: CardData) {
    card.cardId.Some? && card.selection.Some? && card.iakPem != ""
  }

  /** No oIDevID is requested for this card. */
  predicate NoIDevID(card: CardData, p: Policy) {
    p.skipOidevid || card.idevidPem == ""
  }

  /** The update carries the card's own selection, and no oIDevID when none is requested. */
  predicate Binds(card: CardData, u: CertUpdate, p: Policy) {
    && Complete(card)
    && u.selection == card.selection
    && (if NoIDevID(card, p) then u.oidevidCert == "" else p.sslProfileId != "")
  }

  /** The CA calls behind an update: for this card's id and keys, answered with its certs. */
  function CardCalls(card: CardData, u: CertUpdate, p: Policy): seq<Event> {
    (if NoIDevID(card, p) then [] else [IssuedIDevID(card.cardId, card.idevidPem, Some(u.oidevidCert))])
    + [IssuedIak(card.cardId, card.iakPem, Some(u.oiakCert))]
  }

  function IssueCalls(cards: seq<CardData>, updates: seq<CertUpdate>, p: Policy): seq<Event>
    requires |cards| == |updates|
  {
    if cards == [] then []
    else
      var n := |cards| - 1;
      IssueCalls(cards[..n], updates[..n], p) + CardCalls(cards[n], updates[n], p)
  }

  /** Every card was issued for: t is exactly the CA calls behind the updates. */
  ghost predicate AllIssued(cards: seq<CardData>, p: Policy, updates: seq<CertUpdate>, t: seq<Event>) {
    && |updates| == |cards|
    && (forall i :: 0 <= i < |cards| ==> Binds(cards[i], updates[i], p))
    && t == IssueCalls(cards, updates, p)
  }

  /** The calls made for the card at which issuing stopped. */
  ghost predicate StopsAt(card: CardData, p: Policy, t: seq<Event>) {
    || (t == [] && (!Complete(card) || (!NoIDevID(card, p) && p.sslProfileId == "")))
    || (Complete(card) && !NoIDevID(card, p) && p.sslProfileId != ""
        && t == [IssuedIDevID(card.cardId, card.idevidPem, None)])
    || (Complete(card) && NoIDevID(card, p) && t == [IssuedIak(card.cardId, card.iakPem, None)])
    || (Complete(card) && !NoIDevID(card, p) && p.sslProfileId != ""
        && exists c :: t == [IssuedIDevID(card.cardId, card.idevidPem, Some(c)), IssuedIak(card.cardId, card.iakPem, None)])
  }

  // ----- Rotating ----------------------------------------------------------------------------

  function CardRequest(profile: string, u: CertUpdate): RotateRequest {
    RotateRequest(profile, u.selection, u.oiakCert, u.oidevidCert, [])
  }

  /** One batched request, or one request per card in list order. */
  function RotateRequests(profile: string, updates: seq<CertUpdate>, atomic: bool): seq<RotateRequest> {
    if atomic then [RotateRequest(profile, None, "", "", updates)]
    else seq(|updates|, i requires 0 <= i < |updates| => CardRequest(profile, updates[i]))
  }

  /** t sends the requests in order and stops at the first refusal. */
  ghost predicate SendsInOrder(requests: seq<RotateRequest>, t: seq<Event>, ok: bool) {
    && |t| <= |requests|
    && (forall i :: 0 <= i < |t| ==> t[i].Rotated? && t[i].request == requests[i])
    && (forall i :: 0 <= i < |t| - 1 ==> t[i].ok)
    && (if ok then |t| == |requests| && (t != [] ==> t[|t| - 1].ok)
        else t != [] && !t[|t| - 1].ok)
  }

  // ----- The runs ----------------------------------------------------------------------------

  /** How a run divides: calls to the CA, requests to the device, and the updates between them. */
  datatype Parts = Parts(issue: seq<Event>, rotate: seq<Event>, updates: seq<CertUpdate>)

  /**
   Every run of issueAndRotateOwnerCerts: it stops at the empty list, at some card, at some
   request, or goes through.
   */
  ghost predicate OwnerCertsRun(cards: seq<CardData>, p: Policy, atomic: bool, parts: Parts, r: Result<()>) {
    if cards == [] || !IssuedCompletely(cards, p, parts) then
      && r.Failure? && parts.rotate == []
      && (if cards == [] then parts.issue == [] else StopsDuringIssue(cards, p, parts))
    else
      SendsInOrder(RotateRequests(p.sslProfileId, parts.updates, atomic), parts.rotate, r.Success?)
  }

  ghost predicate IssuedCompletely(cards: seq<CardData>, p: Policy, parts: Parts) {
    AllIssued(cards, p, parts.updates, parts.issue)
  }

  ghost predicate StopsDuringIssue(cards: seq<CardData>, p: Policy, parts: Parts) {
    exists before :: StopsAfter(cards, p, parts, before)
  }

  ghost predicate StopsAfter(cards: seq<CardData>, p: Policy, parts: Parts, before: seq<Event>) {
    var k := |parts.updates|;
    && k < |cards| && before <= parts.issue
    && AllIssued(cards[..k], p, parts.updates, before)
    && StopsAt(cards[k], p, parts.issue[|before|..])
  }

  method IssueOwnerIDevIDCert(deps: Deps, card: CardData, p: Policy) returns (r: Result<string>)
    modifies deps
    ensures NoIDevID(card, p) ==> r == Success("") && deps.trace == old(deps.trace)
    ensures !NoIDevID(card, p) && p.sslProfileId == "" ==> r == Failure(EmptyField) && deps.trace == old(deps.trace)
    ensures !NoIDevID(card, p) && p.sslProfileId != "" ==>
      deps.trace == old(deps.trace)
        + [IssuedIDevID(card.cardId, card.idevidPem, if r.Success? then Some(r.value) else None)]
  {
    if p.skipOidevid || card.idevidPem == "" {
      return Success("");
    }
    if p.sslProfileId == "" {
      return Failure(EmptyField);
    }
    var resp := deps.IssueOwnerIDevIDCert(card.cardId, card.idevidPem);
    if resp.None? {
      return Failure(Dependency);
    }
    r := Success(resp.value);
  }

  method IssueOwnerIakCert(deps: Deps, card: CardData) returns (r: Result<string>)
    modifies deps
    ensures deps.trace == old(deps.trace)
      + [IssuedIak(card.cardId, card.iakPem, if r.Success? then Some(r.value) else None)]
  {
    var resp := deps.IssueOwnerIakCert(card.cardId, card.iakPem);
    if resp.None? {
      return Failure(Dependency);
    }
    r := Success(resp.value);
  }

  method RotateOIakCert(deps: Deps, profile: string, updates: seq<CertUpdate>, atomic: bool)
    returns (r: Result<()>, ghost t: seq<Event>)
    modifies deps
    ensures deps.trace == old(deps.trace) + t
    ensures updates == [] ==> r == Failure(EmptyField) && t == []
    ensures updates != [] ==> SendsInOrder(RotateRequests(profile, updates, atomic), t, r.Success?)
  {
    t := [];
    if |updates| == 0 {
      return Failure(EmptyField), t;
    }
    if atomic {
      var request := RotateRequest(profile, None, "", "", updates);
      var ok := deps.RotateOIakCert(request);
      t := [Rotated(request, ok)];
      if !ok {
        return Failure(Dependency), t;
      }
    } else {
      for i := 0 to |updates|
        invariant |t| == i && deps.trace == old(deps.trace) + t
        invariant forall j :: 0 <= j < i ==>
          t[j].Rotated? && t[j].request == RotateRequests(profile, updates, atomic)[j] && t[j].ok
      {
        var request := RotateRequest(profile, updates[i].selection, updates[i].oiakCert, updates[i].oidevidCert, []);
        var ok := deps.RotateOIakCert(request);
        t := t + [Rotated(request, ok)];
        if !ok {
          return Failure(Dependency), t;
        }
      }
    }
    r := Success(());
  }

  /** Adding a card's calls to a finished prefix. */
  lemma ExtendIssued(cards: seq<CardData>, i: nat, p: Policy, updates: seq<CertUpdate>, t: seq<Event>, u: CertUpdate)
    requires i < |cards| && AllIssued(cards[..i], p, updates, t) && Binds(cards[i], u, p)
    ensures AllIssued(cards[..i + 1], p, updates + [u], t + CardCalls(cards[i], u, p))
  {
    assert cards[..i + 1][..i] == cards[..i];
    assert (updates + [u])[..i] == updates;
  }

  lemma Stopped(cards: seq<CardData>, i: nat, p: Policy, updates: seq<CertUpdate>, t: seq<Event>, tail: seq<Event>)
    requires i < |cards| && AllIssued(cards[..i], p, updates, t) && StopsAt(cards[i], p, tail)
    ensures StopsDuringIssue(cards, p, Parts(t + tail, [], updates))
    ensures !IssuedCompletely(cards, p, Parts(t + tail, [], updates))
  {
    assert (t + tail)[|t|..] == tail;
    assert StopsAfter(cards, p, Parts(t + tail, [], updates), t);
  }

  /** The body of the issuing loop for one card: validate, then oIDevID, then oIAK. */
  method IssueForCard(deps: Deps, card: CardData, p: Policy) returns (r: Result<CertUpdate>, ghost calls: seq<Event>)
    modifies deps
    ensures deps.trace == old(deps.trace) + calls
    ensures r.Success? ==> Binds(card, r.value, p) && calls == CardCalls(card, r.value, p)
    ensures r.Failure? ==> StopsAt(card, p, calls)
  {
    calls := [];
    if card.cardId.None? || card.selection.None? || card.iakPem == "" {
      return Failure(EmptyField), calls;
    }
    var oidevidCert := IssueOwnerIDevIDCert(deps, card, p);
    calls := deps.trace[|old(deps.trace)|..];
    if oidevidCert.Failure? {
      return Failure(oidevidCert.error), calls;
    }
    var oiakCert := IssueOwnerIakCert(deps, card);
    calls := deps.trace[|old(deps.trace)|..];
    if oiakCert.Failure? {
      return Failure(oiakCert.error), calls;
    }
    r := Success(CertUpdate(card.selection, oiakCert.value, oidevidCert.value));
  }

  method IssueAndRotateOwnerCerts(deps: Deps, cards: seq<CardData>, p: Policy, atomic: bool)
    returns (r: Result<()>, ghost parts: Parts)
    modifies deps
    ensures deps.trace == old(deps.trace) + parts.issue + parts.rotate
    ensures OwnerCertsRun(cards, p, atomic, parts, r)
  {
    parts := Parts([], [], []);
    if |cards| == 0 {
      return Failure(EmptyField), parts;
    }
    var updates: seq<CertUpdate> := [];
    ghost var t: seq<Event> := [];
    for i := 0 to |cards|
      invariant deps.trace == old(deps.trace) + t
      invariant AllIssued(cards[..i], p, updates, t)
    {
      var update, calls := IssueForCard(deps, cards[i], p);
      if update.Failure? {
        Stopped(cards, i, p, updates, t, calls);
        return Failure(update.error), Parts(t + calls, [], updates);
      }
      ExtendIssued(cards, i, p, updates, t, update.value);
      updates, t := updates + [update.value], t + calls;
    }
    assert cards[..|cards|] == cards;
    ghost var rotate;
    r, rotate := RotateOIakCert(deps, p.sslProfileId, updates, atomic);
    parts := Parts(t, rotate, updates);
  }
}
