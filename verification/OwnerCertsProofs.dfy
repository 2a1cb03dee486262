/** What every run of the issue-and-rotate phase guarantees. */
module OwnerCertsProofs {
  import opened Common
  import opened Cards
  import opened EnrollzDeps
  import opened OwnerCerts

  // ----- Order -------------------------------------------------------------------------------

  predicate IsIssue(e: Event) {
    e.IssuedIDevID? || e.IssuedIak?
  }

  lemma {:induction false} IssueCallsAreIssues(cards: seq<CardData>, updates: seq<CertUpdate>, p: Policy)
    requires |cards| == |updates|
    ensures forall e :: e in IssueCalls(cards, updates, p) ==> IsIssue(e)
  {
    if cards != [] {
      IssueCallsAreIssues(cards[..|cards| - 1], updates[..|cards| - 1], p);
    }
  }

  /**
   No rotation is requested before every card's certificates are issued: the CA calls all come
   first, and if there is any request at all, they are exactly the calls for all the cards.
   */
  lemma NoRotationBeforeAllIssued(cards: seq<CardData>, p: Policy, atomic: bool, parts: Parts, r: Result<()>)
    requires OwnerCertsRun(cards, p, atomic, parts, r)
    ensures forall e :: e in parts.issue ==> IsIssue(e)
    ensures forall e :: e in parts.rotate ==> e.Rotated?
    ensures parts.rotate != [] ==> AllIssued(cards, p, parts.updates, parts.issue)
    ensures r.Success? ==> parts.rotate != []
  {
    if cards == [] {
    } else if AllIssued(cards, p, parts.updates, parts.issue) {
      IssueCallsAreIssues(cards, parts.updates, p);
      assert |RotateRequests(p.sslProfileId, parts.updates, atomic)| > 0;
    } else {
      var before :| StopsAfter(cards, p, parts, before);
      var k := |parts.updates|;
      IssueCallsAreIssues(cards[..k], parts.updates, p);
      assert parts.issue == before + parts.issue[|before|..];
    }
  }

  // ----- Bad cards ---------------------------------------------------------------------------

  /** Validation or a missing profile stops the card before any call to the CA. */
  predicate RejectedUnasked(card: CardData, p: Policy) {
    || card.cardId.None? || card.selection.None? || card.iakPem == ""
    || (!p.skipOidevid && card.idevidPem != "" && p.sslProfileId == "")
  }

  /** A call the environment failed. */
  predicate CallFailed(e: Event) {
    match e
    case GotIakCert(_, resp) => resp.None?
    case VerifiedIakAndIDevID(_, _, _, pems) => pems.None?
    case VerifiedTpmCert(_, _, pem) => pem.None?
    case IssuedIDevID(_, _, cert) => cert.None?
    case IssuedIak(_, _, cert) => cert.None?
    case Rotated(_, ok) => !ok
    case GotVendorId(_, id) => id.None?
    case FetchedEk(_, _, ek) => ek.None?
    case GeneratedHmacKey(key) => key.None?
    case Challenged(_, _, _, answer) => answer.None?
    case GotCsr(_, _, _, csr) => csr.None?
  }

  /** Every issued card costs at least one call. */
  lemma {:induction false} IssueCallsNotEmpty(cards: seq<CardData>, updates: seq<CertUpdate>, p: Policy)
    requires |cards| == |updates| && cards != []
    ensures IssueCalls(cards, updates, p) != []
  {
    assert CardCalls(cards[|cards| - 1], updates[|cards| - 1], p) != [];
  }

  /**
   Validation happens card by card, between the CA calls: the CA is never asked exactly when
   there is no card or the first one is rejected, whatever is wrong with the later ones.
   */
  lemma CaUnaskedExactly(cards: seq<CardData>, p: Policy, atomic: bool, parts: Parts, r: Result<()>)
    requires OwnerCertsRun(cards, p, atomic, parts, r)
    ensures parts.issue == [] <==> cards == [] || RejectedUnasked(cards[0], p)
  {
    if cards == [] {
    } else if IssuedCompletely(cards, p, parts) {
      IssueCallsNotEmpty(cards, parts.updates, p);
      IssuedCardsAccepted(cards, p, parts.updates, parts.issue, 0);
    } else {
      var before :| StopsAfter(cards, p, parts, before);
      if parts.updates != [] {
        IssueCallsNotEmpty(cards[..|parts.updates|], parts.updates, p);
        IssuedCardsAccepted(cards[..|parts.updates|], p, parts.updates, before, 0);
      }
    }
  }

  lemma IssuedCardsAccepted(cards: seq<CardData>, p: Policy, updates: seq<CertUpdate>, t: seq<Event>, k: nat)
    requires AllIssued(cards, p, updates, t) && k < |cards|
    ensures !RejectedUnasked(cards[k], p)
  {
    assert Binds(cards[k], updates[k], p);
  }

  /** A bad card anywhere in the list fails the run before any rotation, and nothing past it is issued. */
  lemma BadCardStopsRotation(cards: seq<CardData>, p: Policy, atomic: bool, parts: Parts, r: Result<()>, k: nat)
    requires OwnerCertsRun(cards, p, atomic, parts, r) && k < |cards| && RejectedUnasked(cards[k], p)
    ensures r.Failure? && parts.rotate == []
    ensures forall before :: StopsAfter(cards, p, parts, before) ==> |parts.updates| <= k
    ensures exists before :: StopsAfter(cards, p, parts, before)
  {
    if IssuedCompletely(cards, p, parts) {
      IssuedCardsAccepted(cards, p, parts.updates, parts.issue, k);
    }
    forall before | StopsAfter(cards, p, parts, before) ensures |parts.updates| <= k {
      if k < |parts.updates| {
        IssuedCardsAccepted(cards[..|parts.updates|], p, parts.updates, before, k);
      }
    }
  }

  lemma {:induction false} IssueCallsSucceeded(cards: seq<CardData>, updates: seq<CertUpdate>, p: Policy, e: Event)
    requires |cards| == |updates| && e in IssueCalls(cards, updates, p)
    ensures !CallFailed(e)
  {
    var n := |cards| - 1;
    if e !in CardCalls(cards[n], updates[n], p) {
      IssueCallsSucceeded(cards[..n], updates[..n], p, e);
    }
  }

  lemma SentRequestsSucceeded(requests: seq<RotateRequest>, t: seq<Event>, ok: bool)
    requires SendsInOrder(requests, t, ok)
    ensures ok <==> forall e :: e in t ==> !CallFailed(e)
  {
    if !ok {
      assert t[|t| - 1] in t && CallFailed(t[|t| - 1]);
    }
  }

  lemma StoppedForAReason(cards: seq<CardData>, p: Policy, parts: Parts)
    requires StopsDuringIssue(cards, p, parts)
    ensures (exists k :: 0 <= k < |cards| && RejectedUnasked(cards[k], p)) || exists e :: e in parts.issue && CallFailed(e)
  {
    var before :| StopsAfter(cards, p, parts, before);
    var k, tail := |parts.updates|, parts.issue[|before|..];
    if !RejectedUnasked(cards[k], p) {
      var e := tail[|tail| - 1];
      assert e in parts.issue && CallFailed(e);
    }
  }

  /** Exactly the runs that succeed: there are cards, none is rejected and no call failed. */
  lemma OwnerCertsSucceedExactly(cards: seq<CardData>, p: Policy, atomic: bool, parts: Parts, r: Result<()>)
    requires OwnerCertsRun(cards, p, atomic, parts, r)
    ensures r.Success? <==>
            && cards != [] && (forall k :: 0 <= k < |cards| ==> !RejectedUnasked(cards[k], p))
            && (forall e :: e in parts.issue ==> !CallFailed(e)) && (forall e :: e in parts.rotate ==> !CallFailed(e))
  {
    if cards == [] {
    } else if IssuedCompletely(cards, p, parts) {
      forall e | e in parts.issue ensures !CallFailed(e) {
        IssueCallsSucceeded(cards, parts.updates, p, e);
      }
      forall k | 0 <= k < |cards| ensures !RejectedUnasked(cards[k], p) {
        IssuedCardsAccepted(cards, p, parts.updates, parts.issue, k);
      }
      SentRequestsSucceeded(RotateRequests(p.sslProfileId, parts.updates, atomic), parts.rotate, r.Success?);
    } else {
      StoppedForAReason(cards, p, parts);
    }
  }

  lemma {:induction false} SkippedIssuesNoIDevID(cards: seq<CardData>, updates: seq<CertUpdate>, p: Policy, e: Event)
    requires |cards| == |updates| && p.skipOidevid && e in IssueCalls(cards, updates, p)
    ensures !e.IssuedIDevID?
  {
    var n := |cards| - 1;
    if e !in CardCalls(cards[n], updates[n], p) {
      SkippedIssuesNoIDevID(cards[..n], updates[..n], p, e);
    }
  }

  /** An issued oIDevID is followed at once by the oIAK of the same card. */
  predicate IakFollows(t: seq<Event>, j: nat)
    requires j < |t|
  {
    t[j].IssuedIDevID? ==> j + 1 < |t| && t[j + 1].IssuedIak? && t[j + 1].cardId == t[j].cardId
  }

  /** The order of the CA calls: for each card the oIDevID, if any, then the oIAK. */
  lemma {:induction false} IakFollowsIDevID(cards: seq<CardData>, updates: seq<CertUpdate>, p: Policy, j: nat)
    requires |cards| == |updates| && j < |IssueCalls(cards, updates, p)|
    ensures IakFollows(IssueCalls(cards, updates, p), j)
  {
    var n := |cards| - 1;
    if j < |IssueCalls(cards[..n], updates[..n], p)| {
      IakFollowsIDevID(cards[..n], updates[..n], p, j);
    }
  }

  /** With the oIDevID rotation skipped the CA is never asked for one, in any run. */
  lemma SkippedAsksNoIDevID(cards: seq<CardData>, p: Policy, atomic: bool, parts: Parts, r: Result<()>)
    requires OwnerCertsRun(cards, p, atomic, parts, r) && p.skipOidevid
    ensures forall e :: e in parts.issue ==> !e.IssuedIDevID?
  {
    if cards == [] {
    } else if IssuedCompletely(cards, p, parts) {
      forall e | e in parts.issue ensures !e.IssuedIDevID? {
        SkippedIssuesNoIDevID(cards, parts.updates, p, e);
      }
    } else {
      var before :| StopsAfter(cards, p, parts, before);
      assert parts.issue == before + parts.issue[|before|..];
      forall e | e in before ensures !e.IssuedIDevID? {
        SkippedIssuesNoIDevID(cards[..|parts.updates|], parts.updates, p, e);
      }
    }
  }

  // ----- Binding -----------------------------------------------------------------------------

  lemma {:induction false} CallsOfCard(cards: seq<CardData>, updates: seq<CertUpdate>, p: Policy, i: nat)
    requires |cards| == |updates| && i < |cards|
    ensures forall e :: e in CardCalls(cards[i], updates[i], p) ==> e in IssueCalls(cards, updates, p)
  {
    var n := |cards| - 1;
    if i < n {
      CallsOfCard(cards[..n], updates[..n], p, i);
    }
  }

  /**
   Card-to-certificate binding in every run that reaches the device, for lists of any length:
   the i-th update carries the i-th selection and an oIAK the CA issued for that card's id and
   verified IAK key; its oIDevID was issued for that card's IDevID key under a non-empty SSL
   profile, or is empty because rotation is skipped or the card has no IDevID key.
   */
  lemma UpdatesBoundToCards(cards: seq<CardData>, p: Policy, atomic: bool, parts: Parts, r: Result<()>, i: nat)
    requires OwnerCertsRun(cards, p, atomic, parts, r) && parts.rotate != []
    requires i < |cards|
    ensures |parts.updates| == |cards|
    ensures var card, u := cards[i], parts.updates[i];
            && u.selection == card.selection
            && IssuedIak(card.cardId, card.iakPem, Some(u.oiakCert)) in parts.issue
            && (if p.skipOidevid || card.idevidPem == "" then u.oidevidCert == ""
                else p.sslProfileId != "" && IssuedIDevID(card.cardId, card.idevidPem, Some(u.oidevidCert)) in parts.issue)
  {
    NoRotationBeforeAllIssued(cards, p, atomic, parts, r);
    CallsOfCard(cards, parts.updates, p, i);
    var card, u := cards[i], parts.updates[i];
    assert IssuedIak(card.cardId, card.iakPem, Some(u.oiakCert)) in CardCalls(card, u, p);
    assert !NoIDevID(card, p) ==> IssuedIDevID(card.cardId, card.idevidPem, Some(u.oidevidCert)) in CardCalls(card, u, p);
  }

  /** Every oIDevID the CA was asked for belongs to one of the updates. */
  lemma {:induction false} IssuedIDevIDsAreUpdates(cards: seq<CardData>, updates: seq<CertUpdate>, p: Policy, e: Event)
    requires |cards| == |updates| && e in IssueCalls(cards, updates, p) && e.IssuedIDevID?
    ensures exists i :: 0 <= i < |cards| && !NoIDevID(cards[i], p) && e.issued == Some(updates[i].oidevidCert)
  {
    var n := |cards| - 1;
    if e !in CardCalls(cards[n], updates[n], p) {
      IssuedIDevIDsAreUpdates(cards[..n], updates[..n], p, e);
      var i :| 0 <= i < n && !NoIDevID(cards[..n][i], p) && e.issued == Some(updates[..n][i].oidevidCert);
      assert !NoIDevID(cards[i], p) && e.issued == Some(updates[i].oidevidCert);
    }
  }

  /** An oIDevID is empty exactly when none was requested for that card. */
  predicate EmptyMeansNotRequested(cards: seq<CardData>, p: Policy, updates: seq<CertUpdate>)
    requires |cards| == |updates|
  {
    forall i :: 0 <= i < |cards| ==> (updates[i].oidevidCert == "" <==> p.skipOidevid || cards[i].idevidPem == "")
  }

  predicate EmptyIDevIDIssued(issue: seq<Event>) {
    exists e :: e in issue && e.IssuedIDevID? && e.issued == Some("")
  }

  /**
   In every run that reaches the device, "empty exactly when not requested" holds of the updates
   if and only if the CA answered no oIDevID request with an empty certificate.
   */
  lemma EmptyExactlyWhenNotRequested(cards: seq<CardData>, p: Policy, atomic: bool, parts: Parts, r: Result<()>)
    requires OwnerCertsRun(cards, p, atomic, parts, r) && parts.rotate != []
    ensures |parts.updates| == |cards|
    ensures EmptyMeansNotRequested(cards, p, parts.updates) <==> !EmptyIDevIDIssued(parts.issue)
  {
    NoRotationBeforeAllIssued(cards, p, atomic, parts, r);
    forall i | 0 <= i < |cards|
      ensures NoIDevID(cards[i], p) ==> parts.updates[i].oidevidCert == ""
      ensures !NoIDevID(cards[i], p) && parts.updates[i].oidevidCert == "" ==> EmptyIDevIDIssued(parts.issue)
    {
      UpdatesBoundToCards(cards, p, atomic, parts, r, i);
    }
    if EmptyIDevIDIssued(parts.issue) {
      var e :| e in parts.issue && e.IssuedIDevID? && e.issued == Some("");
      IssuedIDevIDsAreUpdates(cards, parts.updates, p, e);
      var i :| 0 <= i < |cards| && !NoIDevID(cards[i], p) && e.issued == Some(parts.updates[i].oidevidCert);
      assert parts.updates[i].oidevidCert == "";
    }
  }

  /** A run in which it fails: one card with an IDevID key, a profile, and an empty answer. */
  lemma EmptyAnswerRotated() returns (cards: seq<CardData>, p: Policy, parts: Parts)
    ensures OwnerCertsRun(cards, p, true, parts, Success(())) && parts.rotate != []
    ensures |parts.updates| == |cards| && !EmptyMeansNotRequested(cards, p, parts.updates)
  {
    var id := CardId(1, "serial", "slot", "manufacturer", "part", "chassis");
    var card := CardData(Some(BySlot("slot")), Some(id), "iak", "idevid");
    var u := CertUpdate(card.selection, "oiak", "");
    cards, p := [card], Policy("profile", false);
    var issue := [IssuedIDevID(card.cardId, "idevid", Some("")), IssuedIak(card.cardId, "iak", Some("oiak"))];
    parts := Parts(issue, [Rotated(RotateRequest("profile", None, "", "", [u]), true)], [u]);
    assert IssueCalls(cards[..0], parts.updates[..0], p) == [];
    assert CardCalls(card, u, p) == issue;
    assert AllIssued(cards, p, parts.updates, parts.issue);
  }

  // ----- Atomic and per-card rotation --------------------------------------------------------


  function InstallAll<S>(install: (S, string, CertUpdate) -> S, s: S, profile: string, updates: seq<CertUpdate>): S {
    if updates == [] then s
    else
      var n := |updates| - 1;
      install(InstallAll(install, s, profile, updates[..n]), profile, updates[n])
  }

  /** The list form installs every entry in order; the per-card form installs its own fields. */
  function Serve<S>(install: (S, string, CertUpdate) -> S, s: S, request: RotateRequest): S {
    if request.updates != [] then InstallAll(install, s, request.sslProfileId, request.updates)
    else install(s, request.sslProfileId, CertUpdate(request.selection, request.oiakCert, request.oidevidCert))
  }

  function ServeAll<S>(install: (S, string, CertUpdate) -> S, s: S, requests: seq<RotateRequest>): S {
    if requests == [] then s
    else
      var n := |requests| - 1;
      Serve(install, ServeAll(install, s, requests[..n]), requests[n])
  }

  /** The first k per-card requests do what installing the first k updates does. */
  lemma {:induction false} PerCardPrefix<S>(
    install: (S, string, CertUpdate) -> S, s: S, profile: string, updates: seq<CertUpdate>, k: nat)
    requires k <= |updates|
    ensures ServeAll(install, s, RotateRequests(profile, updates, false)[..k]) == InstallAll(install, s, profile, updates[..k])
  {
    if k > 0 {
      var requests := RotateRequests(profile, updates, false);
      PerCardPrefix(install, s, profile, updates, k - 1);
      assert requests[..k][..k - 1] == requests[..k - 1];
      assert updates[..k][..k - 1] == updates[..k - 1];
    }
  }

  /** For any list of updates the batched request and the per-card requests agree. */
  lemma AtomicAgreesWithPerCard<S>(install: (S, string, CertUpdate) -> S, s: S, profile: string, updates: seq<CertUpdate>)
    requires updates != []
    ensures ServeAll(install, s, RotateRequests(profile, updates, true))
         == ServeAll(install, s, RotateRequests(profile, updates, false))
  {
    var batch := RotateRequests(profile, updates, true);
    assert batch[..0] == [];
    assert ServeAll(install, s, batch) == InstallAll(install, s, profile, updates);
    var requests := RotateRequests(profile, updates, false);
    assert requests[..|updates|] == requests && updates[..|updates|] == updates;
    PerCardPrefix(install, s, profile, updates, |updates|);
  }

  /** The requests of a list of events. */
  function RequestsOf(t: seq<Event>): seq<RotateRequest>
    requires forall i :: 0 <= i < |t| ==> t[i].Rotated?
  {
    seq(|t|, i requires 0 <= i < |t| => t[i].request)
  }

  /**
   A per-card run that fails at its k-th request has sent exactly the first k requests in list
   order, and the k - 1 the device accepted installed exactly the first k - 1 updates.
   */
  lemma FailedRunSentPrefix<S>(
    install: (S, string, CertUpdate) -> S, s: S, profile: string, updates: seq<CertUpdate>, t: seq<Event>)
    requires SendsInOrder(RotateRequests(profile, updates, false), t, false)
    ensures 0 < |t| <= |updates|
    ensures forall i :: 0 <= i < |t| ==> t[i].Rotated?
    ensures RequestsOf(t) == RotateRequests(profile, updates, false)[..|t|]
    ensures ServeAll(install, s, RequestsOf(t[..|t| - 1])) == InstallAll(install, s, profile, updates[..|t| - 1])
  {
    var n := |t| - 1;
    assert RequestsOf(t[..n]) == RotateRequests(profile, updates, false)[..n];
    PerCardPrefix(install, s, profile, updates, n);
  }

  // ----- What the device ends up with --------------------------------------------------------

  datatype Installed = Installed(oiakCert: string, oidevidCert: string)

  /** A map-of-cards device: an update without an oIDevID leaves the installed one. */
  function InstallOnCard(s: map<Option<Selection>, Installed>, profile: string, u: CertUpdate): map<Option<Selection>, Installed> {
    var kept := if u.selection in s then s[u.selection].oidevidCert else "";
    s[u.selection := Installed(u.oiakCert, if u.oidevidCert == "" then kept else u.oidevidCert)]
  }

  predicate DistinctSelections(updates: seq<CertUpdate>) {
    forall i, j :: 0 <= i < j < |updates| ==> updates[i].selection != updates[j].selection
  }

  function KeptIDevID(s: map<Option<Selection>, Installed>, selection: Option<Selection>): string {
    if selection in s then s[selection].oidevidCert else ""
  }

  /** Exactly what the device holds for the i-th of distinct selections; other cards keep theirs. */
  lemma {:induction false} InstalledCerts(s: map<Option<Selection>, Installed>, profile: string, updates: seq<CertUpdate>, i: nat)
    requires DistinctSelections(updates) && i < |updates|
    ensures var u := updates[i];
            var d := InstallAll(InstallOnCard, s, profile, updates);
            && u.selection in d
            && d[u.selection] == Installed(u.oiakCert, if u.oidevidCert == "" then KeptIDevID(s, u.selection) else u.oidevidCert)
  {
    var n := |updates| - 1;
    if i < n {
      InstalledCerts(s, profile, updates[..n], i);
    } else {
      OthersKept(s, profile, updates[..n], updates[n].selection);
    }
  }

  lemma {:induction false} OthersKept(
    s: map<Option<Selection>, Installed>, profile: string, updates: seq<CertUpdate>, selection: Option<Selection>)
    requires forall i :: 0 <= i < |updates| ==> updates[i].selection != selection
    ensures var d := InstallAll(InstallOnCard, s, profile, updates);
            (selection in d <==> selection in s) && (selection in s ==> d[selection] == s[selection])
  {
    if updates != [] {
      OthersKept(s, profile, updates[..|updates| - 1], selection);
    }
  }

  /** The rotation requests leave the device as installing all the updates does, in either mode. */
  lemma RotationInstalls(
    cards: seq<CardData>, p: Policy, atomic: bool, parts: Parts, s: map<Option<Selection>, Installed>)
    requires OwnerCertsRun(cards, p, atomic, parts, Success(()))
    ensures forall k :: 0 <= k < |parts.rotate| ==> parts.rotate[k].Rotated?
    ensures ServeAll(InstallOnCard, s, RequestsOf(parts.rotate)) == InstallAll(InstallOnCard, s, p.sslProfileId, parts.updates)
  {
    NoRotationBeforeAllIssued(cards, p, atomic, parts, Success(()));
    var updates := parts.updates;
    assert RequestsOf(parts.rotate) == RotateRequests(p.sslProfileId, updates, atomic);
    AtomicAgreesWithPerCard(InstallOnCard, s, p.sslProfileId, updates);
    var requests := RotateRequests(p.sslProfileId, updates, false);
    assert requests[..|updates|] == requests && updates[..|updates|] == updates;
    PerCardPrefix(InstallOnCard, s, p.sslProfileId, updates, |updates|);
  }

  /**
   End to end, in either mode: after a successful run over distinct selections the device holds,
   for every selected card, an oIAK the CA issued for that card's id and verified IAK key. Its
   oIDevID is the one it had when none was requested, or the CA answered with an empty one; else
   it is the one the CA issued for that card's IDevID key.
   */
  lemma DeviceHoldsIssuedCerts(
    cards: seq<CardData>, p: Policy, atomic: bool, parts: Parts, s: map<Option<Selection>, Installed>, i: nat)
    requires OwnerCertsRun(cards, p, atomic, parts, Success(()))
    requires forall i, j :: 0 <= i < j < |cards| ==> cards[i].selection != cards[j].selection
    requires i < |cards|
    ensures forall k :: 0 <= k < |parts.rotate| ==> parts.rotate[k].Rotated?
    ensures var d := ServeAll(InstallOnCard, s, RequestsOf(parts.rotate));
            var card := cards[i];
            && card.selection in d
            && IssuedIak(card.cardId, card.iakPem, Some(d[card.selection].oiakCert)) in parts.issue
            && (p.skipOidevid || card.idevidPem == "" ==> d[card.selection].oidevidCert == KeptIDevID(s, card.selection))
            && (!p.skipOidevid && card.idevidPem != "" ==>
                  || IssuedIDevID(card.cardId, card.idevidPem, Some(d[card.selection].oidevidCert)) in parts.issue
                  || (IssuedIDevID(card.cardId, card.idevidPem, Some("")) in parts.issue
                      && d[card.selection].oidevidCert == KeptIDevID(s, card.selection)))
  {
    RotationInstalls(cards, p, atomic, parts, s);
    NoRotationBeforeAllIssued(cards, p, atomic, parts, Success(()));
    UpdatesBoundToCards(cards, p, atomic, parts, Success(()), i);
    var updates := parts.updates;
    forall j, k | 0 <= j < k < |updates| ensures updates[j].selection != updates[k].selection {
      assert Binds(cards[j], updates[j], p) && Binds(cards[k], updates[k], p);
    }
    InstalledCerts(s, p.sslProfileId, updates, i);
  }
}
