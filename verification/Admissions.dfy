/**
 When the signer records what, told by the events before it. For each kind of event the
 condition is written out in terms of the run so far: what was set and not taken away since,
 earlier payments, and the times fixed for a record; limits and waiting times as numbers. Each
 is proved to hold exactly when the rules of SignerRules.dfy permit the event.
 */
module Admissions {
  import opened Basics
  import opened Policies
  import opened SignerState
  import opened SignerRules
  import opened SignerRuns
  import opened Payments
  import opened Budgets
  import opened History
  import Authorisation

  lemma AllMarks(cfg: Config, past: seq<Stamp>)
    requires ValidRun(cfg, past)
    ensures forall mark :: Says(StateOf(past), mark) <==> Stands(past, mark)
  {
    forall mark
      ensures Says(StateOf(past), mark) <==> Stands(past, mark)
    {
      StateIsHistory(cfg, past, mark);
    }
  }

  // ----- set up, frozen, the policy in force

  /** The organisation is set, and this policy is in force. */
  ghost predicate Runs(past: seq<Stamp>, org: Id, p: Policy) {
    Stands(past, Organised(org)) && Stands(past, Ruling(p))
  }

  ghost predicate Set(past: seq<Stamp>) {
    exists org, p :: Runs(past, org, p)
  }

  lemma RunsIsState(cfg: Config, past: seq<Stamp>, org: Id, p: Policy)
    requires ValidRun(cfg, past)
    ensures Runs(past, org, p) <==> StateOf(past).orgId == Some(org) && StateOf(past).policy == Some(p)
  {
    hide StateOf, ValidRun, Stands;
    StateIsHistory(cfg, past, Organised(org));
    StateIsHistory(cfg, past, Ruling(p));
  }

  lemma SetIsReady(cfg: Config, past: seq<Stamp>)
    requires ValidRun(cfg, past)
    ensures Set(past) <==> Ready(StateOf(past))
    ensures Set(past) ==> Runs(past, StateOf(past).orgId.value, StateOf(past).policy.value)
  {
    hide StateOf, ValidRun, Runs;
    forall org, p
      ensures Runs(past, org, p) <==> StateOf(past).orgId == Some(org) && StateOf(past).policy == Some(p)
    {
      RunsIsState(cfg, past, org, p);
    }
    if Ready(StateOf(past)) {
      assert Runs(past, StateOf(past).orgId.value, StateOf(past).policy.value);
    }
  }

  ghost predicate Halted(past: seq<Stamp>) {
    Stands(past, Freezing)
  }

  predicate TestNetwork(n: Network) {
    n == BitcoinSignet || n == EthereumSepolia
  }

  // ----- keys and enrolments

  ghost predicate KeyAllowed(past: seq<Stamp>, now: int, e: Event)
    requires e.KeyAdded?
  {
    && Set(past)
    && !Stands(past, Taken(e.enrolId))
    && (exists t :: Stands(past, Invited(e.enrolId, e.person, t)) && now <= t)
    && (forall q :: !Stands(past, Enrolled(e.credId, q)))
  }

  lemma KeyExactly(cfg: Config, past: seq<Stamp>, now: int, e: Event)
    requires ValidRun(cfg, past) && e.KeyAdded?
    ensures MayAddKey(StateOf(past), now, e.enrolId, e.person, e.credId) <==> KeyAllowed(past, now, e)
  {
    hide StateOf, ValidRun, Stands, Set, Ready;
    SetIsReady(cfg, past);
    AllMarks(cfg, past);
    var s := StateOf(past);
    if e.enrolId in s.enrolments {
      assert Says(s, Invited(e.enrolId, s.enrolments[e.enrolId].person, s.enrolments[e.enrolId].expiresAt));
    }
    if e.credId in s.keys {
      assert Says(s, Enrolled(e.credId, s.keys[e.credId].person));
    }
  }

  // ----- policies

  /** The bounds of the source, as numbers. */
  predicate WithinBounds(p: Policy, dev: bool) {
    && p.version > 0
    && (dev || (p.soloMinKeys >= 2 && p.soloDelaySec >= 600 && p.whitelistCooldownSec >= 24 * 60 * 60))
    && p.soloMinKeys >= 1 && p.soloDelaySec >= 0 && p.whitelistCooldownSec >= 0
    && 60 <= p.approvalWindowSec <= 24 * 60 * 60
    && 1 <= p.btcSatPerVb <= 2000 && 1 <= p.ethMaxFeeGwei <= 2000
    && (forall a :: a in p.limits ==> p.limits[a].perPayout <= p.limits[a].perDay)
    && p.networks <= {BitcoinSignet, EthereumSepolia} && !p.liveFunds
  }

  /** In no field looser than before. */
  ghost predicate NoLooser(p: Policy, p': Policy) {
    && (p.mode == FourEyes ==> p'.mode == FourEyes)
    && p'.soloMinKeys >= p.soloMinKeys && p'.soloDelaySec >= p.soloDelaySec
    && p'.whitelistCooldownSec >= p.whitelistCooldownSec
    && p'.approvalWindowSec <= p.approvalWindowSec
    && p'.btcSatPerVb <= p.btcSatPerVb && p'.ethMaxFeeGwei <= p.ethMaxFeeGwei
    && p'.networks <= p.networks
    && p'.limits.Keys <= p.limits.Keys
    && (forall a :: a in p'.limits ==>
          p'.limits[a].perPayout <= p.limits[a].perPayout && p'.limits[a].perDay <= p.limits[a].perDay)
  }

  ghost predicate PolicyAllowed(cfg: Config, past: seq<Stamp>, next: Policy, origin: Socket) {
    exists org, p :: Runs(past, org, p)
                     && next.version == p.version + 1 && next.prev == Some(cfg.policyHash(p))
                     && WithinBounds(next, cfg.dev)
                     && (origin == App ==> NoLooser(p, next))
  }

  lemma BoundsExactly(p: Policy, dev: bool)
    ensures Acceptable(p, dev) <==> WithinBounds(p, dev)
  {
    assert forall n :: n in {BitcoinSignet, EthereumSepolia} <==> !Live(n);
  }

  lemma TighteningExactly(p: Policy, next: Policy)
    ensures IsTightening(p, next) <==> NoLooser(p, next) && !next.liveFunds
  {
  }

  lemma PolicyExactly(cfg: Config, past: seq<Stamp>, next: Policy, origin: Socket)
    requires ValidRun(cfg, past)
    ensures MayChangePolicy(cfg, StateOf(past), next, origin) <==> PolicyAllowed(cfg, past, next, origin)
  {
    hide StateOf, ValidRun, Runs, IsTightening, Acceptable, NoLooser;
    SetIsReady(cfg, past);
    forall org, p
      ensures Runs(past, org, p) <==> StateOf(past).orgId == Some(org) && StateOf(past).policy == Some(p)
    {
      RunsIsState(cfg, past, org, p);
    }
    BoundsExactly(next, cfg.dev);
    forall p
      ensures IsTightening(p, next) <==> NoLooser(p, next) && !next.liveFunds
    {
      TighteningExactly(p, next);
    }
  }

  // ----- approvals

  /** This key is active in the hands of this person. */
  ghost predicate Signs(past: seq<Stamp>, credId: Id, person: Id) {
    Stands(past, Active(credId, person))
  }

  ghost predicate ApprovalAllowed(past: seq<Stamp>, now: int, e: Event)
    requires e.Approved?
  {
    && Set(past) && !Halted(past)
    && !Stands(past, Cancelled(e.intentId)) && !Stands(past, Barred(e.intentId))
    && (exists i, t :: Stands(past, Ordered(e.intentId, i, None, t)) && now <= i.expiresAt)
    && Signs(past, e.credId, e.person)
    && (forall a :: Stands(past, Endorsed(e.intentId, a)) ==> a.credId != e.credId)
  }

  lemma ApprovalExactly(cfg: Config, past: seq<Stamp>, now: int, e: Event)
    requires ValidRun(cfg, past) && e.Approved?
    ensures MayApprove(StateOf(past), now, e.intentId, e.credId, e.person) <==> ApprovalAllowed(past, now, e)
  {
    hide StateOf, ValidRun, Stands, Set, Ready;
    SetIsReady(cfg, past);
    AllMarks(cfg, past);
    var s := StateOf(past);
    var k := IndexOf(s.intents, e.intentId);
    if k >= 0 {
      var r := s.intents[k];
      assert Says(s, Ordered(e.intentId, r.intent, r.mandateId, r.createdAt));
      assert forall a :: a in r.approvals <==> Says(s, Endorsed(e.intentId, a));
    }
  }

  ghost predicate MandateApprovalAllowed(past: seq<Stamp>, now: int, e: Event)
    requires e.MandateApproved?
  {
    && Set(past) && !Halted(past)
    && !Stands(past, Withdrawn(e.mandateId))
    && (exists m, t :: Stands(past, Granted(e.mandateId, m, t)) && now < m.validUntil && e.person != m.grantee
                       && (Complete(past, e.mandateId) || now <= t + 24 * 60 * 60))
    && Signs(past, e.credId, e.person)
    && (forall a :: Stands(past, MandateEndorsed(e.mandateId, a)) ==> a.credId != e.credId)
  }

  /** The mandate has reached its quorum. */
  ghost predicate Complete(past: seq<Stamp>, id: Id) {
    id in StateOf(past).mandates && StateOf(past).mandates[id].approvedAt.Some?
  }

  lemma MandateApprovalExactly(cfg: Config, past: seq<Stamp>, now: int, e: Event)
    requires ValidRun(cfg, past) && e.MandateApproved?
    ensures MayApproveMandate(StateOf(past), now, e.mandateId, e.credId, e.person)
       <==> MandateApprovalAllowed(past, now, e)
  {
    hide StateOf, ValidRun, Stands, Set, Ready;
    SetIsReady(cfg, past);
    AllMarks(cfg, past);
    var s := StateOf(past);
    if e.mandateId in s.mandates {
      var m := s.mandates[e.mandateId];
      assert Says(s, Granted(e.mandateId, m.mandate, m.createdAt));
      assert forall a :: a in m.approvals <==> Says(s, MandateEndorsed(e.mandateId, a));
    }
  }

  // ----- destinations

  /** What a record's flags are, in events. */
  lemma FlagsExactly(cfg: Config, past: seq<Stamp>, k: nat)
    requires ValidRun(cfg, past) && k < |StateOf(past).intents|
    ensures var r := StateOf(past).intents[k];
            && (r.cancelled <==> Stands(past, Cancelled(r.intentId)))
            && (r.vetoed <==> Stands(past, Barred(r.intentId)))
            && Stands(past, Ordered(r.intentId, r.intent, r.mandateId, r.createdAt))
  {
    hide StateOf, ValidRun, Stands, RecordOk;
    RunInv(cfg, past);
    var r := StateOf(past).intents[k];
    UniqueIndex(StateOf(past).intents, k);
    StateIsHistory(cfg, past, Cancelled(r.intentId));
    StateIsHistory(cfg, past, Barred(r.intentId));
    StateIsHistory(cfg, past, Ordered(r.intentId, r.intent, r.mandateId, r.createdAt));
  }

  /** Entry `k` of the whitelist lets payments to this destination pass, since this time. */
  ghost predicate Passes(past: seq<Stamp>, k: nat, n: Network, destination: string, now: int, since: int) {
    && k < |StateOf(past).intents|
    && var r := StateOf(past).intents[k];
       && r.intent.purpose == Whitelist && r.intent.network == n && r.intent.destination == destination
       && !Stands(past, Cancelled(r.intentId)) && !Stands(past, Barred(r.intentId))
       && r.activeFrom == Some(since) && since <= now
  }

  ghost predicate Listed(past: seq<Stamp>, n: Network, destination: string, now: int) {
    exists k, since :: Passes(past, k, n, destination, now, since)
  }

  lemma PassesExactly(cfg: Config, past: seq<Stamp>, k: nat, n: Network, destination: string, now: int, since: int)
    requires ValidRun(cfg, past)
    ensures Passes(past, k, n, destination, now, since) <==>
              && k < |StateOf(past).intents| && IsActiveDestination(StateOf(past).intents[k], n, destination, now)
              && StateOf(past).intents[k].activeFrom == Some(since)
  {
    hide StateOf, ValidRun, Stands;
    if k < |StateOf(past).intents| {
      FlagsExactly(cfg, past, k);
    }
  }

  lemma ListedExactly(cfg: Config, past: seq<Stamp>, n: Network, destination: string, now: int)
    requires ValidRun(cfg, past)
    ensures Listed(past, n, destination, now) <==> HasActiveDestination(StateOf(past), n, destination, now)
    ensures forall since :: ActiveSince(StateOf(past), n, destination, now, since) <==>
              exists k :: Passes(past, k, n, destination, now, since)
  {
    hide StateOf, ValidRun, Passes, IsActiveDestination;
    forall k: nat, since
      ensures Passes(past, k, n, destination, now, since) <==>
                && k < |StateOf(past).intents| && IsActiveDestination(StateOf(past).intents[k], n, destination, now)
                && StateOf(past).intents[k].activeFrom == Some(since)
    {
      PassesExactly(cfg, past, k, n, destination, now, since);
    }
    forall k: nat | k < |StateOf(past).intents| && IsActiveDestination(StateOf(past).intents[k], n, destination, now)
      ensures exists since :: Passes(past, k, n, destination, now, since)
    {
      ActiveHasTime(StateOf(past).intents[k], n, destination, now);
      assert Passes(past, k, n, destination, now, StateOf(past).intents[k].activeFrom.value);
    }
    SinceExactly(StateOf(past), n, destination, now);
  }

  lemma ActiveHasTime(r: IntentRecord, n: Network, destination: string, now: int)
    requires IsActiveDestination(r, n, destination, now)
    ensures r.activeFrom.Some?
  {
  }

  lemma SinceExactly(s: State, n: Network, destination: string, now: int)
    ensures forall since :: ActiveSince(s, n, destination, now, since) <==>
              exists i :: 0 <= i < |s.intents| && IsActiveDestination(s.intents[i], n, destination, now)
                          && s.intents[i].activeFrom == Some(since)
  {
  }

  // ----- mandates

  predicate RightAsset(n: Network, a: Asset) {
    match n
    case BitcoinSignet => a == BTC
    case BitcoinMainnet => a == BTC
    case EthereumSepolia => a == ETH || a == USDC || a == EURC
    case EthereumMainnet => a == ETH || a == USDC || a == EURC
  }

  /** Mandates that still wait for approvals. */
  ghost function Waiting(past: seq<Stamp>, now: int): set<Id> {
    set id | id in StateOf(past).mandates && !Complete(past, id) && !Stands(past, Withdrawn(id))
             && now <= StateOf(past).mandates[id].createdAt + 24 * 60 * 60
  }

  ghost predicate MandateAllowed(past: seq<Stamp>, now: int, id: Id, m: Mandate) {
    && !Halted(past)
    && (exists org, p :: Runs(past, org, p) && m.orgId == org && m.network in p.networks && m.asset in p.limits)
    && id == m.mandateId && (forall m', t :: !Stands(past, Granted(id, m', t)))
    && m.grantee != m.issuer && TestNetwork(m.network) && RightAsset(m.network, m.asset)
    && 1 <= m.perPayout <= m.total
    && 1 <= |m.destinations| <= 20
    && (forall i, j :: 0 <= i < j < |m.destinations| ==> Less(m.destinations[i], m.destinations[j]))
    && m.validFrom < m.validUntil <= m.validFrom + 90 * 24 * 60 * 60
    && now < m.validUntil
    && (forall d :: d in m.destinations ==> Listed(past, m.network, d, now))
    && |Waiting(past, now)| < 50
  }

  lemma WaitingExactly(cfg: Config, past: seq<Stamp>, now: int)
    requires ValidRun(cfg, past)
    ensures Waiting(past, now) == PendingMandates(StateOf(past).mandates, now)
  {
    hide StateOf, ValidRun, Stands;
    AllMarks(cfg, past);
    forall id | id in StateOf(past).mandates
      ensures StateOf(past).mandates[id].revoked <==> Stands(past, Withdrawn(id))
    {
      assert Says(StateOf(past), Withdrawn(id)) <==> StateOf(past).mandates[id].revoked;
    }
  }

  lemma MandateExactly(cfg: Config, past: seq<Stamp>, now: int, id: Id, m: Mandate)
    requires ValidRun(cfg, past)
    ensures MayAddMandate(StateOf(past), now, id, m) <==> MandateAllowed(past, now, id, m)
  {
    hide StateOf, ValidRun, Stands, Runs, Listed, HasActiveDestination, Waiting, PendingMandates;
    SetIsReady(cfg, past);
    forall org, p
      ensures Runs(past, org, p) <==> StateOf(past).orgId == Some(org) && StateOf(past).policy == Some(p)
    {
      RunsIsState(cfg, past, org, p);
    }
    forall d
      ensures Listed(past, m.network, d, now) <==> HasActiveDestination(StateOf(past), m.network, d, now)
    {
      ListedExactly(cfg, past, m.network, d, now);
    }
    WaitingExactly(cfg, past, now);
    HaltedExactly(cfg, past);
    GrantedExactly(cfg, past, id);
  }

  lemma HaltedExactly(cfg: Config, past: seq<Stamp>)
    requires ValidRun(cfg, past)
    ensures Halted(past) <==> StateOf(past).frozen.Some?
  {
    hide StateOf, ValidRun, Stands;
    StateIsHistory(cfg, past, Freezing);
  }

  lemma GrantedExactly(cfg: Config, past: seq<Stamp>, id: Id)
    requires ValidRun(cfg, past)
    ensures id in StateOf(past).mandates <==> exists m, t :: Stands(past, Granted(id, m, t))
    ensures forall m, t :: Stands(past, Granted(id, m, t)) ==>
              id in StateOf(past).mandates && StateOf(past).mandates[id].mandate == m
              && StateOf(past).mandates[id].createdAt == t
    ensures Stands(past, Withdrawn(id)) <==> id in StateOf(past).mandates && StateOf(past).mandates[id].revoked
  {
    hide StateOf, ValidRun, Stands;
    AllMarks(cfg, past);
    if id in StateOf(past).mandates {
      var r := StateOf(past).mandates[id];
      assert Says(StateOf(past), Granted(id, r.mandate, r.createdAt));
    }
    forall m, t | Stands(past, Granted(id, m, t))
      ensures id in StateOf(past).mandates && StateOf(past).mandates[id].mandate == m
      ensures StateOf(past).mandates[id].createdAt == t
    {
      assert Says(StateOf(past), Granted(id, m, t));
    }
    assert Says(StateOf(past), Withdrawn(id)) <==> Stands(past, Withdrawn(id));
  }

  // ----- quorum

  /** Two people with keys of their own, or one with enough keys, all active now. */
  ghost predicate Supported(past: seq<Stamp>, p: Policy, approvals: seq<SignerState.Approval>) {
    Authorisation.Backed(p, StateOf(past).keys, approvals)
  }

  lemma SupportedExactly(past: seq<Stamp>, p: Policy, approvals: seq<SignerState.Approval>)
    requires forall a :: a in approvals ==> Authorisation.Owned(StateOf(past).keys, a)
    ensures Supported(past, p, approvals) <==> ApprovalsQuorum(Some(p), StateOf(past).keys, approvals)
  {
    hide StateOf, ApprovalsQuorum, Authorisation.Backed;
    Authorisation.QuorumIsBacked(Some(p), StateOf(past).keys, approvals);
    if Supported(past, p, approvals) {
      Authorisation.BackedIsQuorum(p, StateOf(past).keys, approvals);
    }
  }

  /** The mandate was granted, stands, and is supported. */
  ghost predicate MandateSupported(past: seq<Stamp>, p: Policy, id: Id) {
    && !Stands(past, Withdrawn(id)) && id in StateOf(past).mandates
    && Supported(past, p, StateOf(past).mandates[id].approvals)
  }

  lemma MandateSupportedExactly(cfg: Config, past: seq<Stamp>, p: Policy, id: Id)
    requires ValidRun(cfg, past) && StateOf(past).policy == Some(p)
    ensures MandateSupported(past, p, id) <==>
              var s := StateOf(past);
              id in s.mandates && MandateQuorum(s.policy, s.keys, s.mandates[id])
  {
    hide StateOf, ValidRun, History.Stands, ApprovalsQuorum, Supported, Authorisation.IntentsScoped,
         Authorisation.IntentApprovalsOwned;
    GrantedExactly(cfg, past, id);
    Authorisation.AuthRun(cfg, past);
    if id in StateOf(past).mandates {
      SupportedExactly(past, p, StateOf(past).mandates[id].approvals);
    }
  }

  // ----- new intents

  /** How many intents were recorded after this time. */
  function NewOrders(past: seq<Stamp>, after: int): nat {
    if |past| == 0 then 0
    else
      var last := past[|past| - 1];
      NewOrders(past[..|past| - 1], after) + if last.event.IntentAdded? && last.at > after then 1 else 0
  }

  lemma {:induction false} NewOrdersExactly(cfg: Config, past: seq<Stamp>, after: int)
    requires ValidRun(cfg, past)
    ensures Tally(StateOf(past).intents, CreatedSince(after)) == NewOrders(past, after)
  {
    hide Guard, Apply, Weigh;
    if |past| > 0 {
      var init, last := past[..|past| - 1], past[|past| - 1];
      NewOrdersExactly(cfg, init, after);
      CreatedStep(cfg, StateOf(init), last.checked, last.at, last.event, after);
    }
  }

  /** Record `k` is still undecided, or approved and still to be signed. */
  ghost predicate Pending(past: seq<Stamp>, k: nat, now: int) {
    && k < |StateOf(past).intents|
    && var r := StateOf(past).intents[k];
       && !Stands(past, Cancelled(r.intentId)) && !Stands(past, Barred(r.intentId))
       && (if r.intent.purpose == Whitelist then r.approvedAt.None? && now <= r.intent.expiresAt
           else
             && SignaturesIn(past, r.intentId) == []
             && (if r.signUntil.None? then now <= r.intent.expiresAt else now <= r.signUntil.value))
  }

  ghost function PendingSet(past: seq<Stamp>, now: int): set<nat> {
    set k | 0 <= k < |StateOf(past).intents| && Pending(past, k, now)
  }

  lemma RecordFacts(cfg: Config, past: seq<Stamp>, k: nat)
    requires ValidRun(cfg, past) && k < |StateOf(past).intents|
    ensures var r := StateOf(past).intents[k];
            && RecordOk(StateOf(past).mandates.Keys, r)
            && IndexOf(StateOf(past).intents, r.intentId) == k
            && r.signatures == SignaturesIn(past, r.intentId)
  {
    hide StateOf, ValidRun, RecordOk;
    RunInv(cfg, past);
    UniqueIndex(StateOf(past).intents, k);
    RecordedIsRun(cfg, past, StateOf(past).intents[k].intentId);
  }

  lemma PendingExactly(cfg: Config, past: seq<Stamp>, k: nat, now: int)
    requires ValidRun(cfg, past) && k < |StateOf(past).intents|
    ensures Pending(past, k, now) <==> IsOpen(StateOf(past).intents[k], now)
  {
    hide StateOf, ValidRun, History.Stands, SignaturesIn;
    FlagsExactly(cfg, past, k);
    RecordFacts(cfg, past, k);
  }

  lemma {:induction false} CountOpen(xs: seq<IntentRecord>, now: int)
    ensures |set k | 0 <= k < |xs| && IsOpen(xs[k], now)| == Tally(xs, OpenAt(now))
  {
    hide IsOpen;
    var all := set k | 0 <= k < |xs| && IsOpen(xs[k], now);
    if |xs| == 0 {
      assert all == {};
    } else {
      var n := |xs| - 1;
      CountOpen(xs[..n], now);
      var init := set k | 0 <= k < |xs[..n]| && IsOpen(xs[..n][k], now);
      assert all == init + if IsOpen(xs[n], now) then {n} else {};
    }
  }

  lemma PendingCount(cfg: Config, past: seq<Stamp>, now: int)
    requires ValidRun(cfg, past)
    ensures |PendingSet(past, now)| == Tally(StateOf(past).intents, OpenAt(now))
  {
    hide StateOf, ValidRun, Pending, IsOpen, Tally;
    var xs := StateOf(past).intents;
    forall k: nat | k < |xs|
      ensures Pending(past, k, now) <==> IsOpen(xs[k], now)
    {
      PendingExactly(cfg, past, k, now);
    }
    CountOpen(xs, now);
    assert PendingSet(past, now) == set k | 0 <= k < |xs| && IsOpen(xs[k], now);
  }

  /** Entry `k` of the whitelist stands for this destination, or may still come to. */
  ghost predicate Occupies(past: seq<Stamp>, k: nat, n: Network, destination: string, now: int) {
    && k < |StateOf(past).intents|
    && var r := StateOf(past).intents[k];
       && r.intent.purpose == Whitelist && r.intent.network == n && r.intent.destination == destination
       && !Stands(past, Cancelled(r.intentId)) && !Stands(past, Barred(r.intentId))
       && (r.approvedAt.Some? || now <= r.intent.expiresAt)
  }

  lemma OccupiesExactly(cfg: Config, past: seq<Stamp>, k: nat, n: Network, destination: string, now: int)
    requires ValidRun(cfg, past) && k < |StateOf(past).intents|
    ensures Occupies(past, k, n, destination, now) <==> TakesDestination(StateOf(past).intents[k], n, destination, now)
  {
    hide StateOf, ValidRun, History.Stands;
    FlagsExactly(cfg, past, k);
  }

  /** The mandate covers the payout at this time, whatever was paid or stands open under it included. */
  ghost predicate Covers(past: seq<Stamp>, now: int, p: Policy, id: Id, i: Intent)
    requires i.purpose.Payout?
  {
    && MandateSupported(past, p, id)
    && var m := StateOf(past).mandates[id].mandate;
       && i.initiator == m.grantee && i.network == m.network && i.purpose.asset == m.asset
       && i.destination in m.destinations
       && m.validFrom <= now < m.validUntil
       && i.purpose.amount <= m.perPayout
       && PaidSum(past, id) + Tally(StateOf(past).intents, OpenUnder(id, now)) + i.purpose.amount <= m.total
  }

  lemma CoversExactly(cfg: Config, past: seq<Stamp>, now: int, p: Policy, id: Id, i: Intent)
    requires ValidRun(cfg, past) && i.purpose.Payout? && StateOf(past).policy == Some(p)
    ensures Covers(past, now, p, id, i) <==> MandateAllows(StateOf(past), now, id, i)
  {
    hide StateOf, ValidRun, MandateSupported, MandateQuorum, Tally, PaidSum;
    MandateSupportedExactly(cfg, past, p, id);
    RunInv(cfg, past);
    PaidIsTally(cfg, past, id);
    UseSplits(StateOf(past).mandates.Keys, StateOf(past).intents, id, now);
  }

  ghost predicate WhitelistAllowed(past: seq<Stamp>, now: int, i: Intent, under: Option<Id>) {
    && under.None? && i.expiresAt == now + 24 * 60 * 60
    && forall k :: 0 <= k < |StateOf(past).intents| ==> !Occupies(past, k, i.network, i.destination, now)
  }

  ghost predicate PayoutAllowed(past: seq<Stamp>, now: int, p: Policy, i: Intent, under: Option<Id>)
    requires i.purpose.Payout?
  {
    var q := i.purpose;
    && i.expiresAt == now + 4 * 60 * 60
    && (exists a :: Stands(past, Opened(q.accountId, a)) && a.network == i.network)
    && RightAsset(i.network, q.asset) && q.amount >= 1
    && q.asset in p.limits && q.amount <= p.limits[q.asset].perPayout && q.amount <= p.limits[q.asset].perDay
    && q.feeCap <= (if i.network == BitcoinSignet then p.btcSatPerVb * 3473 else p.ethMaxFeeGwei * 100_000_000_000_000)
    && (exists k :: Passes(past, k, i.network, i.destination, now, q.activeSince))
    && (under.Some? ==> Covers(past, now, p, under.value, i))
  }

  ghost predicate OrderAllowed(past: seq<Stamp>, now: int, id: Id, i: Intent, under: Option<Id>) {
    && !Halted(past)
    && (forall i', u, t :: !Stands(past, Ordered(id, i', u, t)))
    && |PendingSet(past, now)| < 50
    && NewOrders(past, now - 24 * 60 * 60) < 200
    && exists org, p :: Runs(past, org, p)
         && i.orgId == org && i.network in p.networks && TestNetwork(i.network)
         && (if i.purpose.Whitelist? then WhitelistAllowed(past, now, i, under)
             else PayoutAllowed(past, now, p, i, under))
  }

  lemma KnownExactly(cfg: Config, past: seq<Stamp>, id: Id)
    requires ValidRun(cfg, past)
    ensures IndexOf(StateOf(past).intents, id) >= 0 <==> exists i, u, t :: Stands(past, Ordered(id, i, u, t))
  {
    hide StateOf, ValidRun, History.Stands;
    AllMarks(cfg, past);
    var k := IndexOf(StateOf(past).intents, id);
    if k >= 0 {
      var r := StateOf(past).intents[k];
      assert Says(StateOf(past), Ordered(id, r.intent, r.mandateId, r.createdAt));
    }
    forall i, u, t | Stands(past, Ordered(id, i, u, t))
      ensures k >= 0
    {
      assert Says(StateOf(past), Ordered(id, i, u, t));
    }
  }

  lemma AccountExactly(cfg: Config, past: seq<Stamp>, id: Id)
    requires ValidRun(cfg, past)
    ensures forall a :: Stands(past, Opened(id, a)) <==> id in StateOf(past).accounts && StateOf(past).accounts[id] == a
  {
    hide StateOf, ValidRun, History.Stands;
    forall a
      ensures Stands(past, Opened(id, a)) <==> id in StateOf(past).accounts && StateOf(past).accounts[id] == a
    {
      StateIsHistory(cfg, past, Opened(id, a));
    }
  }

  lemma WhitelistExactly(cfg: Config, past: seq<Stamp>, now: int, i: Intent, under: Option<Id>)
    requires ValidRun(cfg, past)
    ensures WhitelistAllowed(past, now, i, under) <==>
              && under.None? && i.expiresAt == now + WHITELIST_TTL
              && forall k :: 0 <= k < |StateOf(past).intents| ==>
                   !TakesDestination(StateOf(past).intents[k], i.network, i.destination, now)
  {
    hide StateOf, ValidRun, Occupies, TakesDestination;
    var xs := StateOf(past).intents;
    if forall k :: 0 <= k < |xs| ==> !Occupies(past, k, i.network, i.destination, now) {
      forall k | 0 <= k < |xs|
        ensures !TakesDestination(xs[k], i.network, i.destination, now)
      {
        OccupiesExactly(cfg, past, k, i.network, i.destination, now);
      }
    } else {
      var k: nat :| k < |xs| && Occupies(past, k, i.network, i.destination, now);
      OccupiesExactly(cfg, past, k, i.network, i.destination, now);
      assert TakesDestination(xs[k], i.network, i.destination, now);
    }
  }

  lemma PayoutExactly(cfg: Config, past: seq<Stamp>, now: int, p: Policy, i: Intent, under: Option<Id>)
    requires ValidRun(cfg, past) && i.purpose.Payout? && StateOf(past).policy == Some(p) && TestNetwork(i.network)
    ensures var s, q := StateOf(past), i.purpose;
            PayoutAllowed(past, now, p, i, under) <==>
              && i.expiresAt == now + PAYOUT_TTL
              && q.accountId in s.accounts && i.network == s.accounts[q.accountId].network
              && AssetOn(i.network, q.asset) && q.amount > 0
              && q.feeCap <= FeeCeiling(i.network, p)
              && SpendAllowed(p, q.asset, q.amount, 0) == SpendOk
              && ActiveSince(s, i.network, i.destination, now, q.activeSince)
              && (under.Some? ==> MandateAllows(s, now, under.value, i))
  {
    hide StateOf, ValidRun, History.Stands, Passes, ActiveSince, Covers, MandateAllows, Listed;
    AccountExactly(cfg, past, i.purpose.accountId);
    ListedExactly(cfg, past, i.network, i.destination, now);
    if under.Some? {
      CoversExactly(cfg, past, now, p, under.value, i);
    }
  }

  lemma OrderExactly(cfg: Config, past: seq<Stamp>, now: int, id: Id, i: Intent, under: Option<Id>)
    requires ValidRun(cfg, past)
    ensures MayAddIntent(StateOf(past), now, id, i, under) <==> OrderAllowed(past, now, id, i, under)
  {
    hide StateOf, ValidRun, Runs, PayoutAllowed, WhitelistAllowed, Tally, ActiveSince, MandateAllows, SpendAllowed,
         FeeCeiling, PendingSet, NewOrders, TakesDestination, History.Stands;
    SetIsReady(cfg, past);
    forall org, p
      ensures Runs(past, org, p) <==> StateOf(past).orgId == Some(org) && StateOf(past).policy == Some(p)
    {
      RunsIsState(cfg, past, org, p);
    }
    HaltedExactly(cfg, past);
    KnownExactly(cfg, past, id);
    PendingCount(cfg, past, now);
    NewOrdersExactly(cfg, past, now - DAY);
    if Ready(StateOf(past)) && TestNetwork(i.network) {
      if i.purpose.Whitelist? {
        WhitelistExactly(cfg, past, now, i, under);
      } else {
        PayoutExactly(cfg, past, now, StateOf(past).policy.value, i, under);
      }
    }
  }

  // ----- signing

  /** The first signature of an intent: nothing signed yet, support, times, destination, network, limits. */
  ghost predicate FirstAllowed(past: seq<Stamp>, now: int, p: Policy, r: IntentRecord)
    requires r.intent.purpose.Payout?
  {
    var q := r.intent.purpose;
    && SignaturesIn(past, r.intentId) == []
    && (match r.mandateId
        case Some(m) =>
          && MandateSupported(past, p, m)
          && now < StateOf(past).mandates[m].mandate.validUntil
        case None => Supported(past, p, r.approvals))
    && r.signableAt.Some? && r.signUntil.Some? && r.signableAt.value <= now <= r.signUntil.value
    && Listed(past, r.intent.network, r.intent.destination, now)
    && r.intent.network in p.networks && TestNetwork(r.intent.network)
    && q.asset in p.limits && q.amount <= p.limits[q.asset].perPayout
    && WindowSum(past, q.asset, now - 24 * 60 * 60, now) + q.amount <= p.limits[q.asset].perDay
  }

  /** Something was signed before, and nothing is bumped once it was recalled. */
  ghost predicate ReplaceAllowed(past: seq<Stamp>, id: Id, mode: SignMode) {
    var sigs := SignaturesIn(past, id);
    sigs != [] && (mode == Bump ==> sigs[|sigs| - 1].pay.mode != Recall)
  }

  /** No transaction of another intent spends one of these coins. */
  ghost predicate CoinsFree(past: seq<Stamp>, id: Id, outpoints: seq<string>) {
    forall j, o :: 0 <= j < |past| && IsBtc(past[j]) && o in past[j].event.pay.tx.outpoints && o in outpoints ==>
      past[j].event.intentId == id
  }

  ghost predicate BtcAllowed(past: seq<Stamp>, id: Id, pay: Payment, feeCap: nat) {
    && pay.tx.BtcTx?
    && 1 <= |pay.tx.outpoints| <= 50 && Distinct(pay.tx.outpoints)
    && pay.tx.fee <= feeCap
    && var sigs := SignaturesIn(past, id);
       var next := Lookup(StateOf(past).nextChange, pay.accountId, 0);
       if pay.mode == First then
         && CoinsFree(past, id, pay.tx.outpoints)
         && (pay.tx.changeIndex.None? || pay.tx.changeIndex == Some(next))
       else
         && sigs != [] && sigs[0].pay.tx.BtcTx?
         && Elements(pay.tx.outpoints) == Elements(sigs[0].pay.tx.outpoints)
         && pay.tx.fee > sigs[|sigs| - 1].pay.tx.fee
         && (pay.tx.changeIndex == Some(sigs[0].pay.tx.changeIndex.GetOr(next))
             || (pay.tx.changeIndex.None? && pay.mode == Bump))
  }

  ghost predicate EthAllowed(past: seq<Stamp>, id: Id, p: Policy, pay: Payment, feeCap: nat) {
    && pay.tx.EthTx?
    && 21_000 <= pay.tx.gasLimit <= 200_000
    && 1 <= pay.tx.maxFeePerGas <= p.ethMaxFeeGwei * 1_000_000_000
    && pay.tx.maxPriorityFeePerGas <= pay.tx.maxFeePerGas
    && pay.tx.fee == pay.tx.gasLimit * pay.tx.maxFeePerGas && pay.tx.fee <= feeCap
    && var sigs := SignaturesIn(past, id);
       if pay.mode == First then
         var used := FirstNonces(past, pay.accountId);
         used != [] ==> pay.tx.nonce == used[|used| - 1] + 1
       else
         && sigs != [] && sigs[0].pay.tx.EthTx? && sigs[|sigs| - 1].pay.tx.EthTx?
         && pay.tx.nonce == sigs[0].pay.tx.nonce
         && 10 * pay.tx.maxFeePerGas >= 11 * sigs[|sigs| - 1].pay.tx.maxFeePerGas
         && 10 * pay.tx.maxPriorityFeePerGas >= 11 * sigs[|sigs| - 1].pay.tx.maxPriorityFeePerGas
  }

  /** The record of this id asks for exactly this payment. */
  ghost predicate Asks(past: seq<Stamp>, k: nat, id: Id, pay: Payment) {
    && k < |StateOf(past).intents|
    && var r := StateOf(past).intents[k];
       && r.intentId == id && r.intent.purpose.Payout?
       && pay.accountId == r.intent.purpose.accountId && pay.network == r.intent.network
       && pay.asset == r.intent.purpose.asset && pay.amount == r.intent.purpose.amount
  }

  ghost predicate SignatureAllowed(past: seq<Stamp>, now: int, id: Id, pay: Payment) {
    && !Halted(past)
    && !Stands(past, Cancelled(id)) && !Stands(past, Barred(id))
    && (exists a :: Stands(past, Opened(pay.accountId, a)))
    && exists org, p, k :: Runs(past, org, p) && Asks(past, k, id, pay) && TransactionAllowed(past, now, p, k, id, pay)
  }

  ghost predicate TransactionAllowed(past: seq<Stamp>, now: int, p: Policy, k: nat, id: Id, pay: Payment)
    requires Asks(past, k, id, pay)
  {
    var r := StateOf(past).intents[k];
    && (if pay.mode == First then FirstAllowed(past, now, p, r) else ReplaceAllowed(past, id, pay.mode))
    && (if r.intent.network == BitcoinSignet || r.intent.network == BitcoinMainnet
        then BtcAllowed(past, id, pay, r.intent.purpose.feeCap)
        else EthAllowed(past, id, p, pay, r.intent.purpose.feeCap))
  }

  // ----- coins and nonces in events

  /** A coin is reserved for an intent when a signed transaction of it spends the coin. */
  lemma {:induction false} ReservedExactly(cfg: Config, past: seq<Stamp>, o: string, id: Id)
    requires ValidRun(cfg, past)
    ensures var reserved := StateOf(past).reserved;
            o in reserved && reserved[o] == id <==>
              exists j :: 0 <= j < |past| && SpendsFor(past[j], o, id)
  {
    hide Guard, IntentsAfter, MandatesAfter, KeysAfter, SpendsFor;
    if |past| > 0 {
      var init, last := past[..|past| - 1], past[|past| - 1];
      ReservedExactly(cfg, init, o, id);
      ReservedStep(cfg, init, last, o, id);
      assert past[|past| - 1] == last && forall j :: 0 <= j < |init| ==> past[j] == init[j];
      if j :| 0 <= j < |init| && SpendsFor(init[j], o, id) {
        assert SpendsFor(past[j], o, id);
      }
    }
  }

  predicate SpendsFor(st: Stamp, o: string, id: Id) {
    IsBtc(st) && o in st.event.pay.tx.outpoints && st.event.intentId == id
  }

  /** A coin never changes hands. */
  lemma ReservedStep(cfg: Config, init: seq<Stamp>, st: Stamp, o: string, id: Id)
    requires ValidRun(cfg, init) && Guard(cfg, StateOf(init), st.checked, st.event)
    ensures var before, after := StateOf(init).reserved, ReservedAfter(StateOf(init).reserved, st.event);
            o in after && after[o] == id <==> (o in before && before[o] == id) || SpendsFor(st, o, id)
  {
    hide StateOf, ValidRun, Guard, Inv, CoinInv, MaySign, CoinsOf;
    if st.event.Signed? {
      RunInv(cfg, init);
      CoinRun(cfg, init);
      GuardOnIntents(cfg, StateOf(init), st.checked, st.event);
      OwnCoins(StateOf(init), st.checked, st.event.intentId, st.event.pay);
    }
  }

  /** What a permitted transaction spends is free or the intent's own. */
  lemma OwnCoins(s: State, now: int, id: Id, pay: Payment)
    requires Inv(s) && CoinInv(s) && MaySign(s, now, id, pay)
    ensures forall o :: o in Outpoints(pay.tx) && o in s.reserved ==> s.reserved[o] == id
  {
    hide MaySign, MaySpendEth, MayReplace, NonceOf;
    SpendChecked(s, now, id, pay);
    var k := IndexOf(s.intents, id);
    var r := s.intents[k];
    assert RecordOk(s.mandates.Keys, r);
    if r.signatures != [] {
      assert SameCoins(r.signatures[0].pay.tx, pay.tx);
      assert forall o :: o in Outpoints(pay.tx) ==> o in CoinsOf(r);
    }
  }

  lemma CoinsFreeExactly(cfg: Config, past: seq<Stamp>, id: Id, outpoints: seq<string>)
    requires ValidRun(cfg, past)
    ensures CoinsFree(past, id, outpoints) <==>
              forall o :: o in outpoints && o in StateOf(past).reserved ==> StateOf(past).reserved[o] == id
  {
    hide StateOf, ValidRun, SpendsFor;
    var reserved := StateOf(past).reserved;
    forall o | o in outpoints && o in reserved
      ensures exists j :: 0 <= j < |past| && SpendsFor(past[j], o, reserved[o])
    {
      ReservedExactly(cfg, past, o, reserved[o]);
    }
    forall j, o | 0 <= j < |past| && IsBtc(past[j]) && o in past[j].event.pay.tx.outpoints && o in outpoints
      ensures o in reserved && reserved[o] == past[j].event.intentId
    {
      assert SpendsFor(past[j], o, past[j].event.intentId) by { Spends(past[j], o); }
      ReservedExactly(cfg, past, o, past[j].event.intentId);
    }
    if CoinsFree(past, id, outpoints) {
      forall o | o in outpoints && o in reserved
        ensures reserved[o] == id
      {
        var j :| 0 <= j < |past| && SpendsFor(past[j], o, reserved[o]);
        SpendsIs(past[j], o, reserved[o]);
      }
    }
  }

  lemma Spends(st: Stamp, o: string)
    requires IsBtc(st) && o in st.event.pay.tx.outpoints
    ensures SpendsFor(st, o, st.event.intentId)
  {
  }

  lemma SpendsIs(st: Stamp, o: string, id: Id)
    requires SpendsFor(st, o, id)
    ensures IsBtc(st) && o in st.event.pay.tx.outpoints && st.event.intentId == id
  {
  }

  // ----- the pieces of a signature

  lemma FirstExactly(cfg: Config, past: seq<Stamp>, now: int, k: nat)
    requires ValidRun(cfg, past) && NotAfter(past, now) && Ready(StateOf(past)) && k < |StateOf(past).intents|
    requires StateOf(past).intents[k].intent.purpose.Payout?
    ensures FirstAllowed(past, now, StateOf(past).policy.value, StateOf(past).intents[k]) <==>
              MaySignFirst(StateOf(past), now, StateOf(past).intents[k])
  {
    hide StateOf, ValidRun, History.Stands, Listed, HasActiveDestination, Tally, WindowSum, SignaturesIn,
         ApprovalsQuorum, Supported, Authorisation.MandateApprovalsOwned, Authorisation.IntentsScoped,
         RecordOk, NotAfter;
    var s := StateOf(past);
    var r := s.intents[k];
    RecordFacts(cfg, past, k);
    Authorisation.AuthRun(cfg, past);
    ListedExactly(cfg, past, r.intent.network, r.intent.destination, now);
    WindowIsTally(cfg, past, r.intent.purpose.asset, now - DAY, now);
    SupportedExactly(past, s.policy.value, r.approvals);
    if r.mandateId.Some? {
      MandateSupportedExactly(cfg, past, s.policy.value, r.mandateId.value);
    }
  }

  lemma ReplaceExactly(cfg: Config, past: seq<Stamp>, k: nat, mode: SignMode)
    requires ValidRun(cfg, past) && k < |StateOf(past).intents|
    ensures ReplaceAllowed(past, StateOf(past).intents[k].intentId, mode) <==>
              MayReplace(StateOf(past).intents[k], mode)
  {
    hide StateOf, ValidRun, SignaturesIn;
    RecordFacts(cfg, past, k);
    FindFirstIsHead(StateOf(past).intents[k].signatures);
  }

  lemma SameInputsExactly(outpoints: seq<string>, first: Tx)
    requires first.BtcTx? && Distinct(outpoints)
    ensures SameInputs(outpoints, first) <==> Elements(outpoints) == Elements(first.outpoints)
  {
    DistinctCardinality(outpoints);
    assert forall o :: o in outpoints <==> o in Elements(outpoints);
    if SameInputs(outpoints, first) {
      SameInputsSameSet(outpoints, first);
    }
  }

  lemma BtcExactly(cfg: Config, past: seq<Stamp>, k: nat, pay: Payment)
    requires ValidRun(cfg, past) && k < |StateOf(past).intents| && StateOf(past).intents[k].intent.purpose.Payout?
    requires IsBitcoin(StateOf(past).intents[k].intent.network)
    requires pay.accountId == StateOf(past).intents[k].intent.purpose.accountId
    requires pay.mode != First ==> MayReplace(StateOf(past).intents[k], pay.mode)
    ensures var r := StateOf(past).intents[k];
            BtcAllowed(past, r.intentId, pay, r.intent.purpose.feeCap) <==>
              MaySpendBtc(StateOf(past), r.intentId, r, pay.accountId, r.intent.purpose.feeCap, pay.mode, pay.tx)
  {
    hide StateOf, ValidRun, SignaturesIn, CoinsFree, SameInputs;
    var r := StateOf(past).intents[k];
    RecordFacts(cfg, past, k);
    FindFirstIsHead(r.signatures);
    if pay.tx.BtcTx? {
      CoinsFreeExactly(cfg, past, r.intentId, pay.tx.outpoints);
      if pay.mode != First && Distinct(pay.tx.outpoints) {
        assert MatchesIntent(r.intent, r.signatures[0].pay);
        SameInputsExactly(pay.tx.outpoints, r.signatures[0].pay.tx);
      }
    }
  }

  lemma EthExactly(cfg: Config, past: seq<Stamp>, k: nat, p: Policy, pay: Payment)
    requires ValidRun(cfg, past) && k < |StateOf(past).intents| && StateOf(past).intents[k].intent.purpose.Payout?
    requires !IsBitcoin(StateOf(past).intents[k].intent.network)
    requires pay.mode != First ==> MayReplace(StateOf(past).intents[k], pay.mode)
    ensures var r := StateOf(past).intents[k];
            EthAllowed(past, r.intentId, p, pay, r.intent.purpose.feeCap) <==>
              MaySpendEth(StateOf(past), r, p, pay.accountId, r.intent.purpose.feeCap, pay.mode, pay.tx)
  {
    hide StateOf, ValidRun, SignaturesIn, FirstNonces, Consecutive;
    var r := StateOf(past).intents[k];
    RecordFacts(cfg, past, k);
    FindFirstIsHead(r.signatures);
    NonceRun(cfg, past, pay.accountId);
    if r.signatures != [] {
      assert MatchesIntent(r.intent, r.signatures[0].pay);
      assert MatchesIntent(r.intent, r.signatures[|r.signatures| - 1].pay);
    }
  }

  lemma TransactionExactly(cfg: Config, past: seq<Stamp>, now: int, k: nat, id: Id, pay: Payment)
    requires ValidRun(cfg, past) && NotAfter(past, now) && Ready(StateOf(past)) && Asks(past, k, id, pay)
    ensures var s := StateOf(past);
            var r, p := s.intents[k], s.policy.value;
            TransactionAllowed(past, now, p, k, id, pay) <==>
              && (if pay.mode == First then MaySignFirst(s, now, r) else MayReplace(r, pay.mode))
              && (if IsBitcoin(r.intent.network)
                  then MaySpendBtc(s, id, r, pay.accountId, r.intent.purpose.feeCap, pay.mode, pay.tx)
                  else MaySpendEth(s, r, p, pay.accountId, r.intent.purpose.feeCap, pay.mode, pay.tx))
  {
    hide StateOf, ValidRun, FirstAllowed, ReplaceAllowed, BtcAllowed, EthAllowed, MaySignFirst, MayReplace, MaySpendBtc,
         MaySpendEth, NotAfter;
    var s := StateOf(past);
    FirstExactly(cfg, past, now, k);
    ReplaceExactly(cfg, past, k, pay.mode);
    if pay.mode == First || MayReplace(s.intents[k], pay.mode) {
      if IsBitcoin(s.intents[k].intent.network) {
        BtcExactly(cfg, past, k, pay);
      } else {
        EthExactly(cfg, past, k, s.policy.value, pay);
      }
    }
  }

  /** A record's flags and place, by its id. */
  lemma PlaceExactly(cfg: Config, past: seq<Stamp>, id: Id)
    requires ValidRun(cfg, past)
    ensures var k := IndexOf(StateOf(past).intents, id);
            && (k >= 0 ==>
                  && (StateOf(past).intents[k].cancelled <==> Stands(past, Cancelled(id)))
                  && (StateOf(past).intents[k].vetoed <==> Stands(past, Barred(id))))
            && forall j :: 0 <= j < |StateOf(past).intents| && StateOf(past).intents[j].intentId == id ==> j == k
  {
    hide StateOf, ValidRun, History.Stands, RecordOk;
    RunInv(cfg, past);
    var k := IndexOf(StateOf(past).intents, id);
    if k >= 0 {
      FlagsExactly(cfg, past, k);
    }
    forall j | 0 <= j < |StateOf(past).intents| && StateOf(past).intents[j].intentId == id
      ensures j == k
    {
      UniqueIndex(StateOf(past).intents, j);
    }
  }

  lemma SignatureExactly(cfg: Config, past: seq<Stamp>, now: int, id: Id, pay: Payment)
    requires ValidRun(cfg, past) && NotAfter(past, now)
    ensures MaySign(StateOf(past), now, id, pay) <==> SignatureAllowed(past, now, id, pay)
  {
    hide StateOf, ValidRun, Runs, History.Stands, TransactionAllowed, MaySignFirst, MayReplace, MaySpendBtc,
         MaySpendEth, NotAfter;
    var s := StateOf(past);
    SetIsReady(cfg, past);
    forall org, p
      ensures Runs(past, org, p) <==> s.orgId == Some(org) && s.policy == Some(p)
    {
      RunsIsState(cfg, past, org, p);
    }
    HaltedExactly(cfg, past);
    PlaceExactly(cfg, past, id);
    AccountExactly(cfg, past, pay.accountId);
    var k := IndexOf(s.intents, id);
    if pay.accountId in s.accounts {
      assert Stands(past, Opened(pay.accountId, s.accounts[pay.accountId]));
    }
    if Ready(s) && k >= 0 && Asks(past, k, id, pay) {
      TransactionExactly(cfg, past, now, k, id, pay);
      assert Runs(past, s.orgId.value, s.policy.value);
    }
  }

  // ----- everything else, and everything

  /** A payout that was never signed, or a whitelist entry. */
  ghost predicate Unsigned(past: seq<Stamp>, id: Id) {
    (exists i, u, t :: Stands(past, Ordered(id, i, u, t))) && SignaturesIn(past, id) == []
  }

  /** Which socket may cause the event, and what has to stand in the run so far. */
  ghost predicate Allowed(cfg: Config, past: seq<Stamp>, who: Socket, now: int, e: Event) {
    match e
    case Initialised(_, fingerprints, policy) =>
      && who == Admin && (forall org :: !Stands(past, Organised(org)))
      && fingerprints.Keys <= {BitcoinSignet, EthereumSepolia} && policy == DefaultPolicy(fingerprints.Keys, cfg.dev)
    case NetworkAdded(n, _) => who == Admin && Set(past) && TestNetwork(n)
    case AccountAdded(id, n, index, _) =>
      && who == App && Set(past) && (forall a :: !Stands(past, Opened(id, a)))
      && index == Lookup(StateOf(past).nextIndex, n, 0)
    case EnrolStarted(id, _, _, _) =>
      who == Admin && Set(past) && forall person, t :: !Stands(past, Invited(id, person, t))
    case KeyAdded(_, _, _, _) => who == App && KeyAllowed(past, now, e)
    case KeyRevoked(c) => who == Admin && exists person :: Signs(past, c, person)
    case PolicyChanged(next, origin) => who == origin && PolicyAllowed(cfg, past, next, origin)
    case IntentAdded(id, i, under) =>
      who == App && OrderAllowed(past, now, id, i, under) && cfg.address(i.network, i.destination)
    case Approved(_, _, _, _) => who == App && ApprovalAllowed(past, now, e)
    case IntentCancelled(id, origin) => who == origin && Unsigned(past, id) && !Stands(past, Cancelled(id))
    case Vetoed(id) =>
      && who == App && !Stands(past, Barred(id))
      && exists i, u, t :: Stands(past, Ordered(id, i, u, t)) && i.purpose == Whitelist
    case Frozen(reason, origin) => who == origin && Set(past) && !Halted(past) && 1 <= |reason| <= 200
    case Unfrozen => who == Admin && Set(past) && Halted(past)
    case Signed(id, pay) =>
      who == App && SignatureAllowed(past, now, id, pay) && (pay.tx.BtcTx? ==> Balanced(cfg, pay))
    case Rekeyed => who == Admin
    case MandateAdded(id, m) =>
      who == App && MandateAllowed(past, now, id, m) && forall d :: d in m.destinations ==> cfg.address(m.network, d)
    case MandateApproved(_, _, _, _) => who == App && MandateApprovalAllowed(past, now, e)
    case MandateRevoked(id, origin) =>
      && who == origin && !Stands(past, Withdrawn(id))
      && exists m, t :: Stands(past, Granted(id, m, t))
  }

  lemma UnsignedExactly(cfg: Config, past: seq<Stamp>, id: Id)
    requires ValidRun(cfg, past)
    ensures var k := IndexOf(StateOf(past).intents, id);
            Unsigned(past, id) <==> k >= 0 && |StateOf(past).intents[k].signatures| == 0
    ensures (exists i, u, t :: Stands(past, Ordered(id, i, u, t)) && i.purpose == Whitelist) <==>
              var k := IndexOf(StateOf(past).intents, id);
              k >= 0 && StateOf(past).intents[k].intent.purpose.Whitelist?
  {
    hide StateOf, ValidRun, History.Stands, SignaturesIn;
    KnownExactly(cfg, past, id);
    var k := IndexOf(StateOf(past).intents, id);
    forall i, u, t
      ensures Stands(past, Ordered(id, i, u, t)) <==> Says(StateOf(past), Ordered(id, i, u, t))
    {
      StateIsHistory(cfg, past, Ordered(id, i, u, t));
    }
    if k >= 0 {
      RecordFacts(cfg, past, k);
      var r := StateOf(past).intents[k];
      assert Says(StateOf(past), Ordered(id, r.intent, r.mandateId, r.createdAt));
    }
  }

  lemma OrganisedExactly(cfg: Config, past: seq<Stamp>)
    requires ValidRun(cfg, past)
    ensures (forall org :: !Stands(past, Organised(org))) <==> StateOf(past).orgId.None?
  {
    hide StateOf, ValidRun, History.Stands;
    forall org
      ensures Stands(past, Organised(org)) <==> StateOf(past).orgId == Some(org)
    {
      StateIsHistory(cfg, past, Organised(org));
    }
    if StateOf(past).orgId.Some? {
      assert Stands(past, Organised(StateOf(past).orgId.value));
    }
  }

  lemma InvitedExactly(cfg: Config, past: seq<Stamp>, id: Id)
    requires ValidRun(cfg, past)
    ensures (forall person, t :: !Stands(past, Invited(id, person, t))) <==> id !in StateOf(past).enrolments
  {
    hide StateOf, ValidRun, History.Stands;
    var s := StateOf(past);
    forall person, t
      ensures Stands(past, Invited(id, person, t)) <==> Says(s, Invited(id, person, t))
    {
      StateIsHistory(cfg, past, Invited(id, person, t));
    }
    if id in s.enrolments {
      assert Stands(past, Invited(id, s.enrolments[id].person, s.enrolments[id].expiresAt));
    }
  }

  lemma SignsExactly(cfg: Config, past: seq<Stamp>, c: Id)
    requires ValidRun(cfg, past)
    ensures (exists person :: Signs(past, c, person)) <==> c in StateOf(past).keys && StateOf(past).keys[c].active
  {
    hide StateOf, ValidRun, History.Stands;
    var s := StateOf(past);
    forall person
      ensures Signs(past, c, person) <==> c in s.keys && s.keys[c].person == person && s.keys[c].active
    {
      StateIsHistory(cfg, past, Active(c, person));
    }
    if c in s.keys && s.keys[c].active {
      assert Signs(past, c, s.keys[c].person);
    }
  }

  lemma OnInitialised(cfg: Config, past: seq<Stamp>, who: Socket, now: int, e: Event)
    requires ValidRun(cfg, past) && NotAfter(past, now) && e.Initialised?
    ensures Permitted(cfg, StateOf(past), who, now, e) <==> Allowed(cfg, past, who, now, e)
  {
    hide StateOf, ValidRun, NotAfter, History.Stands, KeyAllowed, PolicyAllowed, OrderAllowed, ApprovalAllowed,
         Unsigned, SignatureAllowed, MandateAllowed, MandateApprovalAllowed, MaySign, MayAddIntent, MayApprove,
         MayAddMandate, MayApproveMandate, MayChangePolicy, MayAddKey, Balanced, DefaultPolicy, Set, Ready,
         Halted, Signs;
    OrganisedExactly(cfg, past);
    assert forall n :: n in {BitcoinSignet, EthereumSepolia} <==> !Live(n);
  }

  lemma OnNetworkAdded(cfg: Config, past: seq<Stamp>, who: Socket, now: int, e: Event)
    requires ValidRun(cfg, past) && NotAfter(past, now) && e.NetworkAdded?
    ensures Permitted(cfg, StateOf(past), who, now, e) <==> Allowed(cfg, past, who, now, e)
  {
    hide StateOf, ValidRun, NotAfter, History.Stands, KeyAllowed, PolicyAllowed, OrderAllowed, ApprovalAllowed,
         Unsigned, SignatureAllowed, MandateAllowed, MandateApprovalAllowed, MaySign, MayAddIntent, MayApprove,
         MayAddMandate, MayApproveMandate, MayChangePolicy, MayAddKey, Balanced, DefaultPolicy, Set, Ready,
         Halted, Signs;
    SetIsReady(cfg, past);
  }

  lemma OnAccountAdded(cfg: Config, past: seq<Stamp>, who: Socket, now: int, e: Event)
    requires ValidRun(cfg, past) && NotAfter(past, now) && e.AccountAdded?
    ensures Permitted(cfg, StateOf(past), who, now, e) <==> Allowed(cfg, past, who, now, e)
  {
    hide StateOf, ValidRun, NotAfter, History.Stands, KeyAllowed, PolicyAllowed, OrderAllowed, ApprovalAllowed,
         Unsigned, SignatureAllowed, MandateAllowed, MandateApprovalAllowed, MaySign, MayAddIntent, MayApprove,
         MayAddMandate, MayApproveMandate, MayChangePolicy, MayAddKey, Balanced, DefaultPolicy, Set, Ready,
         Halted, Signs;
    SetIsReady(cfg, past);
    AccountExactly(cfg, past, e.accountId);
    if e.accountId in StateOf(past).accounts {
      assert Stands(past, Opened(e.accountId, StateOf(past).accounts[e.accountId]));
    }
  }

  lemma OnEnrolStarted(cfg: Config, past: seq<Stamp>, who: Socket, now: int, e: Event)
    requires ValidRun(cfg, past) && NotAfter(past, now) && e.EnrolStarted?
    ensures Permitted(cfg, StateOf(past), who, now, e) <==> Allowed(cfg, past, who, now, e)
  {
    hide StateOf, ValidRun, NotAfter, History.Stands, KeyAllowed, PolicyAllowed, OrderAllowed, ApprovalAllowed,
         Unsigned, SignatureAllowed, MandateAllowed, MandateApprovalAllowed, MaySign, MayAddIntent, MayApprove,
         MayAddMandate, MayApproveMandate, MayChangePolicy, MayAddKey, Balanced, DefaultPolicy, Set, Ready,
         Halted, Signs;
    SetIsReady(cfg, past);
    InvitedExactly(cfg, past, e.enrolId);
  }

  lemma OnKeyAdded(cfg: Config, past: seq<Stamp>, who: Socket, now: int, e: Event)
    requires ValidRun(cfg, past) && NotAfter(past, now) && e.KeyAdded?
    ensures Permitted(cfg, StateOf(past), who, now, e) <==> Allowed(cfg, past, who, now, e)
  {
    hide StateOf, ValidRun, NotAfter, History.Stands, KeyAllowed, PolicyAllowed, OrderAllowed, ApprovalAllowed,
         Unsigned, SignatureAllowed, MandateAllowed, MandateApprovalAllowed, MaySign, MayAddIntent, MayApprove,
         MayAddMandate, MayApproveMandate, MayChangePolicy, MayAddKey, Balanced, DefaultPolicy, Set, Ready,
         Halted, Signs;
    KeyExactly(cfg, past, now, e);
  }

  lemma OnKeyRevoked(cfg: Config, past: seq<Stamp>, who: Socket, now: int, e: Event)
    requires ValidRun(cfg, past) && NotAfter(past, now) && e.KeyRevoked?
    ensures Permitted(cfg, StateOf(past), who, now, e) <==> Allowed(cfg, past, who, now, e)
  {
    hide StateOf, ValidRun, NotAfter, History.Stands, KeyAllowed, PolicyAllowed, OrderAllowed, ApprovalAllowed,
         Unsigned, SignatureAllowed, MandateAllowed, MandateApprovalAllowed, MaySign, MayAddIntent, MayApprove,
         MayAddMandate, MayApproveMandate, MayChangePolicy, MayAddKey, Balanced, DefaultPolicy, Set, Ready,
         Halted, Signs;
    SignsExactly(cfg, past, e.credId);
  }

  lemma OnPolicyChanged(cfg: Config, past: seq<Stamp>, who: Socket, now: int, e: Event)
    requires ValidRun(cfg, past) && NotAfter(past, now) && e.PolicyChanged?
    ensures Permitted(cfg, StateOf(past), who, now, e) <==> Allowed(cfg, past, who, now, e)
  {
    hide StateOf, ValidRun, NotAfter, History.Stands, KeyAllowed, PolicyAllowed, OrderAllowed, ApprovalAllowed,
         Unsigned, SignatureAllowed, MandateAllowed, MandateApprovalAllowed, MaySign, MayAddIntent, MayApprove,
         MayAddMandate, MayApproveMandate, MayChangePolicy, MayAddKey, Balanced, DefaultPolicy, Set, Ready,
         Halted, Signs;
    PolicyExactly(cfg, past, e.policy, e.origin);
  }

  lemma OnIntentAdded(cfg: Config, past: seq<Stamp>, who: Socket, now: int, e: Event)
    requires ValidRun(cfg, past) && NotAfter(past, now) && e.IntentAdded?
    ensures Permitted(cfg, StateOf(past), who, now, e) <==> Allowed(cfg, past, who, now, e)
  {
    hide StateOf, ValidRun, NotAfter, History.Stands, KeyAllowed, PolicyAllowed, OrderAllowed, ApprovalAllowed,
         Unsigned, SignatureAllowed, MandateAllowed, MandateApprovalAllowed, MaySign, MayAddIntent, MayApprove,
         MayAddMandate, MayApproveMandate, MayChangePolicy, MayAddKey, Balanced, DefaultPolicy, Set, Ready,
         Halted, Signs;
    OrderExactly(cfg, past, now, e.intentId, e.intent, e.under);
  }

  lemma OnApproved(cfg: Config, past: seq<Stamp>, who: Socket, now: int, e: Event)
    requires ValidRun(cfg, past) && NotAfter(past, now) && e.Approved?
    ensures Permitted(cfg, StateOf(past), who, now, e) <==> Allowed(cfg, past, who, now, e)
  {
    hide StateOf, ValidRun, NotAfter, History.Stands, KeyAllowed, PolicyAllowed, OrderAllowed, ApprovalAllowed,
         Unsigned, SignatureAllowed, MandateAllowed, MandateApprovalAllowed, MaySign, MayAddIntent, MayApprove,
         MayAddMandate, MayApproveMandate, MayChangePolicy, MayAddKey, Balanced, DefaultPolicy, Set, Ready,
         Halted, Signs;
    ApprovalExactly(cfg, past, now, e);
  }

  lemma OnIntentCancelled(cfg: Config, past: seq<Stamp>, who: Socket, now: int, e: Event)
    requires ValidRun(cfg, past) && NotAfter(past, now) && e.IntentCancelled?
    ensures Permitted(cfg, StateOf(past), who, now, e) <==> Allowed(cfg, past, who, now, e)
  {
    hide StateOf, ValidRun, NotAfter, History.Stands, KeyAllowed, PolicyAllowed, OrderAllowed, ApprovalAllowed,
         Unsigned, SignatureAllowed, MandateAllowed, MandateApprovalAllowed, MaySign, MayAddIntent, MayApprove,
         MayAddMandate, MayApproveMandate, MayChangePolicy, MayAddKey, Balanced, DefaultPolicy, Set, Ready,
         Halted, Signs;
    UnsignedExactly(cfg, past, e.intentId);
    PlaceExactly(cfg, past, e.intentId);
  }

  lemma OnVetoed(cfg: Config, past: seq<Stamp>, who: Socket, now: int, e: Event)
    requires ValidRun(cfg, past) && NotAfter(past, now) && e.Vetoed?
    ensures Permitted(cfg, StateOf(past), who, now, e) <==> Allowed(cfg, past, who, now, e)
  {
    hide StateOf, ValidRun, NotAfter, History.Stands, KeyAllowed, PolicyAllowed, OrderAllowed, ApprovalAllowed,
         Unsigned, SignatureAllowed, MandateAllowed, MandateApprovalAllowed, MaySign, MayAddIntent, MayApprove,
         MayAddMandate, MayApproveMandate, MayChangePolicy, MayAddKey, Balanced, DefaultPolicy, Set, Ready,
         Halted, Signs;
    UnsignedExactly(cfg, past, e.intentId);
    PlaceExactly(cfg, past, e.intentId);
  }

  lemma OnFrozen(cfg: Config, past: seq<Stamp>, who: Socket, now: int, e: Event)
    requires ValidRun(cfg, past) && NotAfter(past, now) && e.Frozen?
    ensures Permitted(cfg, StateOf(past), who, now, e) <==> Allowed(cfg, past, who, now, e)
  {
    hide StateOf, ValidRun, NotAfter, History.Stands, KeyAllowed, PolicyAllowed, OrderAllowed, ApprovalAllowed,
         Unsigned, SignatureAllowed, MandateAllowed, MandateApprovalAllowed, MaySign, MayAddIntent, MayApprove,
         MayAddMandate, MayApproveMandate, MayChangePolicy, MayAddKey, Balanced, DefaultPolicy, Set, Ready,
         Halted, Signs;
    SetIsReady(cfg, past);
    HaltedExactly(cfg, past);
  }

  lemma OnUnfrozen(cfg: Config, past: seq<Stamp>, who: Socket, now: int, e: Event)
    requires ValidRun(cfg, past) && NotAfter(past, now) && e.Unfrozen?
    ensures Permitted(cfg, StateOf(past), who, now, e) <==> Allowed(cfg, past, who, now, e)
  {
    hide StateOf, ValidRun, NotAfter, History.Stands, KeyAllowed, PolicyAllowed, OrderAllowed, ApprovalAllowed,
         Unsigned, SignatureAllowed, MandateAllowed, MandateApprovalAllowed, MaySign, MayAddIntent, MayApprove,
         MayAddMandate, MayApproveMandate, MayChangePolicy, MayAddKey, Balanced, DefaultPolicy, Set, Ready,
         Halted, Signs;
    SetIsReady(cfg, past);
    HaltedExactly(cfg, past);
  }

  lemma OnSigned(cfg: Config, past: seq<Stamp>, who: Socket, now: int, e: Event)
    requires ValidRun(cfg, past) && NotAfter(past, now) && e.Signed?
    ensures Permitted(cfg, StateOf(past), who, now, e) <==> Allowed(cfg, past, who, now, e)
  {
    hide StateOf, ValidRun, NotAfter, History.Stands, KeyAllowed, PolicyAllowed, OrderAllowed, ApprovalAllowed,
         Unsigned, SignatureAllowed, MandateAllowed, MandateApprovalAllowed, MaySign, MayAddIntent, MayApprove,
         MayAddMandate, MayApproveMandate, MayChangePolicy, MayAddKey, Balanced, DefaultPolicy, Set, Ready,
         Halted, Signs;
    SignatureExactly(cfg, past, now, e.intentId, e.pay);
  }

  lemma OnRekeyed(cfg: Config, past: seq<Stamp>, who: Socket, now: int, e: Event)
    requires ValidRun(cfg, past) && NotAfter(past, now) && e.Rekeyed?
    ensures Permitted(cfg, StateOf(past), who, now, e) <==> Allowed(cfg, past, who, now, e)
  {
    hide StateOf, ValidRun, NotAfter, History.Stands, KeyAllowed, PolicyAllowed, OrderAllowed, ApprovalAllowed,
         Unsigned, SignatureAllowed, MandateAllowed, MandateApprovalAllowed, MaySign, MayAddIntent, MayApprove,
         MayAddMandate, MayApproveMandate, MayChangePolicy, MayAddKey, Balanced, DefaultPolicy, Set, Ready,
         Halted, Signs;
  }

  lemma OnMandateAdded(cfg: Config, past: seq<Stamp>, who: Socket, now: int, e: Event)
    requires ValidRun(cfg, past) && NotAfter(past, now) && e.MandateAdded?
    ensures Permitted(cfg, StateOf(past), who, now, e) <==> Allowed(cfg, past, who, now, e)
  {
    hide StateOf, ValidRun, NotAfter, History.Stands, KeyAllowed, PolicyAllowed, OrderAllowed, ApprovalAllowed,
         Unsigned, SignatureAllowed, MandateAllowed, MandateApprovalAllowed, MaySign, MayAddIntent, MayApprove,
         MayAddMandate, MayApproveMandate, MayChangePolicy, MayAddKey, Balanced, DefaultPolicy, Set, Ready,
         Halted, Signs;
    MandateExactly(cfg, past, now, e.mandateId, e.mandate);
  }

  lemma OnMandateApproved(cfg: Config, past: seq<Stamp>, who: Socket, now: int, e: Event)
    requires ValidRun(cfg, past) && NotAfter(past, now) && e.MandateApproved?
    ensures Permitted(cfg, StateOf(past), who, now, e) <==> Allowed(cfg, past, who, now, e)
  {
    hide StateOf, ValidRun, NotAfter, History.Stands, KeyAllowed, PolicyAllowed, OrderAllowed, ApprovalAllowed,
         Unsigned, SignatureAllowed, MandateAllowed, MandateApprovalAllowed, MaySign, MayAddIntent, MayApprove,
         MayAddMandate, MayApproveMandate, MayChangePolicy, MayAddKey, Balanced, DefaultPolicy, Set, Ready,
         Halted, Signs;
    MandateApprovalExactly(cfg, past, now, e);
  }

  lemma OnMandateRevoked(cfg: Config, past: seq<Stamp>, who: Socket, now: int, e: Event)
    requires ValidRun(cfg, past) && NotAfter(past, now) && e.MandateRevoked?
    ensures Permitted(cfg, StateOf(past), who, now, e) <==> Allowed(cfg, past, who, now, e)
  {
    hide StateOf, ValidRun, NotAfter, History.Stands, KeyAllowed, PolicyAllowed, OrderAllowed, ApprovalAllowed,
         Unsigned, SignatureAllowed, MandateAllowed, MandateApprovalAllowed, MaySign, MayAddIntent, MayApprove,
         MayAddMandate, MayApproveMandate, MayChangePolicy, MayAddKey, Balanced, DefaultPolicy, Set, Ready,
         Halted, Signs;
    GrantedExactly(cfg, past, e.mandateId);
  }

  /**
   The signer records an event exactly when the events before it allow it: the rules, which
   look at the state alone, and this account, which looks at the run, never differ.
   */
  lemma RecordedExactly(cfg: Config, past: seq<Stamp>, who: Socket, now: int, e: Event)
    requires ValidRun(cfg, past) && NotAfter(past, now)
    ensures Permitted(cfg, StateOf(past), who, now, e) <==> Allowed(cfg, past, who, now, e)
  {
    hide *;
    match e
    case Initialised(_, _, _) => OnInitialised(cfg, past, who, now, e);
    case NetworkAdded(_, _) => OnNetworkAdded(cfg, past, who, now, e);
    case AccountAdded(_, _, _, _) => OnAccountAdded(cfg, past, who, now, e);
    case EnrolStarted(_, _, _, _) => OnEnrolStarted(cfg, past, who, now, e);
    case KeyAdded(_, _, _, _) => OnKeyAdded(cfg, past, who, now, e);
    case KeyRevoked(_) => OnKeyRevoked(cfg, past, who, now, e);
    case PolicyChanged(_, _) => OnPolicyChanged(cfg, past, who, now, e);
    case IntentAdded(_, _, _) => OnIntentAdded(cfg, past, who, now, e);
    case Approved(_, _, _, _) => OnApproved(cfg, past, who, now, e);
    case IntentCancelled(_, _) => OnIntentCancelled(cfg, past, who, now, e);
    case Vetoed(_) => OnVetoed(cfg, past, who, now, e);
    case Frozen(_, _) => OnFrozen(cfg, past, who, now, e);
    case Unfrozen => OnUnfrozen(cfg, past, who, now, e);
    case Signed(_, _) => OnSigned(cfg, past, who, now, e);
    case Rekeyed => OnRekeyed(cfg, past, who, now, e);
    case MandateAdded(_, _) => OnMandateAdded(cfg, past, who, now, e);
    case MandateApproved(_, _, _, _) => OnMandateApproved(cfg, past, who, now, e);
    case MandateRevoked(_, _) => OnMandateRevoked(cfg, past, who, now, e);
  }

  // ----- what was recorded was allowed

  /** Every event of a run was allowed by the events before it, and told from which socket. */
  lemma RecordedWasAllowed(cfg: Config, run: seq<Stamp>, k: nat)
    requires ValidRun(cfg, run) && k < |run|
    ensures Allowed(cfg, run[..k], run[k].who, run[k].checked, run[k].event)
  {
    hide *;
    StepPermitted(cfg, run, k);
    RecordedExactly(cfg, run[..k], run[k].who, run[k].checked, run[k].event);
  }

  /** What a signed event keeps of the policy in force when it was checked. */
  lemma SignedUnder(cfg: Config, run: seq<Stamp>, k: nat)
    requires ValidRun(cfg, run) && k < |run| && run[k].event.Signed?
    ensures StateOf(run[..k]).policy.Some?
    ensures var p, pay := StateOf(run[..k]).policy.value, run[k].event.pay;
            && (pay.mode == First ==>
                  && pay.network in p.networks && TestNetwork(pay.network)
                  && pay.asset in p.limits && pay.amount <= p.limits[pay.asset].perPayout)
            && (pay.tx.EthTx? ==>
                  pay.tx.maxFeePerGas <= p.ethMaxFeeGwei * 1_000_000_000 && 21_000 <= pay.tx.gasLimit <= 200_000)
            && (pay.tx.BtcTx? ==> 1 <= |pay.tx.outpoints| <= 50)
  {
    hide ValidRun, StateOf, History.Stands, Listed, SignaturesIn, WindowSum, CoinsFree, FirstNonces, MandateSupported,
         Supported, Balanced;
    RecordedWasAllowed(cfg, run, k);
    var past, now, id, pay := run[..k], run[k].checked, run[k].event.intentId, run[k].event.pay;
    var org, p, i :| Runs(past, org, p) && Asks(past, i, id, pay) && TransactionAllowed(past, now, p, i, id, pay);
    StepPermitted(cfg, run, k);
    RunsIsState(cfg, past, org, p);
  }

  /** A key that was added once is known, and its invitation used, from then on. */
  lemma KeyStays(past: seq<Stamp>, i: nat)
    requires i < |past| && past[i].event.KeyAdded?
    ensures var e := past[i].event;
            Stands(past, Taken(e.enrolId)) && Stands(past, Enrolled(e.credId, e.person))
  {
    var e := past[i].event;
    assert StandsSince(past, Taken(e.enrolId), i);
    assert StandsSince(past, Enrolled(e.credId, e.person), i);
  }

  /**
   Every key came from an invitation of the admin to its person that had not expired, and no
   invitation gave two keys.
   */
  lemma KeyFromInvitation(cfg: Config, run: seq<Stamp>, k: nat) returns (j: nat)
    requires ValidRun(cfg, run) && k < |run| && run[k].event.KeyAdded?
    ensures j < k && run[j].who == Admin && run[j].event.EnrolStarted?
    ensures run[j].event.enrolId == run[k].event.enrolId && run[j].event.person == run[k].event.person
    ensures run[k].checked <= run[j].event.expiresAt
    ensures forall i :: 0 <= i < k && run[i].event.KeyAdded? ==>
              run[i].event.enrolId != run[k].event.enrolId && run[i].event.credId != run[k].event.credId
  {
    hide ValidRun, StateOf, Set;
    RecordedWasAllowed(cfg, run, k);
    var past, e := run[..k], run[k].event;
    var t :| Stands(past, Invited(e.enrolId, e.person, t)) && run[k].checked <= t;
    j :| 0 <= j < |past| && StandsSince(past, Invited(e.enrolId, e.person, t), j);
    assert past[j] == run[j];
    RecordedWasAllowed(cfg, run, j);
    forall i | 0 <= i < k && run[i].event.KeyAdded?
      ensures run[i].event.enrolId != e.enrolId && run[i].event.credId != e.credId
    {
      assert past[i] == run[i];
      KeyStays(past, i);
    }
  }
}
