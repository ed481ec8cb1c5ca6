/**
 The app socket can only brake: whatever it does, it cannot thaw, revive a key, undo a
 cancellation, a veto or a revocation, loosen the policy, or gain keys the admin did not
 open an enrolment for (signer/protocol.ts:15-54).
 */
module Brakes {
  import opened Basics
  import opened Policies
  import opened SignerState
  import opened SignerRules
  import opened SignerRuns
  import Admissions
  import Authorisation
  import Payments

  function ActiveKeys(keys: map<Id, Key>): set<Id> {
    set c | c in keys && keys[c].active
  }

  function OpenEnrolments(enrolments: map<Id, Enrolment>): set<Id> {
    set e | e in enrolments && !enrolments[e].done
  }

  /** Keys stay as they were; a new one belongs to somebody the admin had invited. */
  ghost predicate KeysBraked(s: State, s': State) {
    && (forall c :: c in s.keys ==>
          c in s'.keys && s'.keys[c].person == s.keys[c].person && s'.keys[c].active == s.keys[c].active)
    && (forall e :: e in s'.enrolments ==>
          && e in s.enrolments && s.enrolments[e].person == s'.enrolments[e].person
          && (s.enrolments[e].done ==> s'.enrolments[e].done))
    && (forall c :: c in s'.keys && c !in s.keys ==>
          exists e :: e in OpenEnrolments(s.enrolments) && s.enrolments[e].person == s'.keys[c].person)
    && |ActiveKeys(s'.keys)| + |OpenEnrolments(s'.enrolments)|
       <= |ActiveKeys(s.keys)| + |OpenEnrolments(s.enrolments)|
  }

  ghost predicate IntentsBraked(xs: seq<IntentRecord>, xs': seq<IntentRecord>) {
    && |xs| <= |xs'|
    && forall i :: 0 <= i < |xs| ==>
         && xs'[i].intentId == xs[i].intentId
         && (xs[i].cancelled ==> xs'[i].cancelled)
         && (xs[i].vetoed ==> xs'[i].vetoed)
  }

  ghost predicate MandatesBraked(ms: map<Id, MandateRecord>, ms': map<Id, MandateRecord>) {
    forall m :: m in ms ==>
      m in ms' && ms'[m].mandate == ms[m].mandate && (ms[m].revoked ==> ms'[m].revoked)
  }

  ghost predicate PolicyBraked(p: Option<Policy>, p': Option<Policy>) {
    p' == p || (p.Some? && p'.Some? && IsTightening(p.value, p'.value))
  }

  ghost predicate Braked(s: State, s': State) {
    && (s.frozen.Some? ==> s'.frozen == s.frozen)
    && s'.orgId == s.orgId
    && PolicyBraked(s.policy, s'.policy)
    && KeysBraked(s, s')
    && IntentsBraked(s.intents, s'.intents)
    && MandatesBraked(s.mandates, s'.mandates)
  }

  lemma KeysBrakedTransitive(a: State, b: State, c: State)
    requires KeysBraked(a, b) && KeysBraked(b, c)
    ensures KeysBraked(a, c)
  {
    forall k | k in c.keys && k !in a.keys
      ensures exists e :: e in OpenEnrolments(a.enrolments) && a.enrolments[e].person == c.keys[k].person
    {
      if k !in b.keys {
        var e :| e in OpenEnrolments(b.enrolments) && b.enrolments[e].person == c.keys[k].person;
        assert e in OpenEnrolments(a.enrolments);
      }
    }
  }

  lemma BrakedTransitive(a: State, b: State, c: State)
    requires Braked(a, b) && Braked(b, c)
    ensures Braked(a, c)
  {
    KeysBrakedTransitive(a, b, c);
    hide KeysBraked;
    if a.policy != b.policy && b.policy != c.policy {
      TighteningTransitive(a.policy.value, b.policy.value, c.policy.value);
    }
  }

  lemma OneMoreActive(keys: map<Id, Key>, credId: Id, k: Key)
    requires credId !in keys && k.active
    ensures |ActiveKeys(keys[credId := k])| == |ActiveKeys(keys)| + 1
  {
    var after := ActiveKeys(keys[credId := k]);
    assert forall c :: c in after <==> c in ActiveKeys(keys) || c == credId;
    assert after == ActiveKeys(keys) + {credId};
  }

  lemma OneLessOpen(enrolments: map<Id, Enrolment>, id: Id)
    requires id in enrolments && !enrolments[id].done
    ensures |OpenEnrolments(enrolments[id := enrolments[id].(done := true)])| == |OpenEnrolments(enrolments)| - 1
  {
    var after := OpenEnrolments(enrolments[id := enrolments[id].(done := true)]);
    assert forall e :: e in after <==> e in OpenEnrolments(enrolments) && e != id;
    assert after == OpenEnrolments(enrolments) - {id};
  }

  /** Finishing an enrolment trades one open enrolment for one active key. */
  lemma EnrolTrades(s: State, now: int, at: int, e: Event)
    requires e.KeyAdded? && MayAddKey(s, now, e.enrolId, e.person, e.credId)
    ensures KeysBraked(s, Apply(s, at, e))
  {
    hide IntentsAfter, MandatesAfter;
    var s' := Apply(s, at, e);
    var k := Key(e.person, e.counter, true, at);
    OneMoreActive(s.keys, e.credId, k);
    OneLessOpen(s.enrolments, e.enrolId);
    assert e.enrolId in OpenEnrolments(s.enrolments);
    hide ActiveKeys, OpenEnrolments;
    assert s'.keys == s.keys[e.credId := k];
    assert s'.enrolments == s.enrolments[e.enrolId := s.enrolments[e.enrolId].(done := true)];
  }

  lemma KeysUntouched(s: State, at: int, e: Event)
    requires !e.KeyAdded? && !e.KeyRevoked? && !e.EnrolStarted?
    ensures KeysBraked(s, Apply(s, at, e))
  {
    hide IntentsAfter, MandatesAfter;
    var s' := Apply(s, at, e);
    assert s'.enrolments == s.enrolments;
    assert s'.keys.Keys == s.keys.Keys;
    assert forall c :: c in s.keys ==> s'.keys[c].active == s.keys[c].active && s'.keys[c].person == s.keys[c].person;
    assert ActiveKeys(s'.keys) == ActiveKeys(s.keys);
  }

  lemma AppGuard(cfg: Config, s: State, now: int, e: Event)
    requires Permitted(cfg, s, App, now, e)
    ensures Guard(cfg, s, now, e)
    ensures !e.KeyRevoked? && !e.EnrolStarted? && !e.Unfrozen? && !e.Initialised?
    ensures e.KeyAdded? ==> MayAddKey(s, now, e.enrolId, e.person, e.credId)
    ensures e.Frozen? ==> s.frozen.None?
    ensures e.PolicyChanged? ==> s.policy.Some? && IsTightening(s.policy.value, e.policy)
    ensures e.MandateAdded? ==> e.mandateId !in s.mandates
  {
    hide MaySign, MayAddIntent, MayApprove, MayApproveMandate, MayAddKey, IsTightening;
  }

  lemma RecordBraked(s: State, r: IntentRecord, at: int, e: Event)
    ensures var r' := RecordAfter(s, r, at, e);
            r'.intentId == r.intentId && (r.cancelled ==> r'.cancelled) && (r.vetoed ==> r'.vetoed)
  {
    hide Quorum;
  }

  lemma IntentsStep(cfg: Config, s: State, now: int, at: int, e: Event)
    requires Guard(cfg, s, now, e)
    ensures IntentsBraked(s.intents, Apply(s, at, e).intents)
  {
    hide Guard, Apply, RecordAfter, AddedRecord;
    IntentsChange(cfg, s, now, at, e);
    if NamesIntent(e) {
      RecordBraked(s, s.intents[IndexOf(s.intents, e.intentId)], at, e);
    }
  }

  lemma BrakedStep(cfg: Config, s: State, now: int, at: int, e: Event)
    requires Permitted(cfg, s, App, now, e)
    ensures Braked(s, Apply(s, at, e))
  {
    hide Permitted, Guard, KeysBraked, IntentsBraked, IntentsAfter, KeysAfter, MandateQuorum, IsTightening, MayAddKey;
    AppGuard(cfg, s, now, e);
    IntentsStep(cfg, s, now, at, e);
    if e.KeyAdded? {
      EnrolTrades(s, now, at, e);
    } else {
      KeysUntouched(s, at, e);
    }
  }

  lemma BrakedReflexive(s: State)
    ensures Braked(s, s)
  {
  }

  /** The app can only brake: every stretch of a run in which only the app acts. */
  lemma {:induction false} AppOnlyBrakes(cfg: Config, run: seq<Stamp>, k: nat)
    requires ValidRun(cfg, run) && k <= |run|
    requires forall j :: k <= j < |run| ==> run[j].who == App
    ensures Braked(StateOf(run[..k]), StateOf(run))
  {
    hide Permitted, Apply, Braked;
    if k == |run| {
      assert run[..k] == run;
      BrakedReflexive(StateOf(run));
    } else {
      var init, last := run[..|run| - 1], run[|run| - 1];
      assert init[..k] == run[..k];
      AppOnlyBrakes(cfg, init, k);
      BrakedStep(cfg, StateOf(init), last.checked, last.at, last.event);
      BrakedTransitive(StateOf(run[..k]), StateOf(init), StateOf(run));
    }
  }

  /** In such a stretch at most one key becomes active per enrolment that was open. */
  lemma AppGainsOnlyInvitedKeys(cfg: Config, run: seq<Stamp>, k: nat)
    requires ValidRun(cfg, run) && k <= |run|
    requires forall j :: k <= j < |run| ==> run[j].who == App
    ensures var s, s' := StateOf(run[..k]), StateOf(run);
            |ActiveKeys(s'.keys) - ActiveKeys(s.keys)| <= |OpenEnrolments(s.enrolments)|
  {
    hide ValidRun, StateOf;
    AppOnlyBrakes(cfg, run, k);
    var s, s' := StateOf(run[..k]), StateOf(run);
    assert ActiveKeys(s.keys) <= ActiveKeys(s'.keys);
    assert |ActiveKeys(s'.keys) - ActiveKeys(s.keys)| == |ActiveKeys(s'.keys)| - |ActiveKeys(s.keys)|;
  }

  // ----- what that means, field by field

  /** Over a stretch of app commands no field of the policy gets looser. */
  lemma StretchNoLooser(cfg: Config, run: seq<Stamp>, k: nat)
    requires ValidRun(cfg, run) && k <= |run|
    requires forall j :: k <= j < |run| ==> run[j].who == App
    requires StateOf(run[..k]).policy.Some?
    ensures StateOf(run).policy.Some?
    ensures var p, p' := StateOf(run[..k]).policy.value, StateOf(run).policy.value;
            && p'.whitelistCooldownSec >= p.whitelistCooldownSec
            && p'.approvalWindowSec <= p.approvalWindowSec
            && p'.btcSatPerVb <= p.btcSatPerVb && p'.ethMaxFeeGwei <= p.ethMaxFeeGwei
            && p'.networks <= p.networks
            && (p.mode == FourEyes ==> p'.mode == FourEyes)
            && p'.soloMinKeys >= p.soloMinKeys && p'.soloDelaySec >= p.soloDelaySec
            && (forall a :: a in p'.limits ==>
                  && a in p.limits
                  && p'.limits[a].perPayout <= p.limits[a].perPayout && p'.limits[a].perDay <= p.limits[a].perDay)
  {
    hide ValidRun, StateOf, IsTightening, KeysBraked, IntentsBraked, MandatesBraked;
    AppOnlyBrakes(cfg, run, k);
    Admissions.TighteningExactly(StateOf(run[..k]).policy.value, StateOf(run).policy.value);
  }

  /** The record was approved in the stretch: it has times now and had none before. */
  ghost predicate ApprovedSince(run: seq<Stamp>, k: nat, w: nat) {
    && k <= |run| && w < |StateOf(run).intents| && StateOf(run).intents[w].approvedAt.Some?
    && (w < |StateOf(run[..k]).intents| ==> StateOf(run[..k]).intents[w].approvedAt.None?)
  }

  /** Waiting times at least, and windows at most, those of a policy. */
  predicate TimesWithin(r: IntentRecord, p: Policy) {
    && (r.intent.purpose == Whitelist ==>
          r.activeFrom.Some? && r.activeFrom.value >= r.approvedAt.GetOr(0) + p.whitelistCooldownSec)
    && (r.intent.purpose != Whitelist ==>
          && r.signableAt.Some? && r.signUntil.Some?
          && r.signUntil.value <= r.signableAt.value + p.approvalWindowSec)
  }

  /**
   What is approved in a stretch of app commands waits at least the cooldown in force at its
   start, and may be signed for at most the window in force then.
   */
  lemma {:induction false} StretchTimes(cfg: Config, run: seq<Stamp>, k: nat, w: nat)
    requires ValidRun(cfg, run) && ApprovedSince(run, k, w)
    requires forall j :: k <= j < |run| ==> run[j].who == App
    requires StateOf(run[..k]).policy.Some?
    ensures TimesWithin(StateOf(run).intents[w], StateOf(run[..k]).policy.value)
  {
    hide Permitted, Guard, Apply, TimesWithin;
    assert k < |run| by {
      assert run[..|run|] == run;
    }
    var init, last := run[..|run| - 1], run[|run| - 1];
    var s, s' := StateOf(init), StateOf(run);
    assert init[..k] == run[..k];
    StepGuard(cfg, s, last);
    if w < |s.intents| && s.intents[w].approvedAt.Some? {
      StretchTimes(cfg, init, k, w);
      TimesStay(cfg, s, last, w, StateOf(run[..k]).policy.value);
    } else {
      Authorisation.SettledHasQuorum(cfg, s, last.checked, last.at, last.event, w);
      StretchNoLooser(cfg, run, k);
      SettledWithin(s'.intents[w], s'.policy.value, StateOf(run[..k]).policy.value, last.at);
    }
  }

  lemma StepGuard(cfg: Config, s: State, st: Stamp)
    requires Permitted(cfg, s, st.who, st.checked, st.event)
    ensures Guard(cfg, s, st.checked, st.event)
  {
    hide Guard;
  }

  lemma TimesStay(cfg: Config, s: State, st: Stamp, w: nat, p: Policy)
    requires Guard(cfg, s, st.checked, st.event) && w < |s.intents| && s.intents[w].approvedAt.Some?
    requires TimesWithin(s.intents[w], p)
    ensures w < |Apply(s, st.at, st.event).intents| && TimesWithin(Apply(s, st.at, st.event).intents[w], p)
  {
    hide Guard, Apply, RecordAfter, AddedRecord;
    IntentsChange(cfg, s, st.checked, st.at, st.event);
    if NamesIntent(st.event) {
      Authorisation.ApprovedStaysFixed(s, s.intents[IndexOf(s.intents, st.event.intentId)], st.at, st.event);
    }
  }

  lemma SettledWithin(r: IntentRecord, p': Policy, p: Policy, at: int)
    requires r.approvedAt == Some(at)
    requires p'.whitelistCooldownSec >= p.whitelistCooldownSec && p'.approvalWindowSec <= p.approvalWindowSec
    requires r.intent.purpose.Payout? ==>
               && r.signableAt == Some(at + SignDelay(p'))
               && r.signUntil == Some(at + SignDelay(p') + p'.approvalWindowSec)
    requires r.intent.purpose.Whitelist? ==> r.activeFrom == Some(at + p'.whitelistCooldownSec)
    ensures TimesWithin(r, p)
  {
  }

  /**
   What is signed in a stretch of app commands keeps to the policy at its start: networks and
   amounts of first signatures, and the fee cap of every Ethereum transaction.
   */
  lemma StretchPayments(cfg: Config, run: seq<Stamp>, k: nat, j: nat)
    requires ValidRun(cfg, run) && k <= j < |run| && run[j].event.Signed?
    requires forall i :: k <= i < |run| ==> run[i].who == App
    requires StateOf(run[..k]).policy.Some?
    ensures var p, pay := StateOf(run[..k]).policy.value, run[j].event.pay;
            && (pay.mode == First ==>
                  && pay.network in p.networks
                  && pay.asset in p.limits && pay.amount <= p.limits[pay.asset].perPayout)
            && (pay.tx.EthTx? ==> pay.tx.maxFeePerGas <= p.ethMaxFeeGwei * 1_000_000_000)
  {
    hide ValidRun, StateOf, Guard, Admissions.Halted, Admissions.BtcAllowed, Admissions.Asks, Admissions.Runs,
         Permitted;
    assert run[..j][..k] == run[..k];
    StepPermitted(cfg, run, j);
    StretchNoLooser(cfg, run[..j], k);
    Admissions.SignedUnder(cfg, run, j);
  }

  // ----- what the brakes do not cover

  /**
   Over a stretch of app commands the quorum gets no looser if and only if the mode stays or
   solo asked for one key, and the delay no shorter if and only if the mode stays or there
   was none: the app can trade a solo policy for four eyes.
   */
  lemma StretchQuorumExactly(cfg: Config, run: seq<Stamp>, k: nat)
    requires ValidRun(cfg, run) && k <= |run|
    requires forall j :: k <= j < |run| ==> run[j].who == App
    requires StateOf(run[..k]).policy.Some?
    ensures StateOf(run).policy.Some?
    ensures var p, p' := StateOf(run[..k]).policy.value, StateOf(run).policy.value;
            && (QuorumStricter(p, p') <==> p.mode == p'.mode || p.soloMinKeys <= 1)
            && (SignDelay(p') >= SignDelay(p) <==> p.mode == p'.mode || p.soloDelaySec <= 0)
  {
    hide ValidRun, StateOf, IsTightening, QuorumStricter, KeysBraked, IntentsBraked, MandatesBraked;
    AppOnlyBrakes(cfg, run, k);
    var p, p' := StateOf(run[..k]).policy.value, StateOf(run).policy.value;
    if p' == p {
      StricterReflexive(p);
    } else {
      TighteningQuorumExactly(p, p');
      TighteningDelayExactly(p, p');
    }
  }

  lemma StricterReflexive(p: Policy)
    ensures QuorumStricter(p, p)
  {
  }

  /** The default policy with four eyes in place of solo, as the next version. */
  function TwoPeople(cfg: Config, networks: set<Network>): Policy {
    var p := DefaultPolicy(networks, false);
    p.(version := 2, prev := Some(cfg.policyHash(p)), mode := FourEyes)
  }

  lemma TwoPeopleLoosens(cfg: Config, networks: set<Network>)
    requires forall n :: n in networks ==> !Live(n)
    ensures var p, p' := DefaultPolicy(networks, false), TwoPeople(cfg, networks);
            && IsTightening(p, p') && Acceptable(p', false)
            && !QuorumStricter(p, p') && SignDelay(p') < SignDelay(p)
  {
    TighteningQuorumExactly(DefaultPolicy(networks, false), TwoPeople(cfg, networks));
  }

  /**
   It happens: a freshly set up signer with its default policy accepts the switch from the
   app, after which two keys of two people do where one person needed two keys and half an hour.
   */
  lemma AppLoosens(cfg: Config, networks: set<Network>) returns (run: seq<Stamp>)
    requires !cfg.dev && forall n :: n in networks ==> !Live(n)
    ensures ValidRun(cfg, run) && |run| == 2 && run[1].who == App
    ensures StateOf(run[..1]).policy == Some(DefaultPolicy(networks, false))
    ensures StateOf(run).policy == Some(TwoPeople(cfg, networks))
    ensures var p, p' := DefaultPolicy(networks, false), TwoPeople(cfg, networks);
            !QuorumStricter(p, p') && SignDelay(p') < SignDelay(p)
  {
    hide QuorumStricter, DefaultPolicy, TwoPeople, IsTightening, Acceptable, ValidRun, StateOf;
    var setUp := Initialised("org", map n | n in networks :: "seed", DefaultPolicy(networks, false));
    var first, second := Stamp(Admin, 0, 0, setUp), Stamp(App, 0, 0, PolicyChanged(TwoPeople(cfg, networks), App));
    TwoPeopleLoosens(cfg, networks);
    VersionTwo(cfg, networks);
    NothingYet(cfg);
    assert setUp.fingerprints.Keys == networks;
    ExtendRun(cfg, [], first);
    assert [] + [first] == [first];
    ExtendRun(cfg, [first], second);
    run := [first] + [second];
    assert run[..1] == [first];
  }

  lemma VersionTwo(cfg: Config, networks: set<Network>)
    ensures DefaultPolicy(networks, false).version == 1 && TwoPeople(cfg, networks).version == 2
    ensures TwoPeople(cfg, networks).prev == Some(cfg.policyHash(DefaultPolicy(networks, false)))
  {
  }

  lemma NothingYet(cfg: Config)
    ensures ValidRun(cfg, []) && StateOf([]) == EmptyState()
  {
  }
}
