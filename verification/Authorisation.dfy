/**
 Who stood behind a payment: what held when an intent's first signature was given, and
 where the approvals and waiting times it relies on came from earlier in the run.
 */
module Authorisation {
  import opened Basics
  import opened Policies
  import opened SignerState
  import opened SignerRules
  import opened SignerRuns

  // ----- approvals name the owner of the key they were given with

  predicate Owned(keys: map<Id, Key>, a: Approval) {
    a.credId in keys && keys[a.credId].person == a.person
  }

  /** What the mandate allows covers the intent, whose initiator is the grantee. */
  predicate Scoped(m: Mandate, i: Intent) {
    && i.purpose.Payout?
    && i.initiator == m.grantee
    && i.network == m.network
    && i.purpose.asset == m.asset
    && i.purpose.amount <= m.perPayout
    && i.destination in m.destinations
  }

  ghost predicate IntentApprovalsOwned(s: State) {
    forall i, a :: 0 <= i < |s.intents| && a in s.intents[i].approvals ==> Owned(s.keys, a)
  }

  ghost predicate MandateApprovalsOwned(s: State) {
    forall m, a :: m in s.mandates && a in s.mandates[m].approvals ==>
      Owned(s.keys, a) && a.person != s.mandates[m].mandate.grantee
  }

  ghost predicate IntentsScoped(s: State) {
    forall i :: 0 <= i < |s.intents| && s.intents[i].mandateId.Some? ==>
      && s.intents[i].mandateId.value in s.mandates
      && Scoped(s.mandates[s.intents[i].mandateId.value].mandate, s.intents[i].intent)
      && s.mandates[s.intents[i].mandateId.value].mandate.validFrom <= s.intents[i].createdAt
  }

  ghost predicate AuthInv(s: State) {
    IntentApprovalsOwned(s) && MandateApprovalsOwned(s) && IntentsScoped(s)
  }

  lemma GuardOnKeys(cfg: Config, s: State, now: int, e: Event)
    requires Guard(cfg, s, now, e)
    ensures e.KeyAdded? ==> e.credId !in s.keys
    ensures e.MandateApproved? ==> MayApproveMandate(s, now, e.mandateId, e.credId, e.person)
    ensures e.MandateAdded? ==> e.mandateId !in s.mandates
  {
    hide MaySign, MayAddIntent, MayApprove, MayApproveMandate, MayChangePolicy, DefaultPolicy;
  }

  lemma KeysKeepOwners(keys: map<Id, Key>, at: int, e: Event, a: Approval)
    requires Owned(keys, a) && (e.KeyAdded? ==> e.credId !in keys)
    ensures Owned(KeysAfter(keys, at, e), a)
  {
  }

  lemma ApprovalsAfter(s: State, r: IntentRecord, at: int, e: Event)
    ensures RecordAfter(s, r, at, e).approvals ==
            if e.Approved? then r.approvals + [Approval(e.credId, e.person, at)] else r.approvals
  {
    hide Quorum;
  }

  lemma AddedPlain(s: State, at: int, e: Event)
    requires e.IntentAdded?
    ensures AddedRecord(s, at, e).approvals == [] && AddedRecord(s, at, e).mandateId == e.under
    ensures AddedRecord(s, at, e).intent == e.intent && AddedRecord(s, at, e).createdAt == at
  {
    hide Quorum;
  }

  lemma IntentOwnersStep(cfg: Config, s: State, now: int, at: int, e: Event)
    requires Guard(cfg, s, now, e) && IntentApprovalsOwned(s)
    ensures IntentApprovalsOwned(Apply(s, at, e))
  {
    hide Guard, IntentsAfter, MandatesAfter, RecordAfter, AddedRecord, MayApprove, MaySign, MayAddIntent,
         MayApproveMandate, KeysAfter;
    IntentsChange(cfg, s, now, at, e);
    GuardOnKeys(cfg, s, now, e);
    var s' := Apply(s, at, e);
    forall i, a | 0 <= i < |s'.intents| && a in s'.intents[i].approvals
      ensures Owned(s'.keys, a)
    {
      assert Owned(s.keys, a) by {
        if e.IntentAdded? {
          AddedPlain(s, at, e);
        } else if NamesIntent(e) {
          ApprovalsAfter(s, s.intents[IndexOf(s.intents, e.intentId)], at, e);
          if e.Approved? {
            ApproverOwns(cfg, s, now, e);
          }
        }
      }
      KeysKeepOwners(s.keys, at, e, a);
    }
  }

  lemma ApproverOwns(cfg: Config, s: State, now: int, e: Event)
    requires Guard(cfg, s, now, e) && e.Approved?
    ensures forall at :: Owned(s.keys, Approval(e.credId, e.person, at))
  {
    hide Guard;
    GuardOnIntents(cfg, s, now, e);
  }

  lemma MandateOwnersStep(cfg: Config, s: State, now: int, at: int, e: Event)
    requires Guard(cfg, s, now, e) && MandateApprovalsOwned(s)
    ensures MandateApprovalsOwned(Apply(s, at, e))
  {
    hide Guard, IntentsAfter, MandateQuorum, KeysAfter;
    GuardOnKeys(cfg, s, now, e);
    var s' := Apply(s, at, e);
    forall m, a | m in s'.mandates && a in s'.mandates[m].approvals
      ensures Owned(s'.keys, a) && a.person != s'.mandates[m].mandate.grantee
    {
      assert Owned(s.keys, a);
      KeysKeepOwners(s.keys, at, e, a);
    }
  }

  lemma AddedScoped(s: State, now: int, id: Id, i: Intent, under: Option<Id>)
    requires MayAddIntent(s, now, id, i, under) && under.Some?
    ensures under.value in s.mandates && Scoped(s.mandates[under.value].mandate, i)
    ensures s.mandates[under.value].mandate.validFrom <= now < s.mandates[under.value].mandate.validUntil
  {
    hide Tally, MandateQuorum, ActiveSince;
  }

  lemma ScopedStep(cfg: Config, s: State, now: int, at: int, e: Event)
    requires Guard(cfg, s, now, e) && IntentsScoped(s) && now <= at
    ensures IntentsScoped(Apply(s, at, e))
  {
    hide Guard, IntentsAfter, MandatesAfter, KeysAfter, RecordAfter, AddedRecord, Scoped, MayApprove,
         MaySign, MayAddIntent, MayApproveMandate;
    IntentsChange(cfg, s, now, at, e);
    GuardOnIntents(cfg, s, now, e);
    GuardOnKeys(cfg, s, now, e);
    var s' := Apply(s, at, e);
    forall i | 0 <= i < |s'.intents| && s'.intents[i].mandateId.Some?
      ensures s'.intents[i].mandateId.value in s'.mandates
      ensures Scoped(s'.mandates[s'.intents[i].mandateId.value].mandate, s'.intents[i].intent)
      ensures s'.mandates[s'.intents[i].mandateId.value].mandate.validFrom <= s'.intents[i].createdAt
    {
      if i < |s.intents| {
        if NamesIntent(e) {
          RecordKept(s, s.intents[IndexOf(s.intents, e.intentId)], at, e);
        }
      } else {
        AddedPlain(s, at, e);
        AddedScoped(s, now, e.intentId, e.intent, e.under);
      }
      MandateFixed(s, at, e, s'.intents[i].mandateId.value);
    }
  }

  lemma {:induction false} AuthRun(cfg: Config, run: seq<Stamp>)
    requires ValidRun(cfg, run)
    ensures AuthInv(StateOf(run))
  {
    hide Guard, Apply;
    if |run| > 0 {
      var init, last := run[..|run| - 1], run[|run| - 1];
      AuthRun(cfg, init);
      hide IntentApprovalsOwned, MandateApprovalsOwned, IntentsScoped;
      IntentOwnersStep(cfg, StateOf(init), last.checked, last.at, last.event);
      MandateOwnersStep(cfg, StateOf(init), last.checked, last.at, last.event);
      ScopedStep(cfg, StateOf(init), last.checked, last.at, last.event);
    }
  }

  // ----- what a quorum is

  /** This approval was given with a key that is active now and belongs to its person. */
  predicate Stands(keys: map<Id, Key>, a: Approval) {
    Owned(keys, a) && keys[a.credId].active
  }

  lemma {:induction false} TwoOf(persons: set<Id>) returns (x: Id, y: Id)
    requires |persons| >= 2
    ensures x in persons && y in persons && x != y
  {
    x :| x in persons;
    var rest := persons - {x};
    assert |rest| >= 1;
    y :| y in rest;
  }

  /** The keys of a person that are active. */
  ghost function Wielded(keys: map<Id, Key>, person: Id): set<Id> {
    set c | c in keys && keys[c].person == person && keys[c].active
  }

  /** Four eyes: two people, each with an active key of their own. Solo: enough active keys. */
  ghost predicate Backed(p: Policy, keys: map<Id, Key>, approvals: seq<Approval>) {
    if p.mode == FourEyes then
      exists a, b :: a in approvals && b in approvals && a.person != b.person && a.credId != b.credId
                     && Stands(keys, a) && Stands(keys, b)
    else
      exists a :: a in approvals && Stands(keys, a) && |Wielded(keys, a.person)| >= p.soloMinKeys
  }

  lemma QuorumIsBacked(policy: Option<Policy>, keys: map<Id, Key>, approvals: seq<Approval>)
    requires forall a :: a in approvals ==> Owned(keys, a)
    ensures ApprovalsQuorum(policy, keys, approvals) ==> policy.Some? && Backed(policy.value, keys, approvals)
  {
    if ApprovalsQuorum(policy, keys, approvals) {
      var persons := ValidPersons(keys, approvals);
      if policy.value.mode == FourEyes {
        var x, y := TwoOf(persons);
        var a :| a in approvals && a.credId in keys && keys[a.credId].active && a.person == x;
        var b :| b in approvals && b.credId in keys && keys[b.credId].active && b.person == y;
        assert Stands(keys, a) && Stands(keys, b);
      } else {
        var x :| x in persons && Lookup(ActiveKeysByPerson(keys), x, 0) >= policy.value.soloMinKeys;
        ActiveCount(keys, x);
      assert ActiveKeySet(keys, x) == Wielded(keys, x);
        var a :| a in approvals && a.credId in keys && keys[a.credId].active && a.person == x;
        assert Stands(keys, a);
      }
    }
  }

  /** And whoever is backed like this has a quorum. */
  lemma BackedIsQuorum(p: Policy, keys: map<Id, Key>, approvals: seq<Approval>)
    requires Backed(p, keys, approvals)
    ensures ApprovalsQuorum(Some(p), keys, approvals)
  {
    var persons := ValidPersons(keys, approvals);
    if p.mode == FourEyes {
      var a, b :| a in approvals && b in approvals && a.person != b.person && a.credId != b.credId
                  && Stands(keys, a) && Stands(keys, b);
      assert {a.person, b.person} <= persons;
      AtLeastTwo(persons, a.person, b.person);
    } else {
      var a :| a in approvals && Stands(keys, a) && |Wielded(keys, a.person)| >= p.soloMinKeys;
      ActiveCount(keys, a.person);
      assert ActiveKeySet(keys, a.person) == Wielded(keys, a.person);
      assert a.person in persons;
    }
  }

  lemma AtLeastTwo(persons: set<Id>, x: Id, y: Id)
    requires x in persons && y in persons && x != y
    ensures |persons| >= 2
  {
    assert y in persons - {x};
    assert |persons - {x}| >= 1;
  }

  // ----- where an approval came from

  /** Step `j` brought record `i` to quorum and fixed its times by the policy of that moment. */
  ghost predicate SettledAt(run: seq<Stamp>, i: nat, r: IntentRecord, j: nat) {
    && j < |run|
    && var s := StateOf(run[..j + 1]);
       && i < |s.intents| && s.policy.Some?
       && Quorum(s, s.intents[i])
       && r.approvedAt == Some(run[j].at)
       && (r.intent.purpose.Payout? ==>
             var ready := run[j].at + if s.policy.value.mode == Solo then s.policy.value.soloDelaySec else 0;
             r.signableAt == Some(ready) && r.signUntil == Some(ready + s.policy.value.approvalWindowSec))
       && (r.intent.purpose.Whitelist? ==>
             r.activeFrom == Some(run[j].at + s.policy.value.whitelistCooldownSec))
  }

  ghost predicate SameTimes(r: IntentRecord, r': IntentRecord) {
    && r'.intent == r.intent && r'.approvedAt == r.approvedAt && r'.signableAt == r.signableAt
    && r'.signUntil == r.signUntil && r'.activeFrom == r.activeFrom
  }

  lemma ApprovedStaysFixed(s: State, r: IntentRecord, at: int, e: Event)
    ensures r.approvedAt.Some? || !e.Approved? ==> SameTimes(r, RecordAfter(s, r, at, e))
  {
    hide Quorum;
  }

  /** Settling leaves the quorum in place in the state the event produces. */
  lemma SettledHasQuorum(cfg: Config, s: State, now: int, at: int, e: Event, i: nat)
    requires Guard(cfg, s, now, e)
    requires i < |Apply(s, at, e).intents| && Apply(s, at, e).intents[i].approvedAt.Some?
    requires i < |s.intents| ==> s.intents[i].approvedAt.None?
    ensures var s' := Apply(s, at, e);
            var r := s'.intents[i];
            && s'.policy.Some? && Quorum(s', r) && r.approvedAt == Some(at)
            && (r.intent.purpose.Payout? ==>
                  && r.signableAt == Some(at + SignDelay(s'.policy.value))
                  && r.signUntil == Some(at + SignDelay(s'.policy.value) + s'.policy.value.approvalWindowSec))
            && (r.intent.purpose.Whitelist? ==> r.activeFrom == Some(at + s'.policy.value.whitelistCooldownSec))
  {
    hide Guard, Quorum, IntentsAfter, MaySign, MayAddIntent;
    IntentsChange(cfg, s, now, at, e);
    GuardOnIntents(cfg, s, now, e);
    var s' := Apply(s, at, e);
    var r := s'.intents[i];
    if i < |s.intents| {
      var n := IndexOf(s.intents, e.intentId);
      ApprovedStaysFixed(s, s.intents[n], at, e);
      assert e.Approved? && i == n;
    } else {
      assert e.IntentAdded?;
    }
    assert s'.policy == s.policy && s'.mandates == s.mandates;
    assert Quorum(s, r) by { SettledQuorum(s, at, e, i, r); }
    QuorumAfter(s, at, e, r);
  }

  lemma SettledQuorum(s: State, at: int, e: Event, i: nat, r: IntentRecord)
    requires (e.Approved? && i < |s.intents| && s.intents[i].approvedAt.None?
              && r == RecordAfter(s, s.intents[i], at, e))
             || (e.IntentAdded? && r == AddedRecord(s, at, e))
    requires r.approvedAt.Some?
    ensures Quorum(s, r)
  {
    hide ApprovalsQuorum, MandateQuorum;
  }

  /** Approving an intent or adding one changes nothing a quorum depends on. */
  lemma QuorumAfter(s: State, at: int, e: Event, r: IntentRecord)
    requires e.Approved? || e.IntentAdded?
    ensures Quorum(Apply(s, at, e), r) <==> Quorum(s, r)
  {
    hide IntentsAfter, ApprovalsSatisfied, ActiveKeysByPerson, ValidPersons;
    if e.Approved? {
      CounterIrrelevant(s.keys, e.credId, e.counter, r.approvals);
      if r.mandateId.Some? && r.mandateId.value in s.mandates {
        CounterIrrelevant(s.keys, e.credId, e.counter, s.mandates[r.mandateId.value].approvals);
      }
    }
  }

  /** Every approved intent was brought to quorum by one step of the run. */
  lemma {:induction false} ApprovalProvenance(cfg: Config, run: seq<Stamp>, i: nat) returns (j: nat)
    requires ValidRun(cfg, run) && i < |StateOf(run).intents| && StateOf(run).intents[i].approvedAt.Some?
    ensures SettledAt(run, i, StateOf(run).intents[i], j)
  {
    hide Guard, Apply, Quorum;
    var init, last := run[..|run| - 1], run[|run| - 1];
    var s, s' := StateOf(init), StateOf(run);
    assert run[..|run|] == run;
    if i < |s.intents| && s.intents[i].approvedAt.Some? {
      j := ApprovalProvenance(cfg, init, i);
      assert init[..j + 1] == run[..j + 1];
      IntentsChange(cfg, s, last.checked, last.at, last.event);
      assert SameTimes(s.intents[i], s'.intents[i]) by {
        if NamesIntent(last.event) {
          ApprovedStaysFixed(s, s.intents[IndexOf(s.intents, last.event.intentId)], last.at, last.event);
        }
      }
    } else {
      j := |run| - 1;
      SettledHasQuorum(cfg, s, last.checked, last.at, last.event, i);
    }
  }

  /** Step `j` added record `i` or an approval of it, and with it the record has a quorum. */
  ghost predicate Reached(run: seq<Stamp>, i: nat, j: nat) {
    && j < |run| && (run[j].event.Approved? || run[j].event.IntentAdded?)
    && var s := StateOf(run[..j + 1]);
       && i < |s.intents| && s.intents[i].intentId == run[j].event.intentId
       && Quorum(s, s.intents[i])
  }

  lemma NoPersons(keys: map<Id, Key>)
    ensures ValidPersons(keys, []) == {}
  {
  }

  lemma SettleExactly(s: State, at: int, e: Event, r: IntentRecord)
    ensures e.Approved? ==>
              (RecordAfter(s, r, at, e).approvedAt.Some? <==> r.approvedAt.Some? || Quorum(s, RecordAfter(s, r, at, e)))
    ensures !e.Approved? ==> RecordAfter(s, r, at, e).approvedAt == r.approvedAt
    ensures e.IntentAdded? ==> (AddedRecord(s, at, e).approvedAt.Some? <==> Quorum(s, AddedRecord(s, at, e)))
    ensures e.IntentAdded? ==> AddedRecord(s, at, e).intentId == e.intentId
    ensures RecordAfter(s, r, at, e).intentId == r.intentId
  {
    hide ActiveKeysByPerson, ValidPersons;
    NoPersons(s.keys);
  }

  /** One step gives a record its times exactly when it brings it to quorum. */
  lemma ReachedStep(cfg: Config, init: seq<Stamp>, last: Stamp, i: nat)
    requires ValidRun(cfg, init + [last]) && i < |StateOf(init + [last]).intents|
    ensures var s := StateOf(init);
            StateOf(init + [last]).intents[i].approvedAt.Some? <==>
              || (i < |s.intents| && s.intents[i].approvedAt.Some?)
              || Reached(init + [last], i, |init|)
  {
    hide Guard, Apply, Quorum, IntentsAfter, RecordAfter, AddedRecord, MaySign, MayAddIntent, MayApprove;
    var run := init + [last];
    assert run[..|run| - 1] == init && run[..|init| + 1] == run;
    var s, e := StateOf(init), last.event;
    RunInv(cfg, init);
    IntentsChange(cfg, s, last.checked, last.at, e);
    GuardOnIntents(cfg, s, last.checked, e);
    var xs := StateOf(run).intents;
    if i < |s.intents| {
      UniqueIndex(s.intents, i);
      SettleExactly(s, last.at, e, s.intents[i]);
    } else {
      assert e.IntentAdded?;
      SettleExactly(s, last.at, e, NewRecord(e.intentId, e.intent, last.at, e.under));
    }
    if e.Approved? || e.IntentAdded? {
      QuorumAfter(s, last.at, e, StateOf(run).intents[i]);
    }
  }

  /** An intent is approved if and only if some step of the run brought it to quorum. */
  lemma {:induction false} ApprovedExactly(cfg: Config, run: seq<Stamp>, i: nat)
    requires ValidRun(cfg, run) && i < |StateOf(run).intents|
    ensures StateOf(run).intents[i].approvedAt.Some? <==> exists j :: Reached(run, i, j)
  {
    hide StateOf, ValidRun, Quorum;
    if |run| == 0 {
      NothingYet();
    } else {
      var init, last := run[..|run| - 1], run[|run| - 1];
      assert run == init + [last];
      RunBefore(cfg, run);
      ReachedStep(cfg, init, last, i);
      forall j: nat | j < |init|
        ensures run[..j + 1] == init[..j + 1] && run[j] == init[j]
        ensures |StateOf(run[..j + 1]).intents| <= |StateOf(init).intents|
      {
        assert run[..j + 1] == init[..j + 1];
        GrownRun(cfg, init, j + 1);
      }
      assert forall j: nat :: j < |init| ==> (Reached(run, i, j) <==> Reached(init, i, j));
      if i < |StateOf(init).intents| {
        ApprovedExactly(cfg, init, i);
      }
    }
  }

  ghost predicate MandateApprovedIn(s: State, id: Id) {
    id in s.mandates && s.mandates[id].approvedAt.Some?
  }

  /** Step `j` is an approval of the mandate, and with it the mandate has a quorum. */
  ghost predicate MandateReached(run: seq<Stamp>, id: Id, j: nat) {
    && j < |run| && run[j].event.MandateApproved? && run[j].event.mandateId == id
    && var s := StateOf(run[..j + 1]);
       id in s.mandates && MandateQuorum(s.policy, s.keys, s.mandates[id])
  }

  lemma MandateReachedStep(cfg: Config, init: seq<Stamp>, last: Stamp, id: Id)
    requires ValidRun(cfg, init + [last])
    ensures MandateApprovedIn(StateOf(init + [last]), id) <==>
              MandateApprovedIn(StateOf(init), id) || MandateReached(init + [last], id, |init|)
  {
    hide IntentsAfter, MaySign, MayAddIntent, MayApprove, MayChangePolicy, DefaultPolicy, MayAddKey, ApprovalsSatisfied;
    hide HasActiveDestination, PendingMandates, WellFormedMandate, ActiveKeysByPerson, ValidPersons;
    var run := init + [last];
    assert run[..|run| - 1] == init && run[..|init| + 1] == run;
    var s, e := StateOf(init), last.event;
    if e.MandateApproved? && e.mandateId == id && id in s.mandates {
      var m := s.mandates[id];
      CounterIrrelevant(s.keys, e.credId, e.counter, m.approvals + [SignerState.Approval(e.credId, e.person, last.at)]);
    }
  }

  /** A mandate counts as approved if and only if some approval of the run brought it to quorum. */
  lemma {:induction false} MandateApprovedExactly(cfg: Config, run: seq<Stamp>, id: Id)
    requires ValidRun(cfg, run)
    ensures MandateApprovedIn(StateOf(run), id) <==> exists j :: MandateReached(run, id, j)
  {
    hide StateOf, ValidRun, MandateQuorum;
    if |run| == 0 {
      NothingYet();
    } else {
      var init, last := run[..|run| - 1], run[|run| - 1];
      assert run == init + [last];
      RunBefore(cfg, run);
      MandateReachedStep(cfg, init, last, id);
      forall j: nat | j < |init|
        ensures run[..j + 1] == init[..j + 1] && run[j] == init[j]
      {
      }
      assert forall j: nat :: j < |init| ==> (MandateReached(run, id, j) <==> MandateReached(init, id, j));
      MandateApprovedExactly(cfg, init, id);
    }
  }

  lemma NothingYet()
    ensures StateOf([]).intents == [] && StateOf([]).mandates == map[]
  {
  }

  lemma RunBefore(cfg: Config, run: seq<Stamp>)
    requires ValidRun(cfg, run) && |run| > 0
    ensures ValidRun(cfg, run[..|run| - 1])
  {
  }

  // ----- the payment itself

  /**
   Record `w` allows the destination; a full cooldown ago, at step `j`, it was backed by
   enough people with keys of their own that were active then.
   */
  ghost predicate DestinationCleared(run: seq<Stamp>, w: nat, j: nat, n: Network, destination: string, now: int) {
    && w < |StateOf(run).intents|
    && var r := StateOf(run).intents[w];
       && r.intent.purpose == Whitelist && r.intent.network == n && r.intent.destination == destination
       && !r.cancelled && !r.vetoed && r.activeFrom.Some? && r.activeFrom.value <= now
       && SettledAt(run, w, r, j)
       && BackedAt(run, w, j)
       && run[j].at + StateOf(run[..j + 1]).policy.value.whitelistCooldownSec <= now
  }

  /** After step `j`, record `w` was backed by its own approvals. */
  ghost predicate BackedAt(run: seq<Stamp>, w: nat, j: nat) {
    && j < |run|
    && var s := StateOf(run[..j + 1]);
       && w < |s.intents| && s.policy.Some?
       && Backed(s.policy.value, s.keys, s.intents[w].approvals)
  }

  lemma SettledIsBacked(cfg: Config, run: seq<Stamp>, w: nat, j: nat)
    requires ValidRun(cfg, run) && w < |StateOf(run).intents| && SettledAt(run, w, StateOf(run).intents[w], j)
    requires StateOf(run).intents[w].mandateId.None?
    ensures BackedAt(run, w, j)
  {
    hide ValidRun, StateOf, Backed, ApprovalsQuorum, MandateQuorum;
    ValidPrefix(cfg, run, j + 1);
    AuthRun(cfg, run[..j + 1]);
    GrownRun(cfg, run, j + 1);
    var s := StateOf(run[..j + 1]);
    assert Kept(s.intents[w], StateOf(run).intents[w]);
    QuorumIsBacked(s.policy, s.keys, s.intents[w].approvals);
  }

  ghost predicate MandateStands(s: State, r: IntentRecord, now: int) {
    r.mandateId.Some? ==>
      && r.mandateId.value in s.mandates
      && var m := s.mandates[r.mandateId.value];
         && !m.revoked
         && m.mandate.validFrom <= now < m.mandate.validUntil
         && Scoped(m.mandate, r.intent)
         && s.policy.Some? && Backed(s.policy.value, s.keys, m.approvals)
         && (forall a :: a in m.approvals ==> a.person != r.intent.initiator)
  }

  ghost predicate Authorised(s: State, r: IntentRecord, now: int, pay: Payment) {
    && s.frozen.None?
    && !r.cancelled && !r.vetoed && r.signatures == []
    && MatchesIntent(r.intent, pay)
    && r.signableAt.Some? && r.signableAt.value <= now
    && r.signUntil.Some? && now <= r.signUntil.value
    && s.policy.Some? && pay.network in s.policy.value.networks
    && pay.network != BitcoinMainnet && pay.network != EthereumMainnet
    && MandateStands(s, r, now)
    && (r.mandateId.None? ==> s.policy.Some? && Backed(s.policy.value, s.keys, r.approvals))
  }

  lemma FirstChecked(s: State, now: int, id: Id, pay: Payment)
    requires MaySign(s, now, id, pay) && pay.mode == First
    ensures IndexOf(s.intents, id) >= 0 && Ready(s) && s.frozen.None?
    ensures var r := s.intents[IndexOf(s.intents, id)];
            r.intent.purpose.Payout? && !r.cancelled && !r.vetoed && MaySignFirst(s, now, r)
  {
    hide MaySpendBtc, MaySpendEth, MaySignFirst;
  }

  lemma FirstAuthorised(s: State, now: int, id: Id, pay: Payment)
    requires Inv(s) && AuthInv(s) && MaySign(s, now, id, pay) && pay.mode == First
    requires forall i :: 0 <= i < |s.intents| ==> s.intents[i].createdAt <= now
    ensures IndexOf(s.intents, id) >= 0
    ensures Authorised(s, s.intents[IndexOf(s.intents, id)], now, pay)
  {
    hide MaySign, Tally, HasActiveDestination, SpendAllowed, Backed, ApprovalsQuorum;
    FirstChecked(s, now, id, pay);
    SignedExtends(s, now, id, pay);
    var r := s.intents[IndexOf(s.intents, id)];
    if r.mandateId.Some? {
      QuorumIsBacked(s.policy, s.keys, s.mandates[r.mandateId.value].approvals);
    } else {
      QuorumIsBacked(s.policy, s.keys, r.approvals);
    }
  }

  /**
   Every first signature of a run was authorised: unfrozen, uncancelled, inside its window,
   on a test network of the policy in force, backed by keys active at that moment, directly or
   through a standing mandate within its validity that nobody approved for themselves, and to
   a destination that had itself been approved and had waited out its cooldown.
   */
  lemma PaymentAuthorised(cfg: Config, run: seq<Stamp>, k: nat) returns (w: nat, j: nat)
    requires ValidRun(cfg, run) && k < |run| && run[k].event.Signed? && run[k].event.pay.mode == First
    ensures var s := StateOf(run[..k]);
            var i := IndexOf(s.intents, run[k].event.intentId);
            && i >= 0
            && Authorised(s, s.intents[i], run[k].checked, run[k].event.pay)
            && var intent := s.intents[i].intent;
               DestinationCleared(run[..k], w, j, intent.network, intent.destination, run[k].checked)
  {
    hide Guard, StateOf, Inv, AuthInv, MaySign, Authorised, Quorum;
    StepPermitted(cfg, run, k);
    var past := run[..k];
    var s, now, e := StateOf(past), run[k].checked, run[k].event;
    GuardOnIntents(cfg, s, now, e);
    RunInv(cfg, past);
    AuthRun(cfg, past);
    CreatedPast(cfg, past, now);
    FirstAuthorised(s, now, e.intentId, e.pay);
    var r := s.intents[IndexOf(s.intents, e.intentId)];
    w := ClearedDestination(s, now, e.intentId, e.pay);
    WhitelistApproved(s, w);
    j := ApprovalProvenance(cfg, past, w);
    SettledIsBacked(cfg, past, w, j);
  }

  lemma ClearedDestination(s: State, now: int, id: Id, pay: Payment) returns (w: nat)
    requires MaySign(s, now, id, pay) && pay.mode == First
    ensures IndexOf(s.intents, id) >= 0 && w < |s.intents|
    ensures var i := s.intents[IndexOf(s.intents, id)].intent;
            IsActiveDestination(s.intents[w], i.network, i.destination, now)
  {
    hide MaySign, Tally, SpendAllowed, Quorum;
    FirstChecked(s, now, id, pay);
    var i := s.intents[IndexOf(s.intents, id)].intent;
    w :| 0 <= w < |s.intents| && IsActiveDestination(s.intents[w], i.network, i.destination, now);
  }

  lemma WhitelistApproved(s: State, w: nat)
    requires Inv(s) && w < |s.intents| && s.intents[w].intent.purpose.Whitelist? && s.intents[w].activeFrom.Some?
    ensures s.intents[w].approvedAt.Some? && s.intents[w].mandateId.None?
  {
    assert RecordOk(s.mandates.Keys, s.intents[w]);
  }

  /** An intent is recorded under a mandate only while the mandate is valid. */
  lemma MandateInTime(cfg: Config, run: seq<Stamp>, k: nat)
    requires ValidRun(cfg, run) && k < |run| && run[k].event.IntentAdded? && run[k].event.under.Some?
    ensures var s, id := StateOf(run[..k]), run[k].event.under.value;
            && id in s.mandates
            && s.mandates[id].mandate.validFrom <= run[k].checked < s.mandates[id].mandate.validUntil
            && run[k].at >= s.mandates[id].mandate.validFrom
  {
    hide Guard, StateOf, MayAddIntent;
    StepPermitted(cfg, run, k);
    var e := run[k].event;
    GuardOnIntents(cfg, StateOf(run[..k]), run[k].checked, e);
    AddedScoped(StateOf(run[..k]), run[k].checked, e.intentId, e.intent, e.under);
  }

  /** Once a network is out of the policy, no first signature on it follows until it is back. */
  lemma NetworkStaysOff(cfg: Config, run: seq<Stamp>, n: Network, k: nat)
    requires ValidRun(cfg, run)
    requires forall j :: k <= j < |run| ==>
               StateOf(run[..j]).policy.Some? ==> n !in StateOf(run[..j]).policy.value.networks
    ensures forall j :: k <= j < |run| && run[j].event.Signed? && run[j].event.pay.mode == First ==>
              run[j].event.pay.network != n
  {
    hide ValidRun, StateOf;
    forall j | k <= j < |run| && run[j].event.Signed? && run[j].event.pay.mode == First
      ensures run[j].event.pay.network != n
    {
      var w, i := PaymentAuthorised(cfg, run, j);
    }
  }
}
