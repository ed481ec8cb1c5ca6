/**
 The limits on amounts and counts over whole runs: a mandate's budget, the sliding
 24-hour limit per asset, and the limits on open and new intents.
 */
module Budgets {
  import opened Basics
  import opened Policies
  import opened SignerState
  import opened SignerRules
  import opened SignerRuns

  // ----- sums over the records

  lemma {:induction false} TallyUpdate(xs: seq<IntentRecord>, i: nat, r: IntentRecord, q: Measure)
    requires i < |xs|
    ensures Tally(xs[i := r], q) == Tally(xs, q) - Weigh(q, xs[i]) + Weigh(q, r)
  {
    hide Weigh;
    var n := |xs| - 1;
    if i == n {
      assert xs[i := r][..n] == xs[..n];
    } else {
      TallyUpdate(xs[..n], i, r, q);
      assert xs[i := r][..n] == xs[..n][i := r];
    }
  }

  lemma TallyAppend(xs: seq<IntentRecord>, r: IntentRecord, q: Measure)
    ensures Tally(xs + [r], q) == Tally(xs, q) + Weigh(q, r)
  {
    hide Weigh;
    assert (xs + [r])[..|xs|] == xs;
  }

  /** Record by record no heavier, so no heavier in sum. */
  lemma {:induction false} TallyDominated(ys: seq<IntentRecord>, q: Measure, xs: seq<IntentRecord>, q': Measure)
    requires |ys| == |xs|
    requires forall i :: 0 <= i < |xs| ==> Weigh(q, ys[i]) <= Weigh(q', xs[i])
    ensures Tally(ys, q) <= Tally(xs, q')
  {
    hide Weigh;
    if |xs| > 0 {
      TallyDominated(ys[..|xs| - 1], q, xs[..|xs| - 1], q');
    }
  }

  lemma {:induction false} TallyZero(xs: seq<IntentRecord>, q: Measure)
    requires forall i :: 0 <= i < |xs| ==> Weigh(q, xs[i]) == 0
    ensures Tally(xs, q) == 0
  {
    hide Weigh;
    if |xs| > 0 {
      TallyZero(xs[..|xs| - 1], q);
    }
  }

  /** Time alone only closes intents. */
  lemma OpenShrinks(r: IntentRecord, t: int, t': int, id: Id)
    requires t <= t'
    ensures Weigh(OpenAt(t'), r) <= Weigh(OpenAt(t), r)
    ensures Weigh(MandateUse(id, t'), r) <= Weigh(MandateUse(id, t), r)
  {
  }

  // ----- what one event does to a record's weight

  /** A first signature is only given while the intent is open. */
  lemma SignsOpen(s: State, now: int, id: Id, pay: Payment)
    requires Inv(s) && MaySign(s, now, id, pay)
    ensures var r := s.intents[IndexOf(s.intents, id)];
            && r.intent.purpose.Payout? && !r.cancelled && !r.vetoed && r.approvedAt.Some?
            && pay.asset == r.intent.purpose.asset && pay.amount == AmountOf(r)
            && (pay.mode == First ==>
                  && r.signatures == [] && IsOpen(r, now)
                  && SpendAllowed(s.policy.value, pay.asset, pay.amount,
                                  Tally(s.intents, SignedSince(pay.asset, now - DAY))) == SpendOk)
            && (pay.mode != First ==> r.signatures != [])
  {
    SignedNames(s, now, id, pay);
    hide MaySpendBtc, MaySpendEth, Quorum, HasActiveDestination;
    var r := s.intents[IndexOf(s.intents, id)];
    assert RecordOk(s.mandates.Keys, r);
  }

  /** An event never opens a closed intent and never adds to a mandate's use. */
  lemma NamedWeighsLess(cfg: Config, s: State, now: int, at: int, e: Event, id: Id)
    requires Inv(s) && Guard(cfg, s, now, e) && NamesIntent(e) && now <= at
    ensures IndexOf(s.intents, e.intentId) >= 0
    ensures var r := s.intents[IndexOf(s.intents, e.intentId)];
            var r' := RecordAfter(s, r, at, e);
            && Weigh(OpenAt(at), r') <= Weigh(OpenAt(now), r)
            && Weigh(MandateUse(id, at), r') <= Weigh(MandateUse(id, now), r)
  {
    GuardOnIntents(cfg, s, now, e);
    hide Guard, Quorum;
    var r := s.intents[IndexOf(s.intents, e.intentId)];
    assert RecordOk(s.mandates.Keys, r);
    if e.Signed? {
      hide MaySign;
      SignsOpen(s, now, e.intentId, e.pay);
    }
  }

  // ----- a mandate's budget

  ghost predicate BudgetKept(s: State, t: int) {
    forall id :: id in s.mandates ==> Tally(s.intents, MandateUse(id, t)) <= s.mandates[id].mandate.total
  }

  lemma AddedWithinBudget(s: State, now: int, at: int, e: Event, id: Id)
    requires e.IntentAdded? && MayAddIntent(s, now, e.intentId, e.intent, e.under)
    requires id in s.mandates && Tally(s.intents, MandateUse(id, now)) <= s.mandates[id].mandate.total
    ensures Tally(s.intents, MandateUse(id, now)) + Weigh(MandateUse(id, at), AddedRecord(s, at, e))
            <= s.mandates[id].mandate.total
  {
    hide Quorum, MandateQuorum, Tally;
  }

  /** A mandate nobody can have used yet. */
  lemma FreshMandateUnused(s: State, id: Id, t: int)
    requires Inv(s) && id !in s.mandates
    ensures Tally(s.intents, MandateUse(id, t)) == 0
  {
    assert forall i :: 0 <= i < |s.intents| ==> RecordOk(s.mandates.Keys, s.intents[i]);
    TallyZero(s.intents, MandateUse(id, t));
  }

  lemma GuardOnMandates(cfg: Config, s: State, now: int, e: Event)
    requires Guard(cfg, s, now, e)
    ensures e.MandateAdded? ==> e.mandateId !in s.mandates && e.mandateId == e.mandate.mandateId
    ensures e.MandateApproved? || e.MandateRevoked? ==> e.mandateId in s.mandates
  {
    hide MaySign, MayAddIntent, MayApprove, MayChangePolicy, MayAddKey, DefaultPolicy;
  }

  /** Use of a mandate and open intents, after an event that adds no intent. */
  lemma UseDominated(cfg: Config, s: State, now: int, at: int, e: Event, id: Id)
    requires Inv(s) && Guard(cfg, s, now, e) && now <= at && !e.IntentAdded?
    ensures Tally(Apply(s, at, e).intents, MandateUse(id, at)) <= Tally(s.intents, MandateUse(id, now))
    ensures Tally(Apply(s, at, e).intents, OpenAt(at)) <= Tally(s.intents, OpenAt(now))
  {
    hide Guard, Apply, RecordAfter, AddedRecord, Tally, Weigh, Inv;
    IntentsChange(cfg, s, now, at, e);
    if NamesIntent(e) {
      NamedWeighsLess(cfg, s, now, at, e, id);
    }
    var ys := Apply(s, at, e).intents;
    forall i | 0 <= i < |ys|
      ensures Weigh(MandateUse(id, at), ys[i]) <= Weigh(MandateUse(id, now), s.intents[i])
      ensures Weigh(OpenAt(at), ys[i]) <= Weigh(OpenAt(now), s.intents[i])
    {
      OpenShrinks(s.intents[i], now, at, id);
    }
    TallyDominated(ys, MandateUse(id, at), s.intents, MandateUse(id, now));
    TallyDominated(ys, OpenAt(at), s.intents, OpenAt(now));
  }

  lemma TallyLater(xs: seq<IntentRecord>, t: int, t': int, id: Id)
    requires t <= t'
    ensures Tally(xs, MandateUse(id, t')) <= Tally(xs, MandateUse(id, t))
    ensures Tally(xs, OpenAt(t')) <= Tally(xs, OpenAt(t))
  {
    hide *;
    forall i | 0 <= i < |xs|
      ensures Weigh(MandateUse(id, t'), xs[i]) <= Weigh(MandateUse(id, t), xs[i])
      ensures Weigh(OpenAt(t'), xs[i]) <= Weigh(OpenAt(t), xs[i])
    {
      OpenShrinks(xs[i], t, t', id);
    }
    TallyDominated(xs, MandateUse(id, t'), xs, MandateUse(id, t));
    TallyDominated(xs, OpenAt(t'), xs, OpenAt(t));
  }

  lemma BudgetOfOne(cfg: Config, s: State, now: int, at: int, e: Event, id: Id)
    requires Inv(s) && Guard(cfg, s, now, e) && now <= at && id in s.mandates
    requires Tally(s.intents, MandateUse(id, now)) <= s.mandates[id].mandate.total
    ensures Tally(Apply(s, at, e).intents, MandateUse(id, at)) <= s.mandates[id].mandate.total
  {
    if e.IntentAdded? {
      IntentsChange(cfg, s, now, at, e);
      GuardOnIntents(cfg, s, now, e);
      hide *;
      TallyLater(s.intents, now, at, id);
      AddedWithinBudget(s, now, at, e, id);
      TallyAppend(s.intents, AddedRecord(s, at, e), MandateUse(id, at));
    } else {
      hide *;
      UseDominated(cfg, s, now, at, e, id);
    }
  }

  lemma BudgetStep(cfg: Config, s: State, now: int, at: int, e: Event)
    requires Inv(s) && Guard(cfg, s, now, e) && now <= at && BudgetKept(s, now)
    ensures BudgetKept(Apply(s, at, e), at)
  {
    GuardOnMandates(cfg, s, now, e);
    InvStep(cfg, s, now, at, e);
    var s' := Apply(s, at, e);
    assert s'.mandates == MandatesAfter(s, at, e);
    hide Guard, Apply, Inv, Tally, MandateQuorum;
    forall id | id in s'.mandates
      ensures Tally(s'.intents, MandateUse(id, at)) <= s'.mandates[id].mandate.total
    {
      if id in s.mandates {
        MandateFixed(s, at, e, id);
        BudgetOfOne(cfg, s, now, at, e, id);
      } else {
        assert e.MandateAdded? && id == e.mandateId;
        UseDominated(cfg, s, now, at, e, id);
        FreshMandateUnused(s, id, now);
      }
    }
  }

  lemma {:induction false} BudgetRun(cfg: Config, run: seq<Stamp>, t: int)
    requires ValidRun(cfg, run) && NotAfter(run, t)
    ensures BudgetKept(StateOf(run), t)
  {
    RunInv(cfg, run);
    hide Guard, Apply, Inv, Tally;
    if |run| > 0 {
      var init, last := run[..|run| - 1], run[|run| - 1];
      RunInv(cfg, init);
      BudgetRun(cfg, init, last.checked);
      BudgetStep(cfg, StateOf(init), last.checked, last.at, last.event);
      forall id | id in StateOf(run).mandates
        ensures Tally(StateOf(run).intents, MandateUse(id, t)) <= StateOf(run).mandates[id].mandate.total
      {
        TallyLater(StateOf(run).intents, last.at, t, id);
      }
    }
  }

  // ----- sums over the run itself

  /** A first signature in this asset, recorded in the window (after, upto]. */
  predicate PaysInWindow(st: Stamp, asset: Asset, after: int, upto: int) {
    && st.event.Signed? && st.event.pay.mode == First && st.event.pay.asset == asset
    && after < st.at <= upto
  }

  /** The amounts of all first signatures of a window. */
  function WindowSum(run: seq<Stamp>, asset: Asset, after: int, upto: int): nat {
    if |run| == 0 then 0
    else
      var last := run[|run| - 1];
      WindowSum(run[..|run| - 1], asset, after, upto)
      + if PaysInWindow(last, asset, after, upto) then last.event.pay.amount else 0
  }

  /** The event is the first signature of an intent created under this mandate. */
  predicate PaysUnder(s: State, e: Event, mandateId: Id) {
    && e.Signed? && e.pay.mode == First
    && var i := IndexOf(s.intents, e.intentId);
       i >= 0 && s.intents[i].mandateId == Some(mandateId)
  }

  /** The amounts of all first signatures under one mandate. */
  function PaidSum(run: seq<Stamp>, mandateId: Id): nat {
    if |run| == 0 then 0
    else
      var init, last := run[..|run| - 1], run[|run| - 1];
      PaidSum(init, mandateId)
      + if PaysUnder(StateOf(init), last.event, mandateId) then last.event.pay.amount else 0
  }

  /** Only a first signature adds to what was paid. */
  function Gain(s: State, at: int, e: Event, q: Measure): nat
    requires q.SignedSince? || q.PaidUnder?
  {
    if !e.Signed? || e.pay.mode != First then 0
    else if q.SignedSince? then (if e.pay.asset == q.asset && at > q.after then e.pay.amount else 0)
    else (if PaysUnder(s, e, q.mandateId) then e.pay.amount else 0)
  }

  lemma NamedGains(cfg: Config, s: State, now: int, at: int, e: Event, q: Measure)
    requires Inv(s) && Guard(cfg, s, now, e) && NamesIntent(e) && (q.SignedSince? || q.PaidUnder?)
    ensures IndexOf(s.intents, e.intentId) >= 0
    ensures var r := s.intents[IndexOf(s.intents, e.intentId)];
            Weigh(q, RecordAfter(s, r, at, e)) == Weigh(q, r) + Gain(s, at, e, q)
  {
    hide Guard, Quorum, MaySign, MayApprove;
    NamedRecordOk(cfg, s, now, at, e);
    GuardOnIntents(cfg, s, now, e);
    var r := s.intents[IndexOf(s.intents, e.intentId)];
    assert RecordOk(s.mandates.Keys, r);
    FindFirstIsHead(r.signatures);
    FindFirstIsHead(RecordAfter(s, r, at, e).signatures);
    if e.Signed? {
      SignsOpen(s, now, e.intentId, e.pay);
    }
  }

  lemma StepGains(cfg: Config, s: State, now: int, at: int, e: Event, q: Measure)
    requires Inv(s) && Guard(cfg, s, now, e) && (q.SignedSince? || q.PaidUnder?)
    ensures Tally(Apply(s, at, e).intents, q) == Tally(s.intents, q) + Gain(s, at, e, q)
  {
    hide Guard, Apply, RecordAfter, Tally, Inv, Quorum;
    IntentsChange(cfg, s, now, at, e);
    if NamesIntent(e) {
      NamedGains(cfg, s, now, at, e, q);
      var i := IndexOf(s.intents, e.intentId);
      TallyUpdate(s.intents, i, RecordAfter(s, s.intents[i], at, e), q);
    } else if e.IntentAdded? {
      TallyAppend(s.intents, AddedRecord(s, at, e), q);
      assert AddedRecord(s, at, e).signatures == [];
    }
  }

  /** The signer's own sum over its records is the sum over the events of the run. */
  lemma {:induction false} WindowIsTally(cfg: Config, run: seq<Stamp>, asset: Asset, after: int, upto: int)
    requires ValidRun(cfg, run) && NotAfter(run, upto)
    ensures WindowSum(run, asset, after, upto) == Tally(StateOf(run).intents, SignedSince(asset, after))
  {
    hide Guard, Apply, Inv, Weigh;
    if |run| > 0 {
      var init, last := run[..|run| - 1], run[|run| - 1];
      RunInv(cfg, init);
      WindowIsTally(cfg, init, asset, after, upto);
      StepGains(cfg, StateOf(init), last.checked, last.at, last.event, SignedSince(asset, after));
    }
  }

  lemma {:induction false} PaidIsTally(cfg: Config, run: seq<Stamp>, mandateId: Id)
    requires ValidRun(cfg, run)
    ensures PaidSum(run, mandateId) == Tally(StateOf(run).intents, PaidUnder(mandateId))
  {
    hide Guard, Apply, Inv, Weigh;
    if |run| > 0 {
      var init, last := run[..|run| - 1], run[|run| - 1];
      RunInv(cfg, init);
      PaidIsTally(cfg, init, mandateId);
      StepGains(cfg, StateOf(init), last.checked, last.at, last.event, PaidUnder(mandateId));
    }
  }

  lemma {:induction false} UseSplits(mandates: set<Id>, xs: seq<IntentRecord>, id: Id, t: int)
    requires RecordsOk(mandates, xs)
    ensures Tally(xs, MandateUse(id, t)) == Tally(xs, PaidUnder(id)) + Tally(xs, OpenUnder(id, t))
  {
    if |xs| > 0 {
      assert RecordOk(mandates, xs[|xs| - 1]);
      UseSplits(mandates, xs[..|xs| - 1], id, t);
    }
  }

  /**
   The mandate budget: whatever was ever signed under a mandate, plus what is still
   open at any time from now on, stays within its total.
   */
  lemma MandateBudget(cfg: Config, run: seq<Stamp>, id: Id, t: int)
    requires ValidRun(cfg, run) && NotAfter(run, t) && id in StateOf(run).mandates
    ensures PaidSum(run, id) + Tally(StateOf(run).intents, OpenUnder(id, t))
            <= StateOf(run).mandates[id].mandate.total
  {
    RunInv(cfg, run);
    BudgetRun(cfg, run, t);
    PaidIsTally(cfg, run, id);
    UseSplits(StateOf(run).mandates.Keys, StateOf(run).intents, id, t);
  }

  // ----- the sliding limit

  lemma SinceMonotone(xs: seq<IntentRecord>, asset: Asset, a: int, b: int)
    requires a <= b
    ensures Tally(xs, SignedSince(asset, b)) <= Tally(xs, SignedSince(asset, a))
    ensures Tally(xs, CreatedSince(b)) <= Tally(xs, CreatedSince(a))
  {
    TallyDominated(xs, SignedSince(asset, b), xs, SignedSince(asset, a));
    TallyDominated(xs, CreatedSince(b), xs, CreatedSince(a));
  }

  /** The window's sum is within the limit of the policy in force at its last payment. */
  ghost predicate WithinLimitAt(run: seq<Stamp>, asset: Asset, after: int, k: nat) {
    var upto := after + DAY;
    && k < |run| && PaysInWindow(run[k], asset, after, upto)
    && (forall j :: k < j < |run| ==> !PaysInWindow(run[j], asset, after, upto))
    && var policy := StateOf(run[..k]).policy;
       && policy.Some? && asset in policy.value.limits
       && WindowSum(run, asset, after, upto) <= policy.value.limits[asset].perDay
       && run[k].event.pay.amount <= policy.value.limits[asset].perPayout
  }

  lemma SignsWithinLimit(s: State, now: int, id: Id, pay: Payment)
    requires Inv(s) && MaySign(s, now, id, pay) && pay.mode == First
    ensures s.policy.Some? && pay.asset in s.policy.value.limits
    ensures pay.amount <= s.policy.value.limits[pay.asset].perPayout
    ensures Tally(s.intents, SignedSince(pay.asset, now - DAY)) + pay.amount
            <= s.policy.value.limits[pay.asset].perDay
  {
    hide Tally, MaySpendBtc, MaySpendEth, MaySignFirst, Inv;
    SignsOpen(s, now, id, pay);
  }

  /** The check made for one more first signature bounds the whole window it falls into. */
  lemma NextPaymentWithinLimit(cfg: Config, run: seq<Stamp>, now: int, id: Id, pay: Payment, after: int)
    requires ValidRun(cfg, run) && NotAfter(run, now) && MaySign(StateOf(run), now, id, pay)
    requires pay.mode == First && now - DAY <= after
    ensures var policy := StateOf(run).policy;
            && policy.Some? && pay.asset in policy.value.limits
            && pay.amount <= policy.value.limits[pay.asset].perPayout
            && WindowSum(run, pay.asset, after, after + DAY) + pay.amount <= policy.value.limits[pay.asset].perDay
  {
    hide ValidRun, StateOf, Inv, MaySign, Tally, WindowSum;
    RunInv(cfg, run);
    SignsWithinLimit(StateOf(run), now, id, pay);
    SinceMonotone(StateOf(run).intents, pay.asset, now - DAY, after);
    WindowIsTally(cfg, run, pay.asset, after, after + DAY);
  }

  lemma LastPaymentWithinLimit(cfg: Config, run: seq<Stamp>, asset: Asset, after: int)
    requires ValidRun(cfg, run) && |run| > 0
    requires PaysInWindow(run[|run| - 1], asset, after, after + DAY)
    ensures WithinLimitAt(run, asset, after, |run| - 1)
  {
    hide Guard, StateOf;
    var init, last := run[..|run| - 1], run[|run| - 1];
    GuardOnIntents(cfg, StateOf(init), last.checked, last.event);
    NextPaymentWithinLimit(cfg, init, last.checked, last.event.intentId, last.event.pay, after);
  }

  /**
   The sliding limit: in every run, the first signatures of one asset in any 24-hour
   window sum to at most the daily limit in force at the last of them.
   */
  lemma {:induction false} SlidingLimit(cfg: Config, run: seq<Stamp>, asset: Asset, after: int)
    requires ValidRun(cfg, run)
    ensures WindowSum(run, asset, after, after + DAY) == 0
            || exists k: nat :: WithinLimitAt(run, asset, after, k)
  {
    hide Guard, Apply, StateOf, ValidRun, WithinLimitAt, PaysInWindow;
    if |run| > 0 {
      var init := run[..|run| - 1];
      if PaysInWindow(run[|run| - 1], asset, after, after + DAY) {
        LastPaymentWithinLimit(cfg, run, asset, after);
      } else {
        ValidPrefix(cfg, run, |run| - 1);
        SlidingLimit(cfg, init, asset, after);
        if k: nat :| WithinLimitAt(init, asset, after, k) {
          StaysWithinLimit(run, asset, after, k);
        }
      }
    }
  }

  /** An event outside the window changes nothing about it. */
  lemma StaysWithinLimit(run: seq<Stamp>, asset: Asset, after: int, k: nat)
    requires |run| > 0 && WithinLimitAt(run[..|run| - 1], asset, after, k)
    requires !PaysInWindow(run[|run| - 1], asset, after, after + DAY)
    ensures WithinLimitAt(run, asset, after, k)
  {
    hide StateOf, PaysInWindow;
    assert run[..|run| - 1][..k] == run[..k];
  }

  // ----- open and new intents

  lemma AddedLimits(s: State, now: int, at: int, e: Event)
    requires e.IntentAdded? && MayAddIntent(s, now, e.intentId, e.intent, e.under)
    ensures Tally(s.intents, OpenAt(now)) < MAX_OPEN
    ensures Tally(s.intents, CreatedSince(now - DAY)) < MAX_PER_DAY
    ensures Weigh(OpenAt(at), AddedRecord(s, at, e)) <= 1
    ensures AddedRecord(s, at, e).createdAt == at
  {
    hide Quorum, Tally;
  }

  /** At no time are more than 50 intents open. */
  lemma {:induction false} OpenLimit(cfg: Config, run: seq<Stamp>, t: int)
    requires ValidRun(cfg, run) && NotAfter(run, t)
    ensures Tally(StateOf(run).intents, OpenAt(t)) <= MAX_OPEN
  {
    hide Guard, Apply, Inv, Weigh;
    if |run| > 0 {
      var init, last := run[..|run| - 1], run[|run| - 1];
      var s := StateOf(init);
      RunInv(cfg, init);
      TallyLater(StateOf(run).intents, last.at, t, "");
      if last.event.IntentAdded? {
        IntentsChange(cfg, s, last.checked, last.at, last.event);
        GuardOnIntents(cfg, s, last.checked, last.event);
        AddedLimits(s, last.checked, last.at, last.event);
        TallyAppend(s.intents, AddedRecord(s, last.at, last.event), OpenAt(last.at));
        TallyLater(s.intents, last.checked, last.at, "");
      } else {
        OpenLimit(cfg, init, last.checked);
        UseDominated(cfg, s, last.checked, last.at, last.event, "");
      }
    }
  }

  lemma CreatedStep(cfg: Config, s: State, now: int, at: int, e: Event, after: int)
    requires Guard(cfg, s, now, e)
    ensures Tally(Apply(s, at, e).intents, CreatedSince(after)) ==
            Tally(s.intents, CreatedSince(after)) + if e.IntentAdded? && at > after then 1 else 0
  {
    hide Guard, Apply, Quorum, Tally;
    IntentsChange(cfg, s, now, at, e);
    if NamesIntent(e) {
      var i := IndexOf(s.intents, e.intentId);
      TallyUpdate(s.intents, i, RecordAfter(s, s.intents[i], at, e), CreatedSince(after));
    } else if e.IntentAdded? {
      TallyAppend(s.intents, AddedRecord(s, at, e), CreatedSince(after));
    }
  }

  /** No 24-hour window sees more than 200 new intents. */
  lemma {:induction false} CreationLimit(cfg: Config, run: seq<Stamp>, after: int)
    requires ValidRun(cfg, run) && NotAfter(run, after + DAY)
    ensures Tally(StateOf(run).intents, CreatedSince(after)) <= MAX_PER_DAY
  {
    hide Guard, Apply, Weigh;
    if |run| > 0 {
      var init, last := run[..|run| - 1], run[|run| - 1];
      var s := StateOf(init);
      CreatedStep(cfg, s, last.checked, last.at, last.event, after);
      if last.event.IntentAdded? {
        GuardOnIntents(cfg, s, last.checked, last.event);
        AddedLimits(s, last.checked, last.at, last.event);
        SinceMonotone(s.intents, BTC, last.checked - DAY, after);
      } else {
        CreationLimit(cfg, init, after);
      }
    }
  }

  // ----- what dropped out of the sums stays out

  /** An unsigned payout that is no longer open. */
  ghost predicate Dropped(r: IntentRecord, t: int) {
    r.intent.purpose.Payout? && r.signatures == [] && !IsOpen(r, t)
  }

  lemma DroppedStep(cfg: Config, s: State, now: int, at: int, e: Event, i: nat)
    requires Inv(s) && Guard(cfg, s, now, e) && now <= at
    requires i < |s.intents| && Dropped(s.intents[i], now)
    ensures i < |Apply(s, at, e).intents| && Dropped(Apply(s, at, e).intents[i], at)
  {
    hide Guard, Apply, Quorum, MaySign, Inv;
    IntentsChange(cfg, s, now, at, e);
    OpenShrinks(s.intents[i], now, at, "");
    if NamesIntent(e) && IndexOf(s.intents, e.intentId) == i {
      NamedWeighsLess(cfg, s, now, at, e, "");
      if e.Signed? {
        GuardOnIntents(cfg, s, now, e);
        SignsOpen(s, now, e.intentId, e.pay);
      }
    }
  }

  /** A payout that was unsigned and closed once is never signed in the rest of the run. */
  lemma {:induction false} DroppedNeverSigned(cfg: Config, run: seq<Stamp>, k: nat, i: nat, t: int)
    requires ValidRun(cfg, run) && k <= |run| && (k < |run| ==> t <= run[k].checked)
    requires i < |StateOf(run[..k]).intents| && Dropped(StateOf(run[..k]).intents[i], t)
    ensures i < |StateOf(run).intents| && StateOf(run).intents[i].signatures == []
    ensures Dropped(StateOf(run).intents[i], if k < |run| then run[|run| - 1].at else t)
  {
    hide Guard, Apply, Inv, IsOpen;
    if k == |run| {
      assert run[..k] == run;
    } else {
      var init, last := run[..|run| - 1], run[|run| - 1];
      var s := StateOf(init);
      assert init[..k] == run[..k];
      assert k < |init| ==> init[k] == run[k];
      DroppedNeverSigned(cfg, init, k, i, t);
      RunInv(cfg, init);
      OpenShrinks(s.intents[i], if k < |init| then init[|init| - 1].at else t, last.checked, "");
      DroppedLater(s.intents[i], if k < |init| then init[|init| - 1].at else t, last.checked);
      DroppedStep(cfg, s, last.checked, last.at, last.event, i);
    }
  }

  lemma DroppedLater(r: IntentRecord, t: int, t': int)
    requires t <= t' && Dropped(r, t)
    ensures Dropped(r, t')
  {
  }
}
