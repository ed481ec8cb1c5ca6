/**
 Whole runs of the signer and what every reachable state satisfies.

 A run lists the recorded events with the socket they came from, the clock reading
 the checks used and the later reading stored in the event (signer/service.ts reads
 the clock once for the checks and again in `record`). Restarts do not show: the
 state after a restart is the replay of the same events (Durability.dfy).
 */
module SignerRuns {
  import opened Basics
  import opened Policies
  import opened SignerState
  import opened SignerRules

  datatype Stamp = Stamp(who: Socket, checked: int, at: int, event: Event)

  function StateOf(run: seq<Stamp>): State {
    if |run| == 0 then EmptyState()
    else
      var last := run[|run| - 1];
      Apply(StateOf(run[..|run| - 1]), last.at, last.event)
  }

  function EntriesOf(run: seq<Stamp>): seq<Entry> {
    seq(|run|, i requires 0 <= i < |run| => Entry(run[i].at, run[i].event))
  }

  function EntryOf(st: Stamp): Entry {
    Entry(st.at, st.event)
  }

  lemma EntriesLength(run: seq<Stamp>)
    ensures |EntriesOf(run)| == |run|
  {
  }

  /** The clock has not been read later than `t` so far. */
  predicate NotAfter(run: seq<Stamp>, t: int) {
    |run| > 0 ==> run[|run| - 1].at <= t
  }

  /** Each event was permitted when it was checked, and the clock never went back. */
  ghost predicate ValidRun(cfg: Config, run: seq<Stamp>) {
    |run| > 0 ==>
      var init, last := run[..|run| - 1], run[|run| - 1];
      && ValidRun(cfg, init)
      && NotAfter(init, last.checked)
      && last.checked <= last.at
      && Permitted(cfg, StateOf(init), last.who, last.checked, last.event)
  }

  lemma {:induction false} ReplayIsStateOf(run: seq<Stamp>)
    ensures Replay(EntriesOf(run)) == StateOf(run)
  {
    hide Apply;
    if |run| > 0 {
      ReplayIsStateOf(run[..|run| - 1]);
      assert EntriesOf(run)[..|run| - 1] == EntriesOf(run[..|run| - 1]);
    }
  }

  lemma ExtendRun(cfg: Config, run: seq<Stamp>, st: Stamp)
    requires ValidRun(cfg, run) && NotAfter(run, st.checked) && st.checked <= st.at
    requires Permitted(cfg, StateOf(run), st.who, st.checked, st.event)
    ensures ValidRun(cfg, run + [st])
    ensures StateOf(run + [st]) == Apply(StateOf(run), st.at, st.event)
    ensures EntriesOf(run + [st]) == EntriesOf(run) + [EntryOf(st)]
  {
    hide Permitted, Apply;
    assert (run + [st])[..|run|] == run;
  }

  lemma {:induction false} ValidPrefix(cfg: Config, run: seq<Stamp>, k: nat)
    requires ValidRun(cfg, run) && k <= |run|
    ensures ValidRun(cfg, run[..k])
  {
    hide Permitted, Apply;
    if k == |run| {
      assert run[..k] == run;
    } else {
      ValidPrefix(cfg, run[..|run| - 1], k);
      assert run[..|run| - 1][..k] == run[..k];
    }
  }

  /** What was checked and permitted at step `k`. */
  lemma StepPermitted(cfg: Config, run: seq<Stamp>, k: nat)
    requires ValidRun(cfg, run) && k < |run|
    ensures ValidRun(cfg, run[..k]) && ValidRun(cfg, run[..k + 1])
    ensures NotAfter(run[..k], run[k].checked) && run[k].checked <= run[k].at
    ensures Permitted(cfg, StateOf(run[..k]), run[k].who, run[k].checked, run[k].event)
    ensures StateOf(run[..k + 1]) == Apply(StateOf(run[..k]), run[k].at, run[k].event)
  {
    hide Permitted, Apply;
    ValidPrefix(cfg, run, k + 1);
    assert run[..k + 1][..k] == run[..k];
  }

  /** The clock readings stored in the events are ordered like the events. */
  lemma {:induction false} TimesOrdered(cfg: Config, run: seq<Stamp>, i: nat, j: nat)
    requires ValidRun(cfg, run) && i < j < |run|
    ensures run[i].at <= run[j].checked <= run[j].at
  {
    hide Permitted, Apply;
    StepPermitted(cfg, run, j);
    assert run[..j][j - 1] == run[j - 1];
    if i < j - 1 {
      TimesOrdered(cfg, run, i, j - 1);
    }
  }

  // ----- the shape of one intent's record

  /** Empty, or one first signature, then fee bumps, then recalls. */
  ghost predicate HistoryShape(sigs: seq<Signature>) {
    && (|sigs| > 0 ==> sigs[0].pay.mode == First)
    && (forall k :: 0 < k < |sigs| ==> sigs[k].pay.mode != First)
    && (forall k, l :: 0 < k < l < |sigs| && sigs[k].pay.mode == Recall ==> sigs[l].pay.mode == Recall)
  }

  /** A signature pays exactly what the intent says, from its account. */
  ghost predicate MatchesIntent(i: Intent, pay: Payment) {
    && i.purpose.Payout?
    && pay.accountId == i.purpose.accountId
    && pay.network == i.network
    && pay.asset == i.purpose.asset
    && pay.amount == i.purpose.amount
    && (IsBitcoin(i.network) <==> pay.tx.BtcTx?)
  }

  /** Two transactions of which a chain can confirm only one. */
  ghost predicate SameCoins(a: Tx, b: Tx) {
    match a
    case BtcTx(_, _, _, _, _) => b.BtcTx? && Elements(a.outpoints) == Elements(b.outpoints)
    case EthTx(_, _, _, _, _, _, _) => b.EthTx? && a.nonce == b.nonce
  }

  ghost predicate RecordOk(mandates: set<Id>, r: IntentRecord) {
    && (r.intent.purpose.Whitelist? ==>
          && r.signatures == []
          && r.mandateId.None?
          && (r.approvedAt.Some? <==> r.activeFrom.Some?))
    && (r.intent.purpose.Payout? ==>
          && !r.vetoed
          && (r.approvedAt.Some? <==> r.signableAt.Some?)
          && (r.approvedAt.Some? <==> r.signUntil.Some?))
    && (r.mandateId.Some? ==> r.mandateId.value in mandates && r.approvedAt.Some?)
    && (r.signatures != [] ==> !r.cancelled && r.approvedAt.Some?)
    && HistoryShape(r.signatures)
    && (forall k :: 0 <= k < |r.signatures| ==>
          && MatchesIntent(r.intent, r.signatures[k].pay)
          && SameCoins(r.signatures[0].pay.tx, r.signatures[k].pay.tx)
          && Distinct(Outpoints(r.signatures[k].pay.tx)))
  }

  ghost predicate UniqueIds(xs: seq<IntentRecord>) {
    forall i, j :: 0 <= i < j < |xs| ==> xs[i].intentId != xs[j].intentId
  }

  ghost predicate RecordsOk(mandates: set<Id>, xs: seq<IntentRecord>) {
    && UniqueIds(xs)
    && forall i :: 0 <= i < |xs| ==> RecordOk(mandates, xs[i])
  }

  ghost predicate Inv(s: State) {
    RecordsOk(s.mandates.Keys, s.intents)
  }

  lemma FindFirstIsHead(sigs: seq<Signature>)
    requires HistoryShape(sigs)
    ensures FindFirst(sigs) == if |sigs| > 0 then Some(sigs[0]) else None
  {
  }

  lemma UniqueIndex(xs: seq<IntentRecord>, i: nat)
    requires UniqueIds(xs) && i < |xs|
    ensures IndexOf(xs, xs[i].intentId) == i
  {
  }

  /** As many inputs, all among the earlier ones, none twice: the same set of inputs. */
  lemma SameInputsSameSet(outpoints: seq<string>, first: Tx)
    requires first.BtcTx? && Distinct(outpoints) && SameInputs(outpoints, first)
    ensures Elements(outpoints) == Elements(first.outpoints)
  {
    DistinctCardinality(outpoints);
    FullSubset(Elements(outpoints), Elements(first.outpoints));
  }

  /** What a permitted signature means for the record it is added to. */
  ghost predicate Extends(r: IntentRecord, pay: Payment) {
    && MatchesIntent(r.intent, pay)
    && !r.cancelled && r.approvedAt.Some?
    && Distinct(Outpoints(pay.tx))
    && (pay.mode == First <==> r.signatures == [])
    && (r.signatures != [] ==> SameCoins(r.signatures[0].pay.tx, pay.tx))
    && (r.signatures != [] && pay.mode == Bump ==> r.signatures[|r.signatures| - 1].pay.mode != Recall)
  }

  lemma SignedExtends(s: State, now: int, id: Id, pay: Payment)
    requires Inv(s) && MaySign(s, now, id, pay)
    ensures Extends(s.intents[IndexOf(s.intents, id)], pay)
  {
    var r := s.intents[IndexOf(s.intents, id)];
    assert RecordOk(s.mandates.Keys, r);
    FindFirstIsHead(r.signatures);
    if pay.mode != First && IsBitcoin(r.intent.network) {
      SameInputsSameSet(pay.tx.outpoints, r.signatures[0].pay.tx);
    }
  }

  lemma ExtendedOk(mandates: set<Id>, r: IntentRecord, sig: Signature)
    requires RecordOk(mandates, r) && Extends(r, sig.pay)
    ensures RecordOk(mandates, r.(signatures := r.signatures + [sig]))
  {
    var sigs := r.signatures + [sig];
    assert HistoryShape(sigs);
    if r.signatures == [] {
      assert sigs == [sig];
    }
  }

  /** What a guard says about the intent an event names or adds. */
  lemma GuardOnIntents(cfg: Config, s: State, now: int, e: Event)
    requires Guard(cfg, s, now, e)
    ensures NamesIntent(e) ==> 0 <= IndexOf(s.intents, e.intentId)
    ensures e.IntentAdded? ==> IndexOf(s.intents, e.intentId) < 0 && MayAddIntent(s, now, e.intentId, e.intent, e.under)
    ensures e.Signed? ==> MaySign(s, now, e.intentId, e.pay)
    ensures e.Approved? ==> MayApprove(s, now, e.intentId, e.credId, e.person)
  {
    hide MaySign, MayAddMandate, MayApproveMandate, MayChangePolicy, MayAddKey, DefaultPolicy;
    if e.Signed? {
      SignedNames(s, now, e.intentId, e.pay);
    }
  }

  /** A permitted event replaces one record, adds one at the end, or leaves the list alone. */
  lemma IntentsChange(cfg: Config, s: State, now: int, at: int, e: Event)
    requires Guard(cfg, s, now, e)
    ensures NamesIntent(e) ==> 0 <= IndexOf(s.intents, e.intentId)
    ensures Apply(s, at, e).intents ==
              if NamesIntent(e) then
                var i := IndexOf(s.intents, e.intentId);
                s.intents[i := RecordAfter(s, s.intents[i], at, e)]
              else if e.IntentAdded? then s.intents + [AddedRecord(s, at, e)]
              else s.intents
  {
    hide Guard, RecordAfter;
    GuardOnIntents(cfg, s, now, e);
    if e.IntentAdded? {
      assert AddedRecord(s, at, e).intentId == e.intentId;
    }
  }

  lemma SignedNames(s: State, now: int, id: Id, pay: Payment)
    requires MaySign(s, now, id, pay)
    ensures 0 <= IndexOf(s.intents, id)
  {
    hide MaySignFirst, MayReplace, MaySpendBtc, MaySpendEth;
  }

  /** The record named by a permitted event is still well formed afterwards. */
  lemma NamedRecordOk(cfg: Config, s: State, now: int, at: int, e: Event)
    requires Inv(s) && Guard(cfg, s, now, e) && NamesIntent(e)
    ensures IndexOf(s.intents, e.intentId) >= 0
    ensures var r := s.intents[IndexOf(s.intents, e.intentId)];
            && RecordAfter(s, r, at, e).intentId == r.intentId
            && RecordOk(s.mandates.Keys, RecordAfter(s, r, at, e))
  {
    GuardOnIntents(cfg, s, now, e);
    hide Quorum, MaySign, MayApprove;
    if e.Signed? {
      SignedExtends(s, now, e.intentId, e.pay);
      ExtendedOk(s.mandates.Keys, s.intents[IndexOf(s.intents, e.intentId)], Signature(at, e.pay));
    }
  }

  /** A mandate's terms never change once it is recorded. */
  lemma MandateFixed(s: State, at: int, e: Event, m: Id)
    requires m in s.mandates && (e.MandateAdded? ==> e.mandateId !in s.mandates)
    ensures m in MandatesAfter(s, at, e) && MandatesAfter(s, at, e)[m].mandate == s.mandates[m].mandate
  {
    hide MandateQuorum;
  }

  lemma MandatesGrow(s: State, at: int, e: Event)
    ensures s.mandates.Keys <= MandatesAfter(s, at, e).Keys
  {
  }

  lemma RecordsKeepOk(before: set<Id>, after: set<Id>, xs: seq<IntentRecord>)
    requires before <= after && RecordsOk(before, xs)
    ensures RecordsOk(after, xs)
  {
  }

  lemma ReplacedOk(mandates: set<Id>, xs: seq<IntentRecord>, i: nat, r: IntentRecord)
    requires RecordsOk(mandates, xs) && i < |xs| && r.intentId == xs[i].intentId && RecordOk(mandates, r)
    ensures RecordsOk(mandates, xs[i := r])
  {
  }

  lemma AddedOk(s: State, now: int, at: int, e: Event)
    requires Inv(s) && e.IntentAdded? && MayAddIntent(s, now, e.intentId, e.intent, e.under)
    ensures RecordsOk(s.mandates.Keys, IntentsAfter(s, at, e))
  {
    assert RecordOk(s.mandates.Keys, AddedRecord(s, at, e));
    assert IntentsAfter(s, at, e) == s.intents + [AddedRecord(s, at, e)];
  }

  lemma InvStep(cfg: Config, s: State, now: int, at: int, e: Event)
    requires Inv(s) && Guard(cfg, s, now, e)
    ensures Inv(Apply(s, at, e))
  {
    hide Guard, RecordAfter, RecordsOk;
    GuardOnIntents(cfg, s, now, e);
    if NamesIntent(e) {
      NamedRecordOk(cfg, s, now, at, e);
      var i := IndexOf(s.intents, e.intentId);
      ReplacedOk(s.mandates.Keys, s.intents, i, RecordAfter(s, s.intents[i], at, e));
    } else if e.IntentAdded? {
      AddedOk(s, now, at, e);
    }
    MandatesGrow(s, at, e);
    RecordsKeepOk(s.mandates.Keys, MandatesAfter(s, at, e).Keys, IntentsAfter(s, at, e));
  }

  lemma EmptyOk()
    ensures RecordsOk({}, [])
  {
  }

  lemma {:induction false} RunInv(cfg: Config, run: seq<Stamp>)
    requires ValidRun(cfg, run)
    ensures Inv(StateOf(run))
  {
    hide Guard, Apply, RecordsOk;
    if |run| == 0 {
      EmptyOk();
      assert StateOf(run).mandates.Keys == {};
    } else {
      var init, last := run[..|run| - 1], run[|run| - 1];
      RunInv(cfg, init);
      InvStep(cfg, StateOf(init), last.checked, last.at, last.event);
    }
  }

  // ----- records keep their place

  /** Intents are never removed or reordered, and keep what was approved. */
  ghost predicate Grown(xs: seq<IntentRecord>, xs': seq<IntentRecord>) {
    && |xs| <= |xs'|
    && forall i :: 0 <= i < |xs| ==> Kept(xs[i], xs'[i])
  }

  ghost predicate Kept(r: IntentRecord, r': IntentRecord) {
    && r'.intentId == r.intentId
    && r'.intent == r.intent
    && r'.mandateId == r.mandateId
    && r'.createdAt == r.createdAt
    && r.signatures <= r'.signatures
  }

  lemma RecordKept(s: State, r: IntentRecord, at: int, e: Event)
    ensures Kept(r, RecordAfter(s, r, at, e))
  {
    hide Quorum;
  }

  lemma GrownStep(cfg: Config, s: State, now: int, at: int, e: Event)
    requires Guard(cfg, s, now, e)
    ensures Grown(s.intents, Apply(s, at, e).intents)
  {
    hide Guard, RecordAfter, AddedRecord;
    IntentsChange(cfg, s, now, at, e);
    if NamesIntent(e) {
      RecordKept(s, s.intents[IndexOf(s.intents, e.intentId)], at, e);
    }
  }

  lemma {:induction false} GrownRun(cfg: Config, run: seq<Stamp>, k: nat)
    requires ValidRun(cfg, run) && k <= |run|
    ensures Grown(StateOf(run[..k]).intents, StateOf(run).intents)
  {
    hide Guard, Apply;
    if k == |run| {
      assert run[..k] == run;
    } else {
      var init, last := run[..|run| - 1], run[|run| - 1];
      GrownRun(cfg, init, k);
      assert init[..k] == run[..k];
      GrownStep(cfg, StateOf(init), last.checked, last.at, last.event);
    }
  }

  /** No intent was recorded later than the last event. */
  lemma {:induction false} CreatedPast(cfg: Config, run: seq<Stamp>, t: int)
    requires ValidRun(cfg, run) && NotAfter(run, t)
    ensures forall i :: 0 <= i < |StateOf(run).intents| ==> StateOf(run).intents[i].createdAt <= t
  {
    hide Guard, Apply, RecordAfter, AddedRecord;
    if |run| > 0 {
      var init, last := run[..|run| - 1], run[|run| - 1];
      CreatedPast(cfg, init, t);
      IntentsChange(cfg, StateOf(init), last.checked, last.at, last.event);
      if NamesIntent(last.event) {
        var i := IndexOf(StateOf(init).intents, last.event.intentId);
        RecordKept(StateOf(init), StateOf(init).intents[i], last.at, last.event);
      } else if last.event.IntentAdded? {
        AddedAt(StateOf(init), last.at, last.event);
      }
    }
  }

  lemma AddedAt(s: State, at: int, e: Event)
    requires e.IntentAdded?
    ensures AddedRecord(s, at, e).createdAt == at
  {
    hide Quorum;
  }

  lemma SignedAppends(cfg: Config, s: State, now: int, at: int, e: Event)
    requires Guard(cfg, s, now, e) && e.Signed?
    ensures 0 <= IndexOf(s.intents, e.intentId)
    ensures var i := IndexOf(s.intents, e.intentId);
            var s' := Apply(s, at, e);
            && i < |s'.intents|
            && s'.intents[i] == s.intents[i].(signatures := s.intents[i].signatures + [Signature(at, e.pay)])
  {
    hide Guard, IntentsAfter;
    IntentsChange(cfg, s, now, at, e);
  }

  /** Every signed event of a run is kept in the record of its intent. */
  lemma SignedIsRecorded(cfg: Config, run: seq<Stamp>, k: nat) returns (i: nat, n: nat)
    requires ValidRun(cfg, run) && k < |run| && run[k].event.Signed?
    ensures i < |StateOf(run).intents| && n < |StateOf(run).intents[i].signatures|
    ensures StateOf(run).intents[i].intentId == run[k].event.intentId
    ensures StateOf(run).intents[i].signatures[n] == Signature(run[k].at, run[k].event.pay)
  {
    hide Guard, Apply;
    StepPermitted(cfg, run, k);
    var s := StateOf(run[..k]);
    SignedAppends(cfg, s, run[k].checked, run[k].at, run[k].event);
    i := IndexOf(s.intents, run[k].event.intentId);
    n := |s.intents[i].signatures|;
    GrownRun(cfg, run, k + 1);
  }

  // ----- the policy in force

  lemma DefaultAcceptable(networks: set<Network>, dev: bool)
    requires forall n :: n in networks ==> !Live(n)
    ensures Acceptable(DefaultPolicy(networks, dev), dev)
  {
  }

  /** In every reachable state the policy in force is within the bounds. */
  lemma {:induction false} PolicyAcceptable(cfg: Config, run: seq<Stamp>)
    requires ValidRun(cfg, run)
    ensures StateOf(run).policy.Some? ==> Acceptable(StateOf(run).policy.value, cfg.dev)
  {
    hide Acceptable, DefaultPolicy, IntentsAfter, MandatesAfter, KeysAfter, MaySign, MayAddIntent, MayAddMandate,
         MayApprove, MayApproveMandate, MayAddKey, Formed;
    if |run| > 0 {
      var init, last := run[..|run| - 1], run[|run| - 1];
      PolicyAcceptable(cfg, init);
      if last.event.Initialised? {
        DefaultAcceptable(last.event.fingerprints.Keys, cfg.dev);
      }
    }
  }
}
