/**
 Replacement fees over whole runs: every replacement outbids the one before, within the
 fee cap the approvers saw, so there are only so many of them.
 */
module Fees {
  import opened Basics
  import opened Policies
  import opened SignerState
  import opened SignerRules
  import opened SignerRuns
  import opened Payments

  ghost predicate FeeOk(feeCap: nat, tx: Tx) {
    && tx.fee <= feeCap
    && (tx.EthTx? ==>
          && tx.gasLimit >= 21000
          && tx.fee == tx.gasLimit * tx.maxFeePerGas
          && 0 < tx.maxFeePerGas
          && tx.maxPriorityFeePerGas <= tx.maxFeePerGas)
  }

  ghost predicate Outbids(tx: Tx, last: Tx) {
    if tx.BtcTx? then tx.fee > last.fee else OutbidsEth(tx, last)
  }

  ghost predicate FeesOk(r: IntentRecord) {
    r.intent.purpose.Payout? ==>
      && (forall k :: 0 <= k < |r.signatures| ==> FeeOk(r.intent.purpose.feeCap, r.signatures[k].pay.tx))
      && (forall k :: 0 < k < |r.signatures| ==> Outbids(r.signatures[k].pay.tx, r.signatures[k - 1].pay.tx))
  }

  lemma SignedFeeOk(s: State, now: int, at: int, id: Id, pay: Payment)
    requires Inv(s) && MaySign(s, now, id, pay)
    ensures IndexOf(s.intents, id) >= 0
    ensures var r := s.intents[IndexOf(s.intents, id)];
            && r.intent.purpose.Payout?
            && FeeOk(r.intent.purpose.feeCap, pay.tx)
            && (r.signatures != [] ==> Outbids(pay.tx, r.signatures[|r.signatures| - 1].pay.tx))
  {
    hide MaySign, Inv, OutbidsEth, SameInputs, MayReplace;
    SpendChecked(s, now, id, pay);
  }

  lemma FeesExtended(r: IntentRecord, sig: Signature)
    requires FeesOk(r) && r.intent.purpose.Payout? && FeeOk(r.intent.purpose.feeCap, sig.pay.tx)
    requires r.signatures != [] ==> Outbids(sig.pay.tx, r.signatures[|r.signatures| - 1].pay.tx)
    ensures FeesOk(r.(signatures := r.signatures + [sig]))
  {
    hide FeeOk, Outbids;
  }

  lemma NamedFees(cfg: Config, s: State, now: int, at: int, e: Event)
    requires Inv(s) && Guard(cfg, s, now, e) && NamesIntent(e)
    requires forall i :: 0 <= i < |s.intents| ==> FeesOk(s.intents[i])
    ensures IndexOf(s.intents, e.intentId) >= 0
    ensures FeesOk(RecordAfter(s, s.intents[IndexOf(s.intents, e.intentId)], at, e))
  {
    hide Guard, Inv, MaySign, Settle;
    GuardOnIntents(cfg, s, now, e);
    var r := s.intents[IndexOf(s.intents, e.intentId)];
    if e.Signed? {
      SignedFeeOk(s, now, at, e.intentId, e.pay);
      FeesExtended(r, Signature(at, e.pay));
    } else {
      SignaturesKept(s, r, at, e);
      RecordKept(s, r, at, e);
    }
  }

  lemma FeesStep(cfg: Config, s: State, now: int, at: int, e: Event)
    requires Inv(s) && Guard(cfg, s, now, e)
    requires forall i :: 0 <= i < |s.intents| ==> FeesOk(s.intents[i])
    ensures forall i :: 0 <= i < |Apply(s, at, e).intents| ==> FeesOk(Apply(s, at, e).intents[i])
  {
    hide Guard, Apply, Inv, RecordAfter, AddedRecord, FeeOk, Outbids;
    IntentsChange(cfg, s, now, at, e);
    if NamesIntent(e) {
      hide FeesOk;
      NamedFees(cfg, s, now, at, e);
    } else if e.IntentAdded? {
      AddedUnsigned(s, at, e);
      assert FeesOk(AddedRecord(s, at, e));
    }
  }

  lemma {:induction false} FeesRun(cfg: Config, run: seq<Stamp>)
    requires ValidRun(cfg, run)
    ensures forall i :: 0 <= i < |StateOf(run).intents| ==> FeesOk(StateOf(run).intents[i])
  {
    hide Guard, Apply, Inv, FeesOk;
    if |run| > 0 {
      var init, last := run[..|run| - 1], run[|run| - 1];
      RunInv(cfg, init);
      FeesRun(cfg, init);
      FeesStep(cfg, StateOf(init), last.checked, last.at, last.event);
    }
  }

  // ----- geometric growth

  function Pow(b: nat, n: nat): nat {
    if n == 0 then 1 else b * Pow(b, n - 1)
  }

  /** One more step of at least ten per cent. */
  lemma Grows(n: nat, f0: nat, f: nat, g: nat)
    requires Pow(10, n) * f >= Pow(11, n) * f0 && g * 10 >= f * 11
    ensures Pow(10, n + 1) * g >= Pow(11, n + 1) * f0
  {
    var p, q := Pow(10, n), Pow(11, n);
    calc {
      Pow(10, n + 1) * g;
      == (10 * p) * g;
      == p * (g * 10);
      >= { Scale(p, f * 11, g * 10); } p * (f * 11);
      == 11 * (p * f);
      >= 11 * (q * f0);
      == (11 * q) * f0;
      == Pow(11, n + 1) * f0;
    }
  }

  lemma {:induction false} EthGrowth(sigs: seq<Signature>, n: nat)
    requires n < |sigs|
    requires forall k :: 0 <= k < |sigs| ==> sigs[k].pay.tx.EthTx?
    requires forall k :: 0 < k < |sigs| ==> Outbids(sigs[k].pay.tx, sigs[k - 1].pay.tx)
    ensures Pow(10, n) * sigs[n].pay.tx.maxFeePerGas >= Pow(11, n) * sigs[0].pay.tx.maxFeePerGas
    ensures Pow(10, n) * sigs[n].pay.tx.maxPriorityFeePerGas >= Pow(11, n) * sigs[0].pay.tx.maxPriorityFeePerGas
  {
    if n > 0 {
      EthGrowth(sigs, n - 1);
      var last, tx := sigs[n - 1].pay.tx, sigs[n].pay.tx;
      assert Outbids(tx, last);
      Grows(n - 1, sigs[0].pay.tx.maxFeePerGas, last.maxFeePerGas, tx.maxFeePerGas);
      Grows(n - 1, sigs[0].pay.tx.maxPriorityFeePerGas, last.maxPriorityFeePerGas, tx.maxPriorityFeePerGas);
    }
  }

  /** Both fees of the n-th Ethereum replacement have grown by at least 1.1 to the n. */
  lemma EthereumFeesGrow(cfg: Config, run: seq<Stamp>, i: nat, n: nat)
    requires ValidRun(cfg, run) && i < |StateOf(run).intents|
    requires n < |StateOf(run).intents[i].signatures| && !IsBitcoin(StateOf(run).intents[i].intent.network)
    ensures var sigs := StateOf(run).intents[i].signatures;
            && sigs[n].pay.tx.EthTx? && sigs[0].pay.tx.EthTx?
            && Pow(10, n) * sigs[n].pay.tx.maxFeePerGas >= Pow(11, n) * sigs[0].pay.tx.maxFeePerGas
            && Pow(10, n) * sigs[n].pay.tx.maxPriorityFeePerGas >= Pow(11, n) * sigs[0].pay.tx.maxPriorityFeePerGas
  {
    hide ValidRun, StateOf, Pow;
    RunInv(cfg, run);
    FeesRun(cfg, run);
    var r := StateOf(run).intents[i];
    assert RecordOk(StateOf(run).mandates.Keys, r);
    assert forall k :: 0 <= k < |r.signatures| ==> MatchesIntent(r.intent, r.signatures[k].pay);
    assert FeesOk(r);
    EthGrowth(r.signatures, n);
  }

  lemma CapBounds(p: nat, q: nat, gas: nat, f: nat, f0: nat, cap: nat)
    requires p * f >= q * f0 && gas >= 21000 && gas * f <= cap
    ensures q * f0 * 21000 <= p * cap
  {
    Scale(f, 21000, gas);
    assert 21000 * f <= cap;
    Scale(p, 21000 * f, cap);
    calc {
      q * f0 * 21000;
      <= (p * f) * 21000;
      == p * (21000 * f);
      <= p * cap;
    }
  }

  /**
   The number n of replacements of an Ethereum payout is bounded by the fee cap in the
   approved intent alone: 1.1 to the n times the first fee fits under the cap.
   */
  lemma EthereumReplacementsBounded(cfg: Config, run: seq<Stamp>, i: nat, n: nat)
    requires ValidRun(cfg, run) && i < |StateOf(run).intents|
    requires n < |StateOf(run).intents[i].signatures| && !IsBitcoin(StateOf(run).intents[i].intent.network)
    ensures var r := StateOf(run).intents[i];
            && r.intent.purpose.Payout? && r.signatures[0].pay.tx.EthTx?
            && Pow(11, n) * r.signatures[0].pay.tx.maxFeePerGas * 21000 <= Pow(10, n) * r.intent.purpose.feeCap
            && r.signatures[0].pay.tx.maxFeePerGas > 0
  {
    hide ValidRun, StateOf, Pow;
    EthereumFeesGrow(cfg, run, i, n);
    RunInv(cfg, run);
    FeesRun(cfg, run);
    var r := StateOf(run).intents[i];
    assert RecordOk(StateOf(run).mandates.Keys, r);
    assert MatchesIntent(r.intent, r.signatures[0].pay);
    assert FeesOk(r);
    assert FeeOk(r.intent.purpose.feeCap, r.signatures[0].pay.tx);
    assert FeeOk(r.intent.purpose.feeCap, r.signatures[n].pay.tx);
    var f0, tx := r.signatures[0].pay.tx.maxFeePerGas, r.signatures[n].pay.tx;
    CapBounds(Pow(10, n), Pow(11, n), tx.gasLimit, tx.maxFeePerGas, f0, r.intent.purpose.feeCap);
  }

  lemma {:induction false} BtcGrowth(sigs: seq<Signature>, n: nat)
    requires n < |sigs|
    requires forall k :: 0 <= k < |sigs| ==> sigs[k].pay.tx.BtcTx?
    requires forall k :: 0 < k < |sigs| ==> Outbids(sigs[k].pay.tx, sigs[k - 1].pay.tx)
    ensures sigs[n].pay.tx.fee >= sigs[0].pay.tx.fee + n
  {
    if n > 0 {
      BtcGrowth(sigs, n - 1);
      assert Outbids(sigs[n].pay.tx, sigs[n - 1].pay.tx);
    }
  }

  /** Each Bitcoin replacement pays more, so there are at most as many as the cap leaves room for. */
  lemma BitcoinReplacementsBounded(cfg: Config, run: seq<Stamp>, i: nat)
    requires ValidRun(cfg, run) && i < |StateOf(run).intents|
    requires |StateOf(run).intents[i].signatures| > 0 && IsBitcoin(StateOf(run).intents[i].intent.network)
    ensures var r := StateOf(run).intents[i];
            && r.intent.purpose.Payout?
            && r.signatures[0].pay.tx.fee + |r.signatures| - 1 <= r.intent.purpose.feeCap
  {
    hide ValidRun, StateOf;
    RunInv(cfg, run);
    FeesRun(cfg, run);
    var r := StateOf(run).intents[i];
    assert RecordOk(StateOf(run).mandates.Keys, r);
    assert forall k :: 0 <= k < |r.signatures| ==> MatchesIntent(r.intent, r.signatures[k].pay);
    assert FeesOk(r);
    var n := |r.signatures| - 1;
    BtcGrowth(r.signatures, n);
    assert FeeOk(r.intent.purpose.feeCap, r.signatures[n].pay.tx);
  }
}
