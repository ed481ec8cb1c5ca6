/**
 Bitcoin amounts over whole runs: every signed transaction balances, replacements of one
 payout only move value between change and fee, and whichever transaction of each payout a
 chain confirms, all coins ever committed are payments, fees and change.
 */
module Conservation {
  import opened Basics
  import opened SignerState
  import opened SignerRules
  import opened SignerRuns
  import opened Payments

  // ----- one transaction

  /** What the transaction pays away: the approved amount, or nothing when it recalls the payout. */
  function PaidAway(pay: Payment): nat {
    if pay.mode == Recall then 0 else pay.amount
  }

  /** Every signed Bitcoin transaction of a run balances. */
  lemma SignedBalanced(cfg: Config, run: seq<Stamp>, k: nat)
    requires ValidRun(cfg, run) && k < |run| && IsBtc(run[k])
    ensures Balanced(cfg, run[k].event.pay)
  {
    hide Guard, StateOf, Balanced;
    StepPermitted(cfg, run, k);
  }

  // ----- the value of a set of coins

  ghost function SetValue(cfg: Config, coins: set<string>): nat {
    if coins == {} then 0
    else
      var o :| o in coins;
      cfg.coinValue(o) + SetValue(cfg, coins - {o})
  }

  /** Any coin may be counted first. */
  lemma {:induction false} CountFirst(cfg: Config, coins: set<string>, o: string)
    requires o in coins
    ensures SetValue(cfg, coins) == cfg.coinValue(o) + SetValue(cfg, coins - {o})
    decreases |coins|
  {
    var p :| p in coins && SetValue(cfg, coins) == cfg.coinValue(p) + SetValue(cfg, coins - {p});
    if p != o {
      CountFirst(cfg, coins - {p}, o);
      CountFirst(cfg, coins - {o}, p);
      assert coins - {p} - {o} == coins - {o} - {p};
    }
  }

  lemma {:induction false} ValueOfDisjoint(cfg: Config, a: set<string>, b: set<string>)
    requires a !! b
    ensures SetValue(cfg, a + b) == SetValue(cfg, a) + SetValue(cfg, b)
    decreases |a|
  {
    if a == {} {
      assert a + b == b;
    } else {
      var o :| o in a;
      CountFirst(cfg, a, o);
      CountFirst(cfg, a + b, o);
      assert a + b - {o} == (a - {o}) + b;
      ValueOfDisjoint(cfg, a - {o}, b);
    }
  }

  /** Distinct outpoints are worth what their set is. */
  lemma {:induction false} ListValue(cfg: Config, outpoints: seq<string>)
    requires Distinct(outpoints)
    ensures ValueOf(cfg, outpoints) == SetValue(cfg, Elements(outpoints))
  {
    if |outpoints| > 0 {
      var init, o := outpoints[..|outpoints| - 1], outpoints[|outpoints| - 1];
      ListValue(cfg, init);
      assert outpoints == init + [o];
      assert o in Elements(outpoints);
      assert Elements(outpoints) - {o} == Elements(init);
      CountFirst(cfg, Elements(outpoints), o);
    }
  }

  // ----- replacements

  /**
   Two transactions of one payout spend the same value: what one pays away, its fee and its
   change add up to what the other's do, so a higher fee comes out of the change alone.
   */
  lemma ReplacementConserves(cfg: Config, run: seq<Stamp>, j: nat, k: nat)
    requires ValidRun(cfg, run) && j < |run| && k < |run| && IsBtc(run[j]) && IsBtc(run[k])
    requires run[j].event.intentId == run[k].event.intentId
    ensures var a, b := run[j].event.pay, run[k].event.pay;
            && ChangeOf(cfg, a) >= 0 && ChangeOf(cfg, b) >= 0
            && PaidAway(a) + a.tx.fee + ChangeOf(cfg, a) == PaidAway(b) + b.tx.fee + ChangeOf(cfg, b)
            && (a.mode != Recall && b.mode != Recall ==>
                  a.amount == b.amount && ChangeOf(cfg, a) - ChangeOf(cfg, b) == b.tx.fee - a.tx.fee)
  {
    hide ValidRun, StateOf, Inv, ValueOf;
    var a, b := run[j].event.pay.tx.outpoints, run[k].event.pay.tx.outpoints;
    SignedBalanced(cfg, run, j);
    SignedBalanced(cfg, run, k);
    BitcoinExclusive(cfg, run, j, k);
    SignedBtcSpends(cfg, run, j);
    SignedBtcSpends(cfg, run, k);
    ListValue(cfg, a);
    ListValue(cfg, b);
    SameAmount(cfg, run, j, k);
  }

  lemma SameAmount(cfg: Config, run: seq<Stamp>, j: nat, k: nat)
    requires ValidRun(cfg, run) && j < |run| && k < |run| && IsBtc(run[j]) && IsBtc(run[k])
    requires run[j].event.intentId == run[k].event.intentId
    ensures run[j].event.pay.amount == run[k].event.pay.amount
  {
    hide ValidRun, StateOf;
    var x, m := SignedIsRecorded(cfg, run, j);
    var y, n := SignedIsRecorded(cfg, run, k);
    RunInv(cfg, run);
    var xs := StateOf(run).intents;
    UniqueIndex(xs, x);
    UniqueIndex(xs, y);
    assert RecordOk(StateOf(run).mandates.Keys, xs[x]);
    assert MatchesIntent(xs[x].intent, xs[x].signatures[m].pay);
    assert MatchesIntent(xs[x].intent, xs[x].signatures[n].pay);
  }

  // ----- everything at once

  function AllCoins(xs: seq<IntentRecord>): set<string> {
    if |xs| == 0 then {} else AllCoins(xs[..|xs| - 1]) + CoinsOf(xs[|xs| - 1])
  }

  /** `pick` names one signature of every signed payout, such as the one that was confirmed. */
  predicate Picks(xs: seq<IntentRecord>, pick: seq<nat>) {
    && |pick| == |xs|
    && forall i :: 0 <= i < |xs| ==> |xs[i].signatures| == 0 || pick[i] < |xs[i].signatures|
  }

  /** What the chosen Bitcoin transactions pay away, cost in fees and return, together. */
  function Outlays(cfg: Config, xs: seq<IntentRecord>, pick: seq<nat>): int
    requires Picks(xs, pick)
  {
    if |xs| == 0 then 0
    else
      var n := |xs| - 1;
      Outlays(cfg, xs[..n], pick[..n]) + Outlay(cfg, xs[n], pick[n])
  }

  function Outlay(cfg: Config, r: IntentRecord, n: nat): int {
    if n < |r.signatures| && r.signatures[n].pay.tx.BtcTx? then
      PaidAway(r.signatures[n].pay) + r.signatures[n].pay.tx.fee + ChangeOf(cfg, r.signatures[n].pay)
    else 0
  }

  lemma {:induction false} CoinsAmong(xs: seq<IntentRecord>, o: string)
    ensures o in AllCoins(xs) <==> exists i :: 0 <= i < |xs| && o in CoinsOf(xs[i])
  {
    if |xs| > 0 {
      hide CoinsOf;
      var init, last := xs[..|xs| - 1], xs[|xs| - 1];
      CoinsAmong(init, o);
      assert xs == init + [last];
    }
  }

  /** One payout's chosen transaction accounts for all the coins the payout holds. */
  lemma OutlayIsCoins(cfg: Config, mandates: set<Id>, r: IntentRecord, n: nat)
    requires RecordOk(mandates, r) && (|r.signatures| > 0 ==> n < |r.signatures|)
    ensures Outlay(cfg, r, n) == SetValue(cfg, CoinsOf(r))
  {
    hide ValueOf;
    if |r.signatures| > 0 {
      var first, tx := r.signatures[0].pay.tx, r.signatures[n].pay.tx;
      assert SameCoins(first, tx) && Distinct(Outpoints(tx));
      if tx.BtcTx? {
        ListValue(cfg, tx.outpoints);
      } else {
        assert CoinsOf(r) == {};
      }
    }
  }

  lemma {:induction false} CoinsAccounted(cfg: Config, s: State, n: nat, pick: seq<nat>)
    requires Inv(s) && CoinInv(s) && Picks(s.intents, pick) && n <= |s.intents|
    ensures Picks(s.intents[..n], pick[..n])
    ensures Outlays(cfg, s.intents[..n], pick[..n]) == SetValue(cfg, AllCoins(s.intents[..n]))
  {
    hide CoinsOf, Outlay, NonceOf, CoinInv, RecordOk;
    if n > 0 {
      var xs, ps := s.intents[..n], pick[..n];
      assert xs[..n - 1] == s.intents[..n - 1] && ps[..n - 1] == pick[..n - 1];
      CoinsAccounted(cfg, s, n - 1, pick);
      OutlayIsCoins(cfg, s.mandates.Keys, s.intents[n - 1], pick[n - 1]);
      NewCoins(s, n - 1);
      ValueOfDisjoint(cfg, AllCoins(s.intents[..n - 1]), CoinsOf(s.intents[n - 1]));
    }
  }

  lemma NewCoins(s: State, n: nat)
    requires Inv(s) && CoinInv(s) && n < |s.intents|
    ensures AllCoins(s.intents[..n]) !! CoinsOf(s.intents[n])
  {
    hide CoinsOf, NonceOf, RecordOk, AllCoins;
    forall o | o in AllCoins(s.intents[..n])
      ensures o !in CoinsOf(s.intents[n])
    {
      CoinsAmong(s.intents[..n], o);
      var i :| 0 <= i < n && o in CoinsOf(s.intents[..n][i]);
      if o in CoinsOf(s.intents[n]) {
        HeldOnce(s, i, n, o);
      }
    }
  }

  /**
   Conservation over a run: choose any one transaction of every signed payout. The coins of
   all payouts together are worth exactly what the chosen transactions pay away, cost in fees
   and return as change, and none of them returns less than nothing.
   */
  lemma CoinsConserved(cfg: Config, run: seq<Stamp>, pick: seq<nat>)
    requires ValidRun(cfg, run) && Picks(StateOf(run).intents, pick)
    ensures SetValue(cfg, AllCoins(StateOf(run).intents)) == Outlays(cfg, StateOf(run).intents, pick)
    ensures forall i :: 0 <= i < |StateOf(run).intents| ==>
              forall n :: 0 <= n < |StateOf(run).intents[i].signatures| ==>
                var pay := StateOf(run).intents[i].signatures[n].pay;
                pay.tx.BtcTx? ==> Balanced(cfg, pay)
  {
    hide ValidRun, StateOf, Inv, CoinInv, Outlays, AllCoins, Balanced;
    RunInv(cfg, run);
    CoinRun(cfg, run);
    var xs := StateOf(run).intents;
    CoinsAccounted(cfg, StateOf(run), |xs|, pick);
    assert xs[..|xs|] == xs && pick[..|xs|] == pick;
    forall i, n | 0 <= i < |xs| && 0 <= n < |xs[i].signatures| && xs[i].signatures[n].pay.tx.BtcTx?
      ensures Balanced(cfg, xs[i].signatures[n].pay)
    {
      var k := StampOf(cfg, run, i, n);
      SignedBalanced(cfg, run, k);
    }
  }

  /** The event of the run that a recorded signature is. */
  lemma StampOf(cfg: Config, run: seq<Stamp>, i: nat, n: nat) returns (k: nat)
    requires ValidRun(cfg, run) && i < |StateOf(run).intents| && n < |StateOf(run).intents[i].signatures|
    ensures k < |run| && run[k].event.Signed? && run[k].event.pay == StateOf(run).intents[i].signatures[n].pay
  {
    hide ValidRun, StateOf, Inv;
    SignatureHistory(cfg, run, i);
    k := StampAmong(run, StateOf(run).intents[i].intentId, n);
  }

  lemma {:induction false} StampAmong(run: seq<Stamp>, id: Id, n: nat) returns (k: nat)
    requires n < |SignaturesIn(run, id)|
    ensures k < |run| && run[k].event.Signed? && run[k].event.pay == SignaturesIn(run, id)[n].pay
  {
    var init := run[..|run| - 1];
    if n < |SignaturesIn(init, id)| {
      k := StampAmong(init, id, n);
    } else {
      k := |run| - 1;
    }
  }
}
