/**
 Signed transactions over whole runs: no coin and no nonce is given to two intents,
 replacements compete for the coins of the first signature, and their fees grow.
 */
module Payments {
  import opened Basics
  import opened Policies
  import opened SignerState
  import opened SignerRules
  import opened SignerRuns

  // ----- reservation of coins and nonces

  /** The outpoints an intent's transactions spend; replacements spend those of the first. */
  function CoinsOf(r: IntentRecord): set<string> {
    if |r.signatures| > 0 then Elements(Outpoints(r.signatures[0].pay.tx)) else {}
  }

  /** The account and nonce an intent's Ethereum transactions use. */
  function NonceOf(r: IntentRecord): Option<(Id, nat)> {
    if |r.signatures| > 0 && r.signatures[0].pay.tx.EthTx?
    then Some((r.signatures[0].pay.accountId, r.signatures[0].pay.tx.nonce))
    else None
  }

  ghost predicate CoinsHeld(xs: seq<IntentRecord>, reserved: map<string, Id>) {
    forall i, o :: 0 <= i < |xs| && o in CoinsOf(xs[i]) ==> o in reserved && reserved[o] == xs[i].intentId
  }

  ghost predicate NoncesHeld(xs: seq<IntentRecord>, nonces: map<Id, nat>) {
    && (forall i :: 0 <= i < |xs| && NonceOf(xs[i]).Some? ==>
          NonceOf(xs[i]).value.0 in nonces && NonceOf(xs[i]).value.1 <= nonces[NonceOf(xs[i]).value.0])
    && (forall i, j :: 0 <= i < j < |xs| && NonceOf(xs[i]).Some? ==> NonceOf(xs[i]) != NonceOf(xs[j]))
  }

  /** What the spend checks say about a permitted signature. */
  lemma SpendChecked(s: State, now: int, id: Id, pay: Payment)
    requires Inv(s) && MaySign(s, now, id, pay)
    ensures IndexOf(s.intents, id) >= 0 && s.policy.Some?
    ensures var r := s.intents[IndexOf(s.intents, id)];
            && Extends(r, pay)
            && (IsBitcoin(r.intent.network) ==>
                  MaySpendBtc(s, id, r, pay.accountId, r.intent.purpose.feeCap, pay.mode, pay.tx))
            && (!IsBitcoin(r.intent.network) ==>
                  MaySpendEth(s, r, s.policy.value, pay.accountId, r.intent.purpose.feeCap, pay.mode, pay.tx))
  {
    SignedNames(s, now, id, pay);
    SignedExtends(s, now, id, pay);
    hide MaySignFirst, MaySpendBtc, MaySpendEth, MayReplace;
  }

  lemma CoinsTaken(xs: seq<IntentRecord>, i: nat, r: IntentRecord, reserved: map<string, Id>, mine: seq<string>)
    requires CoinsHeld(xs, reserved) && UniqueIds(xs) && i < |xs| && r.intentId == xs[i].intentId
    requires CoinsOf(r) == Elements(mine)
    requires forall o :: o in mine && o in reserved ==> reserved[o] == r.intentId
    ensures CoinsHeld(xs[i := r], reserved + (map o | o in mine :: r.intentId))
  {
    var after := reserved + (map o | o in mine :: r.intentId);
    forall j, o | 0 <= j < |xs| && o in CoinsOf(xs[i := r][j])
      ensures o in after && after[o] == xs[j].intentId
    {
      if j != i {
        assert o in reserved && reserved[o] == xs[j].intentId;
      }
    }
  }

  lemma CoinsStep(s: State, now: int, at: int, id: Id, pay: Payment, i: nat, r: IntentRecord)
    requires Inv(s) && MaySign(s, now, id, pay) && CoinsHeld(s.intents, s.reserved)
    requires i == IndexOf(s.intents, id)
    requires r == s.intents[i].(signatures := s.intents[i].signatures + [Signature(at, pay)])
    ensures CoinsHeld(s.intents[i := r], ReservedAfter(s.reserved, Signed(id, pay)))
  {
    SpendChecked(s, now, id, pay);
    hide MaySign, MaySpendEth, MayReplace;
    var first := s.intents[i].signatures;
    assert RecordOk(s.mandates.Keys, s.intents[i]);
    var mine := Outpoints(pay.tx);
    assert CoinsOf(r) == Elements(mine) by {
      if first != [] {
        assert SameCoins(first[0].pay.tx, pay.tx);
        assert r.signatures[0] == first[0];
      }
    }
    assert forall o :: o in mine && o in s.reserved ==> s.reserved[o] == id by {
      if first != [] {
        assert forall o :: o in mine ==> o in CoinsOf(s.intents[i]);
      }
    }
    CoinsTaken(s.intents, i, r, s.reserved, mine);
  }

  lemma NonceTaken(xs: seq<IntentRecord>, i: nat, r: IntentRecord, nonces: map<Id, nat>, a: Id, n: nat)
    requires NoncesHeld(xs, nonces) && i < |xs| && NonceOf(r) == Some((a, n))
    requires NonceOf(xs[i]) == NonceOf(r) || (a in nonces ==> n > nonces[a])
    ensures NoncesHeld(xs[i := r], if a !in nonces || n > nonces[a] then nonces[a := n] else nonces)
  {
  }

  lemma NoNonceTaken(xs: seq<IntentRecord>, i: nat, r: IntentRecord, nonces: map<Id, nat>)
    requires NoncesHeld(xs, nonces) && i < |xs| && NonceOf(r).None?
    ensures NoncesHeld(xs[i := r], nonces)
  {
  }

  lemma NoncesStep(s: State, now: int, at: int, id: Id, pay: Payment, i: nat, r: IntentRecord)
    requires Inv(s) && MaySign(s, now, id, pay) && NoncesHeld(s.intents, s.nonces)
    requires i == IndexOf(s.intents, id)
    requires r == s.intents[i].(signatures := s.intents[i].signatures + [Signature(at, pay)])
    ensures NoncesHeld(s.intents[i := r], NoncesAfter(s.nonces, Signed(id, pay)))
  {
    SpendChecked(s, now, id, pay);
    hide MaySign, MaySpendBtc, OutbidsEth, MayReplace, NoncesHeld;
    var first := s.intents[i].signatures;
    assert RecordOk(s.mandates.Keys, s.intents[i]);
    if first != [] {
      assert SameCoins(first[0].pay.tx, pay.tx) && r.signatures[0] == first[0];
      assert MatchesIntent(s.intents[i].intent, first[0].pay);
    }
    if pay.tx.EthTx? {
      NonceTaken(s.intents, i, r, s.nonces, pay.accountId, pay.tx.nonce);
    } else {
      NoNonceTaken(s.intents, i, r, s.nonces);
    }
  }

  ghost predicate CoinInv(s: State) {
    CoinsHeld(s.intents, s.reserved) && NoncesHeld(s.intents, s.nonces)
  }

  lemma SignaturesKept(s: State, r: IntentRecord, at: int, e: Event)
    requires !e.Signed?
    ensures RecordAfter(s, r, at, e).signatures == r.signatures
    ensures RecordAfter(s, r, at, e).intentId == r.intentId
  {
    hide Quorum;
  }

  lemma AddedUnsigned(s: State, at: int, e: Event)
    requires e.IntentAdded?
    ensures AddedRecord(s, at, e).signatures == []
  {
    hide Quorum;
  }

  /** Same ids and signatures, so the same coins and nonces are held. */
  lemma HeldBySignatures(s: State, s': State)
    requires |s.intents| <= |s'.intents| && s'.reserved == s.reserved && s'.nonces == s.nonces
    requires forall i :: 0 <= i < |s.intents| ==>
               s'.intents[i].signatures == s.intents[i].signatures && s'.intents[i].intentId == s.intents[i].intentId
    requires forall i :: |s.intents| <= i < |s'.intents| ==> s'.intents[i].signatures == []
    requires CoinInv(s)
    ensures CoinInv(s')
  {
    var xs, ys := s.intents, s'.intents;
    assert forall i :: 0 <= i < |xs| ==> CoinsOf(ys[i]) == CoinsOf(xs[i]) && NonceOf(ys[i]) == NonceOf(xs[i]);
    assert forall i :: |xs| <= i < |ys| ==> CoinsOf(ys[i]) == {} && NonceOf(ys[i]).None?;
  }

  lemma UnsignedStep(cfg: Config, s: State, now: int, at: int, e: Event)
    requires Guard(cfg, s, now, e) && !e.Signed? && CoinInv(s)
    ensures CoinInv(Apply(s, at, e))
  {
    hide Guard, CoinInv, RecordAfter, AddedRecord;
    IntentsChange(cfg, s, now, at, e);
    if NamesIntent(e) {
      SignaturesKept(s, s.intents[IndexOf(s.intents, e.intentId)], at, e);
    } else if e.IntentAdded? {
      AddedUnsigned(s, at, e);
    }
    HeldBySignatures(s, Apply(s, at, e));
  }

  lemma CoinStep(cfg: Config, s: State, now: int, at: int, e: Event)
    requires Inv(s) && Guard(cfg, s, now, e) && CoinInv(s)
    ensures CoinInv(Apply(s, at, e))
  {
    hide Guard, Inv, CoinsHeld, NoncesHeld, MaySign;
    if e.Signed? {
      GuardOnIntents(cfg, s, now, e);
      var i := IndexOf(s.intents, e.intentId);
      var r := s.intents[i].(signatures := s.intents[i].signatures + [Signature(at, e.pay)]);
      CoinsStep(s, now, at, e.intentId, e.pay, i, r);
      NoncesStep(s, now, at, e.intentId, e.pay, i, r);
    } else {
      UnsignedStep(cfg, s, now, at, e);
    }
  }

  lemma {:induction false} CoinRun(cfg: Config, run: seq<Stamp>)
    requires ValidRun(cfg, run)
    ensures CoinInv(StateOf(run))
  {
    hide Guard, Apply, Inv;
    if |run| > 0 {
      var init, last := run[..|run| - 1], run[|run| - 1];
      RunInv(cfg, init);
      CoinRun(cfg, init);
      CoinStep(cfg, StateOf(init), last.checked, last.at, last.event);
    }
  }

  // ----- the record of an intent is the list of its signed events

  /** The signed events of one intent, in the order of the run. */
  function SignaturesIn(run: seq<Stamp>, id: Id): seq<Signature> {
    if |run| == 0 then []
    else
      var last := run[|run| - 1];
      var before := SignaturesIn(run[..|run| - 1], id);
      if last.event.Signed? && last.event.intentId == id
      then before + [Signature(last.at, last.event.pay)]
      else before
  }

  function RecordedFor(xs: seq<IntentRecord>, id: Id): seq<Signature> {
    var i := IndexOf(xs, id);
    if i >= 0 then xs[i].signatures else []
  }

  lemma ReplacedLookup(xs: seq<IntentRecord>, i: nat, r: IntentRecord, id: Id)
    requires UniqueIds(xs) && i < |xs| && r.intentId == xs[i].intentId
    ensures RecordedFor(xs[i := r], id) == if id == r.intentId then r.signatures else RecordedFor(xs, id)
  {
    var ys := xs[i := r];
    var k := IndexOf(ys, id);
    assert UniqueIds(ys);
    if k >= 0 {
      assert xs[k].intentId == id;
      UniqueIndex(xs, k);
    } else {
      assert forall j :: 0 <= j < |xs| ==> xs[j].intentId == ys[j].intentId;
    }
  }

  lemma AppendedLookup(xs: seq<IntentRecord>, r: IntentRecord, id: Id)
    requires IndexOf(xs, r.intentId) < 0 && r.signatures == []
    ensures RecordedFor(xs + [r], id) == RecordedFor(xs, id)
  {
    assert (xs + [r])[..|xs|] == xs;
  }

  lemma RecordedStep(cfg: Config, s: State, now: int, at: int, e: Event, id: Id)
    requires Inv(s) && Guard(cfg, s, now, e)
    ensures RecordedFor(Apply(s, at, e).intents, id) ==
            RecordedFor(s.intents, id) + if e.Signed? && e.intentId == id then [Signature(at, e.pay)] else []
  {
    hide Guard, Apply, RecordOk, RecordedFor, AddedRecord, Quorum;
    IntentsChange(cfg, s, now, at, e);
    GuardOnIntents(cfg, s, now, e);
    if NamesIntent(e) {
      var i := IndexOf(s.intents, e.intentId);
      var r := s.intents[i];
      RecordKept(s, r, at, e);
      ReplacedLookup(s.intents, i, RecordAfter(s, r, at, e), id);
      ReplacedLookup(s.intents, i, r, id);
      assert s.intents[i := r] == s.intents;
    } else if e.IntentAdded? {
      AddedUnsigned(s, at, e);
      AddedKeepsId(s, at, e);
      AppendedLookup(s.intents, AddedRecord(s, at, e), id);
    }
  }

  lemma AddedKeepsId(s: State, at: int, e: Event)
    requires e.IntentAdded?
    ensures AddedRecord(s, at, e).intentId == e.intentId
  {
    hide Quorum;
  }

  lemma {:induction false} RecordedIsRun(cfg: Config, run: seq<Stamp>, id: Id)
    requires ValidRun(cfg, run)
    ensures RecordedFor(StateOf(run).intents, id) == SignaturesIn(run, id)
  {
    hide Guard, Apply, Inv;
    if |run| > 0 {
      var init, last := run[..|run| - 1], run[|run| - 1];
      RunInv(cfg, init);
      RecordedIsRun(cfg, init, id);
      RecordedStep(cfg, StateOf(init), last.checked, last.at, last.event, id);
    }
  }

  /**
   The signatures of one intent over a whole run: none, or one first, then bumps, then
   recalls, all for the approved amount, and the intent is then neither cancelled nor vetoed.
   */
  lemma SignatureHistory(cfg: Config, run: seq<Stamp>, i: nat)
    requires ValidRun(cfg, run) && i < |StateOf(run).intents|
    ensures var r := StateOf(run).intents[i];
            var sigs := SignaturesIn(run, r.intentId);
            && r.signatures == sigs
            && HistoryShape(sigs)
            && (sigs != [] ==> !r.cancelled && !r.vetoed)
            && (forall k :: 0 <= k < |sigs| ==> MatchesIntent(r.intent, sigs[k].pay))
  {
    hide ValidRun, StateOf;
    RunInv(cfg, run);
    var r := StateOf(run).intents[i];
    UniqueIndex(StateOf(run).intents, i);
    RecordedIsRun(cfg, run, r.intentId);
    assert RecordOk(StateOf(run).mandates.Keys, r);
    assert r.signatures != [] ==> MatchesIntent(r.intent, r.signatures[0].pay);
  }

  // ----- Bitcoin: one intent per coin

  predicate IsBtc(st: Stamp) {
    st.event.Signed? && st.event.pay.tx.BtcTx?
  }

  predicate IsEth(st: Stamp) {
    st.event.Signed? && st.event.pay.tx.EthTx?
  }

  /** The record a signed event ended up in, and the coins it stands for. */
  lemma CoinsOfStamp(cfg: Config, run: seq<Stamp>, k: nat) returns (i: nat)
    requires ValidRun(cfg, run) && k < |run| && run[k].event.Signed?
    ensures i < |StateOf(run).intents| && StateOf(run).intents[i].intentId == run[k].event.intentId
    ensures CoinsOf(StateOf(run).intents[i]) == Elements(Outpoints(run[k].event.pay.tx))
    ensures IsEth(run[k]) ==>
              NonceOf(StateOf(run).intents[i]) == Some((run[k].event.pay.accountId, run[k].event.pay.tx.nonce))
  {
    hide ValidRun, StateOf;
    var n;
    i, n := SignedIsRecorded(cfg, run, k);
    RunInv(cfg, run);
    var r := StateOf(run).intents[i];
    assert RecordOk(StateOf(run).mandates.Keys, r);
    assert SameCoins(r.signatures[0].pay.tx, r.signatures[n].pay.tx);
    assert MatchesIntent(r.intent, r.signatures[0].pay) && MatchesIntent(r.intent, r.signatures[n].pay);
  }

  lemma SignedBtcSpends(cfg: Config, run: seq<Stamp>, k: nat)
    requires ValidRun(cfg, run) && k < |run| && IsBtc(run[k])
    ensures 0 < |run[k].event.pay.tx.outpoints| && Distinct(run[k].event.pay.tx.outpoints)
  {
    hide Guard, StateOf, Inv, MaySign;
    StepPermitted(cfg, run, k);
    RunInv(cfg, run[..k]);
    GuardOnIntents(cfg, StateOf(run[..k]), run[k].checked, run[k].event);
    SpendChecked(StateOf(run[..k]), run[k].checked, run[k].event.intentId, run[k].event.pay);
  }

  /**
   Bitcoin exclusivity: two signed transactions of a run share an outpoint exactly when
   they belong to the same intent, and then they spend the same set of outpoints.
   */
  lemma BitcoinExclusive(cfg: Config, run: seq<Stamp>, j: nat, k: nat)
    requires ValidRun(cfg, run) && j < |run| && k < |run| && IsBtc(run[j]) && IsBtc(run[k])
    ensures var a, b := run[j].event.pay.tx.outpoints, run[k].event.pay.tx.outpoints;
            && ((exists o :: o in a && o in b) <==> run[j].event.intentId == run[k].event.intentId)
            && (run[j].event.intentId == run[k].event.intentId ==> Elements(a) == Elements(b) && |a| == |b|)
  {
    hide ValidRun, StateOf, CoinsOf, NonceOf, Inv;
    var a, b := run[j].event.pay.tx.outpoints, run[k].event.pay.tx.outpoints;
    var x := CoinsOfStamp(cfg, run, j);
    var y := CoinsOfStamp(cfg, run, k);
    var s := StateOf(run);
    CoinRun(cfg, run);
    SignedBtcSpends(cfg, run, j);
    SignedBtcSpends(cfg, run, k);
    assert UniqueIds(s.intents) by { RunUnique(cfg, run); }
    if run[j].event.intentId == run[k].event.intentId {
      assert x == y;
      assert a[0] in Elements(a) && a[0] in Elements(b);
      DistinctCardinality(a);
      DistinctCardinality(b);
    }
    forall o | o in a && o in b ensures run[j].event.intentId == run[k].event.intentId {
      HeldOnce(s, x, y, o);
    }
  }

  lemma HeldOnce(s: State, x: nat, y: nat, o: string)
    requires CoinInv(s) && x < |s.intents| && y < |s.intents|
    requires o in CoinsOf(s.intents[x]) && o in CoinsOf(s.intents[y])
    ensures s.intents[x].intentId == s.intents[y].intentId
  {
    hide CoinsOf, NonceOf;
    assert s.reserved[o] == s.intents[x].intentId;
  }

  lemma RunUnique(cfg: Config, run: seq<Stamp>)
    requires ValidRun(cfg, run)
    ensures UniqueIds(StateOf(run).intents)
  {
    hide ValidRun, StateOf;
    RunInv(cfg, run);
  }

  // ----- Ethereum: consecutive nonces

  /** The nonces of an account's first signatures, in the order of the run. */
  function FirstNonces(run: seq<Stamp>, account: Id): seq<nat> {
    if |run| == 0 then []
    else
      var last := run[|run| - 1];
      var before := FirstNonces(run[..|run| - 1], account);
      if IsEth(last) && last.event.pay.mode == First && last.event.pay.accountId == account
      then before + [last.event.pay.tx.nonce]
      else before
  }

  ghost predicate Consecutive(ns: seq<nat>) {
    forall i :: 0 <= i < |ns| ==> ns[i] == ns[0] + i
  }

  /** Only a first signature moves an account's nonce, and only by one. */
  lemma NonceMoves(cfg: Config, s: State, now: int, at: int, e: Event)
    requires Inv(s) && CoinInv(s) && Guard(cfg, s, now, e)
    ensures Apply(s, at, e).nonces ==
              if e.Signed? && e.pay.tx.EthTx? && e.pay.mode == First
              then s.nonces[e.pay.accountId := e.pay.tx.nonce] else s.nonces
    ensures e.Signed? && e.pay.tx.EthTx? && e.pay.mode == First && e.pay.accountId in s.nonces ==>
              e.pay.tx.nonce == s.nonces[e.pay.accountId] + 1
  {
    hide Guard, IntentsAfter, MandatesAfter, KeysAfter, MaySign, MaySpendBtc, OutbidsEth, MayReplace;
    if e.Signed? {
      GuardOnIntents(cfg, s, now, e);
      SpendChecked(s, now, e.intentId, e.pay);
      var r := s.intents[IndexOf(s.intents, e.intentId)];
      assert RecordOk(s.mandates.Keys, r);
      if e.pay.mode != First && e.pay.tx.EthTx? {
        assert MatchesIntent(r.intent, r.signatures[0].pay);
        assert NonceOf(r) == Some((e.pay.accountId, e.pay.tx.nonce));
      }
    }
  }

  lemma {:induction false} NonceRun(cfg: Config, run: seq<Stamp>, account: Id)
    requires ValidRun(cfg, run)
    ensures Consecutive(FirstNonces(run, account))
    ensures var ns := FirstNonces(run, account);
            var nonces := StateOf(run).nonces;
            (ns == [] <==> account !in nonces) && (ns != [] ==> nonces[account] == ns[|ns| - 1])
  {
    hide Guard, Apply, Inv, CoinInv;
    if |run| > 0 {
      var init, last := run[..|run| - 1], run[|run| - 1];
      RunInv(cfg, init);
      CoinRun(cfg, init);
      NonceRun(cfg, init, account);
      NonceMoves(cfg, StateOf(init), last.checked, last.at, last.event);
    }
  }

  /**
   Ethereum nonces: an account's first signatures use one gap-free interval, and two of
   its signed transactions share a nonce exactly when they belong to the same intent.
   */
  lemma EthereumNonces(cfg: Config, run: seq<Stamp>, j: nat, k: nat)
    requires ValidRun(cfg, run) && j < |run| && k < |run| && IsEth(run[j]) && IsEth(run[k])
    requires run[j].event.pay.accountId == run[k].event.pay.accountId
    ensures Consecutive(FirstNonces(run, run[j].event.pay.accountId))
    ensures run[j].event.pay.tx.nonce == run[k].event.pay.tx.nonce
            <==> run[j].event.intentId == run[k].event.intentId
  {
    hide ValidRun, StateOf, CoinsOf, NonceOf, Inv, Consecutive, FirstNonces;
    NonceRun(cfg, run, run[j].event.pay.accountId);
    var x := CoinsOfStamp(cfg, run, j);
    var y := CoinsOfStamp(cfg, run, k);
    CoinRun(cfg, run);
    RunUnique(cfg, run);
    assert x == y <==> run[j].event.intentId == run[k].event.intentId;
  }
}
