/**
 Which derivation indices the signer hands out (signer/service.ts:304-306, 835-876 and
 signer/state.ts:161-172, 259-263): every account of a network has its own index, without
 gaps, and no change address of an account is used for two intents.
 */
module Addresses {
  import opened Basics
  import opened Policies
  import opened SignerState
  import opened SignerRules
  import opened SignerRuns
  import opened Payments

  // ----- accounts

  predicate Holds(accounts: map<Id, Account>, id: Id, n: Network, index: nat) {
    id in accounts && accounts[id].network == n && accounts[id].index == index
  }

  ghost predicate Given(accounts: map<Id, Account>, n: Network, index: nat) {
    exists id :: Holds(accounts, id, n, index)
  }

  /** The indices given out on a network are exactly those below the next one, each once. */
  ghost predicate AccountsNumbered(s: State) {
    && (forall id, n, m :: Holds(s.accounts, id, n, m) ==> m < Lookup(s.nextIndex, n, 0))
    && (forall n, m :: 0 <= m < Lookup(s.nextIndex, n, 0) ==> Given(s.accounts, n, m))
    && (forall a, b, n, m :: Holds(s.accounts, a, n, m) && Holds(s.accounts, b, n, m) ==> a == b)
  }

  lemma AccountAddedNumbered(s: State, s': State, id: Id, n: Network, index: nat, xpub: string)
    requires AccountsNumbered(s) && id !in s.accounts && index == Lookup(s.nextIndex, n, 0)
    requires s'.accounts == s.accounts[id := Account(n, index, xpub)]
    requires s'.nextIndex == s.nextIndex[n := index + 1]
    ensures AccountsNumbered(s')
  {
    assert Holds(s'.accounts, id, n, index);
    forall k, m | 0 <= m < Lookup(s'.nextIndex, k, 0)
      ensures Given(s'.accounts, k, m)
    {
      if k != n || m < index {
        assert Given(s.accounts, k, m);
        var a :| Holds(s.accounts, a, k, m);
        assert Holds(s'.accounts, a, k, m);
      }
    }
    forall a, b, k, m | Holds(s'.accounts, a, k, m) && Holds(s'.accounts, b, k, m)
      ensures a == b
    {
      assert a != id ==> Holds(s.accounts, a, k, m);
      assert b != id ==> Holds(s.accounts, b, k, m);
    }
    forall a, k, m | Holds(s'.accounts, a, k, m)
      ensures m < Lookup(s'.nextIndex, k, 0)
    {
      assert a != id ==> Holds(s.accounts, a, k, m);
    }
  }

  lemma GuardOnAccounts(cfg: Config, s: State, now: int, e: Event)
    requires Guard(cfg, s, now, e) && e.AccountAdded?
    ensures e.accountId !in s.accounts && e.index == Lookup(s.nextIndex, e.network, 0)
  {
  }

  lemma {:induction false} AccountRun(cfg: Config, run: seq<Stamp>)
    requires ValidRun(cfg, run)
    ensures AccountsNumbered(StateOf(run))
  {
    hide Guard, IntentsAfter, MandatesAfter, KeysAfter, AccountsNumbered;
    if |run| == 0 {
      NoAccounts();
    } else {
      var init, last := run[..|run| - 1], run[|run| - 1];
      var s, e := StateOf(init), last.event;
      AccountRun(cfg, init);
      if e.AccountAdded? {
        GuardOnAccounts(cfg, s, last.checked, e);
        AccountAddedNumbered(s, StateOf(run), e.accountId, e.network, e.index, e.xpub);
      } else {
        SameAccounts(s, StateOf(run));
      }
    }
  }

  lemma NoAccounts()
    ensures AccountsNumbered(EmptyState())
  {
  }

  lemma SameAccounts(s: State, s': State)
    requires AccountsNumbered(s) && s'.accounts == s.accounts && s'.nextIndex == s.nextIndex
    ensures AccountsNumbered(s')
  {
  }

  // ----- change addresses

  predicate UsesChange(sig: Signature, account: Id, index: nat) {
    sig.pay.tx.BtcTx? && sig.pay.accountId == account && sig.pay.tx.changeIndex == Some(index)
  }

  /** Some transaction of the intent pays back to this address. */
  ghost predicate Uses(r: IntentRecord, account: Id, index: nat) {
    exists k :: 0 <= k < |r.signatures| && UsesChange(r.signatures[k], account, index)
  }

  ghost predicate ChangeHeld(xs: seq<IntentRecord>, nextChange: map<Id, nat>) {
    && (forall i, a, c :: 0 <= i < |xs| && Uses(xs[i], a, c) ==> c < Lookup(nextChange, a, 0))
    && (forall i, j, a, c :: 0 <= i < |xs| && 0 <= j < |xs| && Uses(xs[i], a, c) && Uses(xs[j], a, c) ==> i == j)
  }

  /** A change index is one the intent already uses, or one nobody has used. */
  lemma ChangeChosen(s: State, now: int, id: Id, pay: Payment)
    requires Inv(s) && MaySign(s, now, id, pay) && pay.tx.BtcTx? && pay.tx.changeIndex.Some?
    ensures IndexOf(s.intents, id) >= 0
    ensures var c := pay.tx.changeIndex.value;
            c == Lookup(s.nextChange, pay.accountId, 0) || Uses(s.intents[IndexOf(s.intents, id)], pay.accountId, c)
  {
    hide MaySign, MaySpendEth, MayReplace, SameInputs, HistoryShape;
    SpendChecked(s, now, id, pay);
    var r := s.intents[IndexOf(s.intents, id)];
    assert RecordOk(s.mandates.Keys, r);
    FindFirstIsHead(r.signatures);
    if pay.mode != First && r.signatures != [] {
      assert MatchesIntent(r.intent, r.signatures[0].pay);
      assert pay.tx.changeIndex == r.signatures[0].pay.tx.changeIndex ==>
        UsesChange(r.signatures[0], pay.accountId, pay.tx.changeIndex.value);
    }
  }

  lemma ChangeTaken(xs: seq<IntentRecord>, i: nat, sig: Signature, nextChange: map<Id, nat>, r: IntentRecord)
    requires ChangeHeld(xs, nextChange) && i < |xs| && r == xs[i].(signatures := xs[i].signatures + [sig])
    requires sig.pay.tx.BtcTx? && sig.pay.tx.changeIndex.Some?
    requires var a, c := sig.pay.accountId, sig.pay.tx.changeIndex.value;
             c == Lookup(nextChange, a, 0) || Uses(xs[i], a, c)
    ensures var a, c := sig.pay.accountId, sig.pay.tx.changeIndex.value;
            ChangeHeld(xs[i := r], nextChange[a := Max(Lookup(nextChange, a, 0), c + 1)])
  {
    var a, c := sig.pay.accountId, sig.pay.tx.changeIndex.value;
    forall b, d
      ensures Uses(r, b, d) <==> Uses(xs[i], b, d) || (b == a && d == c)
    {
      UsesMore(xs[i], r, sig, b, d);
    }
    hide Uses;
  }

  lemma UsesMore(r: IntentRecord, r': IntentRecord, sig: Signature, a: Id, c: nat)
    requires r' == r.(signatures := r.signatures + [sig])
    ensures Uses(r', a, c) <==> Uses(r, a, c) || UsesChange(sig, a, c)
  {
    hide UsesChange;
    assert r'.signatures[|r.signatures|] == sig;
    forall k | 0 <= k < |r.signatures|
      ensures r'.signatures[k] == r.signatures[k]
    {
    }
  }

  /** Same signatures, same addresses in use. */
  lemma ChangeBySignatures(xs: seq<IntentRecord>, ys: seq<IntentRecord>, nextChange: map<Id, nat>)
    requires ChangeHeld(xs, nextChange) && |xs| <= |ys|
    requires forall i :: 0 <= i < |xs| ==> ys[i].signatures == xs[i].signatures
    requires forall i :: |xs| <= i < |ys| ==> ys[i].signatures == []
    ensures ChangeHeld(ys, nextChange)
  {
    forall i, a, c | 0 <= i < |ys|
      ensures Uses(ys[i], a, c) <==> i < |xs| && Uses(xs[i], a, c)
    {
    }
    hide Uses;
  }

  lemma NoChangeTaken(xs: seq<IntentRecord>, i: nat, sig: Signature, nextChange: map<Id, nat>, r: IntentRecord)
    requires ChangeHeld(xs, nextChange) && i < |xs| && r == xs[i].(signatures := xs[i].signatures + [sig])
    requires !sig.pay.tx.BtcTx? || sig.pay.tx.changeIndex.None?
    ensures ChangeHeld(xs[i := r], nextChange)
  {
    forall b, d
      ensures Uses(r, b, d) <==> Uses(xs[i], b, d)
    {
      UsesMore(xs[i], r, sig, b, d);
    }
    hide Uses;
  }

  lemma ChangeStep(cfg: Config, s: State, now: int, at: int, e: Event)
    requires Inv(s) && Guard(cfg, s, now, e) && ChangeHeld(s.intents, s.nextChange)
    ensures ChangeHeld(Apply(s, at, e).intents, Apply(s, at, e).nextChange)
  {
    hide Guard, Inv, ChangeHeld, RecordAfter, AddedRecord, IntentsAfter, MandatesAfter, KeysAfter, MaySign;
    IntentsChange(cfg, s, now, at, e);
    if e.Signed? {
      GuardOnIntents(cfg, s, now, e);
      SignedAppends(cfg, s, now, at, e);
      var i := IndexOf(s.intents, e.intentId);
      var sig := Signature(at, e.pay);
      var r := s.intents[i].(signatures := s.intents[i].signatures + [sig]);
      assert Apply(s, at, e).intents == s.intents[i := r];
      if e.pay.tx.BtcTx? && e.pay.tx.changeIndex.Some? {
        ChangeChosen(s, now, e.intentId, e.pay);
        ChangeTaken(s.intents, i, sig, s.nextChange, r);
      } else {
        NoChangeTaken(s.intents, i, sig, s.nextChange, r);
      }
    } else {
      if NamesIntent(e) {
        SignaturesKept(s, s.intents[IndexOf(s.intents, e.intentId)], at, e);
      } else if e.IntentAdded? {
        AddedUnsigned(s, at, e);
      }
      ChangeBySignatures(s.intents, Apply(s, at, e).intents, s.nextChange);
    }
  }

  lemma {:induction false} ChangeRun(cfg: Config, run: seq<Stamp>)
    requires ValidRun(cfg, run)
    ensures ChangeHeld(StateOf(run).intents, StateOf(run).nextChange)
  {
    hide Guard, Apply, Inv;
    if |run| > 0 {
      var init, last := run[..|run| - 1], run[|run| - 1];
      RunInv(cfg, init);
      ChangeRun(cfg, init);
      ChangeStep(cfg, StateOf(init), last.checked, last.at, last.event);
    }
  }

  /** The transaction of this step pays back to this address. */
  predicate PaysBack(st: Stamp, account: Id, index: nat) {
    IsBtc(st) && st.event.pay.accountId == account && st.event.pay.tx.changeIndex == Some(index)
  }

  lemma ChangeNumberedStep(cfg: Config, init: seq<Stamp>, st: Stamp, a: Id, c: nat)
    requires ValidRun(cfg, init) && Guard(cfg, StateOf(init), st.checked, st.event)
    ensures var next, next' := StateOf(init).nextChange, Apply(StateOf(init), st.at, st.event).nextChange;
            c < Lookup(next', a, 0) <==> c < Lookup(next, a, 0) || PaysBack(st, a, c)
  {
    hide StateOf, ValidRun, Guard, Inv, MaySign, IntentsAfter, MandatesAfter, KeysAfter;
    var s, e := StateOf(init), st.event;
    if e.Signed? && e.pay.tx.BtcTx? && e.pay.tx.changeIndex.Some? {
      RunInv(cfg, init);
      ChangeRun(cfg, init);
      GuardOnIntents(cfg, s, st.checked, e);
      ChangeChosen(s, st.checked, e.intentId, e.pay);
    }
  }

  /** The change addresses used so far are exactly those below the next index: none is left out. */
  lemma {:induction false} ChangeNumbered(cfg: Config, run: seq<Stamp>, a: Id, c: nat)
    requires ValidRun(cfg, run)
    ensures c < Lookup(StateOf(run).nextChange, a, 0) <==> exists j :: 0 <= j < |run| && PaysBack(run[j], a, c)
  {
    hide Guard, Apply, PaysBack;
    if |run| > 0 {
      var init, last := run[..|run| - 1], run[|run| - 1];
      ChangeNumbered(cfg, init, a, c);
      ChangeNumberedStep(cfg, init, last, a, c);
      assert run == init + [last];
      if j :| 0 <= j < |init| && PaysBack(init[j], a, c) {
        assert run[j] == init[j];
      }
    }
  }

  /** Two signed transactions of an account that pay back to one address belong to one intent. */
  lemma ChangeExclusive(cfg: Config, run: seq<Stamp>, j: nat, k: nat)
    requires ValidRun(cfg, run) && j < |run| && k < |run| && IsBtc(run[j]) && IsBtc(run[k])
    requires run[j].event.pay.accountId == run[k].event.pay.accountId
    requires run[j].event.pay.tx.changeIndex.Some?
    requires run[j].event.pay.tx.changeIndex == run[k].event.pay.tx.changeIndex
    ensures run[j].event.intentId == run[k].event.intentId
  {
    hide ValidRun, StateOf;
    var a, c := run[j].event.pay.accountId, run[j].event.pay.tx.changeIndex.value;
    var x, m := SignedIsRecorded(cfg, run, j);
    var y, n := SignedIsRecorded(cfg, run, k);
    ChangeRun(cfg, run);
    assert UsesChange(StateOf(run).intents[x].signatures[m], a, c);
    assert UsesChange(StateOf(run).intents[y].signatures[n], a, c);
    assert Uses(StateOf(run).intents[x], a, c) && Uses(StateOf(run).intents[y], a, c);
  }
}
