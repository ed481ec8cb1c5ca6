/**
 Before it says "not approved", the signer looks for what is final: a revoked or expired
 mandate, a window that has closed (signer/service.ts:741-752). Here: those conditions do
 last, so a payout that met one of them unsigned is never signed.
 */
module Finality {
  import opened Policies
  import opened SignerState
  import opened SignerRules
  import opened SignerRuns
  import opened Authorisation

  /** An unsigned payout that meets one of the final conditions. */
  ghost predicate Over(s: State, i: nat, t: int) {
    && i < |s.intents|
    && s.intents[i].intent.purpose.Payout?
    && s.intents[i].signatures == []
    && Hopeless(s, s.intents[i], t)
  }

  lemma OverLater(s: State, i: nat, t: int, t': int)
    requires Over(s, i, t) && t <= t'
    ensures Over(s, i, t')
  {
  }

  /** A first signature is never given to a hopeless payout. */
  lemma SignedHasHope(s: State, now: int, id: Id, pay: Payment)
    requires Inv(s) && MaySign(s, now, id, pay)
    ensures IndexOf(s.intents, id) >= 0
    ensures !Over(s, IndexOf(s.intents, id), now)
  {
    hide Tally, Quorum, HasActiveDestination, SpendAllowed, MaySign, Inv;
    SignedExtends(s, now, id, pay);
    SignedNames(s, now, id, pay);
    if pay.mode == First {
      FirstChecked(s, now, id, pay);
    }
  }

  /** Mandates keep their terms, and a revoked one stays revoked. */
  lemma MandateStaysOver(s: State, at: int, e: Event, m: Id)
    requires m in s.mandates && (e.MandateAdded? ==> e.mandateId !in s.mandates)
    ensures m in MandatesAfter(s, at, e)
    ensures MandatesAfter(s, at, e)[m].mandate == s.mandates[m].mandate
    ensures s.mandates[m].revoked ==> MandatesAfter(s, at, e)[m].revoked
  {
    hide MandateQuorum;
  }

  /** A record keeps its mandate, and its window once it has one. */
  lemma WindowKept(s: State, r: IntentRecord, at: int, e: Event)
    requires r.signUntil.Some? ==> r.approvedAt.Some?
    ensures var r' := RecordAfter(s, r, at, e);
            && r'.mandateId == r.mandateId && r'.intent == r.intent
            && (r.signUntil.Some? ==> r'.signUntil == r.signUntil)
            && (!e.Signed? ==> r'.signatures == r.signatures)
  {
    hide Quorum;
  }

  lemma RecordStaysOver(cfg: Config, s: State, now: int, at: int, e: Event, i: nat)
    requires Inv(s) && Guard(cfg, s, now, e) && Over(s, i, now)
    ensures var xs := Apply(s, at, e).intents;
            && i < |xs| && xs[i].intent == s.intents[i].intent && xs[i].signatures == []
            && xs[i].mandateId == s.intents[i].mandateId
            && (s.intents[i].signUntil.Some? ==> xs[i].signUntil == s.intents[i].signUntil)
  {
    hide Guard, Apply, RecordAfter, Hopeless, AddedRecord, MaySign, MayApprove, MayAddIntent;
    IntentsChange(cfg, s, now, at, e);
    GuardOnIntents(cfg, s, now, e);
    assert RecordOk(s.mandates.Keys, s.intents[i]);
    if NamesIntent(e) && IndexOf(s.intents, e.intentId) == i {
      WindowKept(s, s.intents[i], at, e);
      if e.Signed? {
        SignedHasHope(s, now, e.intentId, e.pay);
      }
    }
  }

  lemma OverStep(cfg: Config, s: State, now: int, at: int, e: Event, i: nat)
    requires Inv(s) && Guard(cfg, s, now, e) && Over(s, i, now) && now <= at
    ensures Over(Apply(s, at, e), i, at)
  {
    hide Guard, IntentsAfter, MandatesAfter, KeysAfter, HistoryShape, MatchesIntent, SameCoins;
    RecordStaysOver(cfg, s, now, at, e, i);
    GuardOnKeys(cfg, s, now, e);
    assert RecordOk(s.mandates.Keys, s.intents[i]);
    if s.intents[i].mandateId.Some? {
      MandateStaysOver(s, at, e, s.intents[i].mandateId.value);
    }
  }

  /** What is final stays final: in the rest of the run the payout is never signed. */
  lemma {:induction false} OverNeverSigned(cfg: Config, run: seq<Stamp>, k: nat, i: nat, t: int)
    requires ValidRun(cfg, run) && k <= |run| && (k < |run| ==> t <= run[k].checked)
    requires Over(StateOf(run[..k]), i, t)
    ensures Over(StateOf(run), i, if k < |run| then run[|run| - 1].at else t)
  {
    hide Guard, Apply, Inv, Over;
    if k == |run| {
      assert run[..k] == run;
    } else {
      var init, last := run[..|run| - 1], run[|run| - 1];
      assert init[..k] == run[..k];
      assert k < |init| ==> init[k] == run[k];
      OverNeverSigned(cfg, init, k, i, t);
      RunInv(cfg, init);
      OverLater(StateOf(init), i, if k < |init| then init[|init| - 1].at else t, last.checked);
      OverStep(cfg, StateOf(init), last.checked, last.at, last.event, i);
    }
  }
}
