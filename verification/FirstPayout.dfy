/**
 One run in full, from the first set-up to a signed Bitcoin payout: the rules let something
 happen, so what is proved about all runs is not about none.
 */
module FirstPayout {
  import opened Basics
  import opened Policies
  import opened SignerState
  import opened SignerRules
  import opened SignerRuns

  const NOW := 100
  const NET := BitcoinSignet

  function Rules(): Policy {
    DefaultPolicy({NET}, true)
  }

  function OneKey(counter: nat): map<Id, Key> {
    map["key" := Key("person", counter, true, NOW)]
  }

  // ----- the events and the states between them

  function Initial(): Event { Initialised("org", map[NET := "print"], Rules()) }
  function Opened(): Event { AccountAdded("account", NET, 0, "xpub") }
  function Invited(): Event { EnrolStarted("enrol", "person", "secret", NOW + 3600) }
  function Enrolled(): Event { KeyAdded("enrol", "person", "key", 0) }

  function Target(): Intent {
    Intent("org", NET, "address", "person", NOW + WHITELIST_TTL, Whitelist)
  }

  function Order(): Intent {
    Intent("org", NET, "address", "person", NOW + PAYOUT_TTL, Payout("account", BTC, 1000, 500, NOW))
  }

  function Pay(): Payment {
    Payment(First, "account", NET, BTC, 1000, BtcTx("txid", "raw", 200, ["coin"], None))
  }

  function Given(): Approval { Approval("key", "person", NOW) }

  function Listed(): IntentRecord {
    NewRecord("target", Target(), NOW, None).(approvals := [Given()], approvedAt := Some(NOW), activeFrom := Some(NOW))
  }

  function Ordered(): IntentRecord {
    NewRecord("order", Order(), NOW, None).(
      approvals := [Given()], approvedAt := Some(NOW), signableAt := Some(NOW), signUntil := Some(NOW + 3600))
  }

  function WithPolicy(): State {
    EmptyState().(orgId := Some("org"), fingerprints := map[NET := "print"], policy := Some(Rules()))
  }

  function WithAccount(): State {
    WithPolicy().(accounts := map["account" := Account(NET, 0, "xpub")], nextIndex := map[NET := 1])
  }

  function WithInvitation(): State {
    WithAccount().(enrolments := map["enrol" := Enrolment("person", "secret", NOW + 3600, false)])
  }

  function WithKey(): State {
    WithAccount().(enrolments := map["enrol" := Enrolment("person", "secret", NOW + 3600, true)], keys := OneKey(0))
  }

  function WithIntents(xs: seq<IntentRecord>, counter: nat): State {
    WithKey().(intents := xs, keys := OneKey(counter))
  }

  // ----- the steps

  lemma SetUpStep(cfg: Config)
    requires cfg.dev
    ensures Permitted(cfg, EmptyState(), Admin, NOW, Initial()) && Apply(EmptyState(), NOW, Initial()) == WithPolicy()
  {
    assert Initial().fingerprints.Keys == {NET};
  }

  lemma AccountStep(cfg: Config)
    ensures Permitted(cfg, WithPolicy(), App, NOW, Opened()) && Apply(WithPolicy(), NOW, Opened()) == WithAccount()
  {
  }

  lemma InviteStep(cfg: Config)
    ensures Permitted(cfg, WithAccount(), Admin, NOW, Invited())
    ensures Apply(WithAccount(), NOW, Invited()) == WithInvitation()
  {
  }

  lemma KeyStep(cfg: Config)
    ensures Permitted(cfg, WithInvitation(), App, NOW, Enrolled())
    ensures Apply(WithInvitation(), NOW, Enrolled()) == WithKey()
  {
  }

  lemma OneIsEnough(counter: nat)
    ensures ApprovalsQuorum(Some(Rules()), OneKey(counter), [Given()])
  {
    var keys := OneKey(counter);
    assert "key" in ActiveKeySet(keys, "person");
    assert ActiveKeySet(keys, "person") == {"key"};
    assert Given() in [Given()];
    assert "person" in ValidPersons(keys, [Given()]);
    assert keys["key"].active;
    assert Lookup(ActiveKeysByPerson(keys), "person", 0) == 1;
  }

  lemma TargetStep(cfg: Config)
    requires cfg.address(NET, "address")
    ensures Permitted(cfg, WithKey(), App, NOW, IntentAdded("target", Target(), None))
    ensures Apply(WithKey(), NOW, IntentAdded("target", Target(), None))
         == WithIntents([NewRecord("target", Target(), NOW, None)], 0)
  {
  }

  lemma TargetApproved(cfg: Config)
    ensures var s := WithIntents([NewRecord("target", Target(), NOW, None)], 0);
            && Permitted(cfg, s, App, NOW, Approved("target", "key", "person", 1))
            && Apply(s, NOW, Approved("target", "key", "person", 1)) == WithIntents([Listed()], 1)
  {
    hide ApprovalsQuorum;
    OneIsEnough(0);
    var s := WithIntents([NewRecord("target", Target(), NOW, None)], 0);
    assert IndexOf(s.intents, "target") == 0;
    assert [] + [Given()] == [Given()];
  }

  lemma OrderStep(cfg: Config)
    requires cfg.address(NET, "address")
    ensures Permitted(cfg, WithIntents([Listed()], 1), App, NOW, IntentAdded("order", Order(), None))
    ensures Apply(WithIntents([Listed()], 1), NOW, IntentAdded("order", Order(), None))
         == WithIntents([Listed(), NewRecord("order", Order(), NOW, None)], 1)
  {
    var s := WithIntents([Listed()], 1);
    assert IsActiveDestination(s.intents[0], NET, "address", NOW);
    assert s.intents[..0] == [];
    assert IndexOf(s.intents, "order") < 0;
  }

  lemma OrderApproved(cfg: Config)
    ensures var s := WithIntents([Listed(), NewRecord("order", Order(), NOW, None)], 1);
            && Permitted(cfg, s, App, NOW, Approved("order", "key", "person", 2))
            && Apply(s, NOW, Approved("order", "key", "person", 2)) == WithIntents([Listed(), Ordered()], 2)
  {
    hide ApprovalsQuorum;
    OneIsEnough(1);
    var s := WithIntents([Listed(), NewRecord("order", Order(), NOW, None)], 1);
    assert IndexOf(s.intents, "order") == 1;
    assert [] + [Given()] == [Given()];
  }

  lemma NothingPaid()
    ensures Tally([Listed(), Ordered()], SignedSince(BTC, NOW - DAY)) == 0
  {
    var xs, q := [Listed(), Ordered()], SignedSince(BTC, NOW - DAY);
    assert xs[..1] == [Listed()] && [Listed()][..0] == [];
    assert Weigh(q, Listed()) == 0 && Weigh(q, Ordered()) == 0;
    assert Tally([], q) == 0;
    assert Tally([Listed()], q) == 0;
  }

  lemma PayStep(cfg: Config)
    requires cfg.coinValue("coin") == 1200
    ensures Permitted(cfg, WithIntents([Listed(), Ordered()], 2), App, NOW, Signed("order", Pay()))
  {
    hide ApprovalsQuorum, Tally;
    OneIsEnough(2);
    var s := WithIntents([Listed(), Ordered()], 2);
    assert IndexOf(s.intents, "order") == 1;
    assert IsActiveDestination(s.intents[0], NET, "address", NOW);
    NothingPaid();
    assert ValueOf(cfg, ["coin"][..0]) == 0;
  }

  // ----- the run

  lemma OneStep(cfg: Config, run: seq<Stamp>, who: Socket, e: Event) returns (next: seq<Stamp>)
    requires ValidRun(cfg, run) && NotAfter(run, NOW) && Permitted(cfg, StateOf(run), who, NOW, e)
    ensures ValidRun(cfg, next) && NotAfter(next, NOW) && StateOf(next) == Apply(StateOf(run), NOW, e)
    ensures |next| == |run| + 1 && next[|run|] == Stamp(who, NOW, NOW, e)
  {
    hide Permitted, Apply;
    next := run + [Stamp(who, NOW, NOW, e)];
    ExtendRun(cfg, run, Stamp(who, NOW, NOW, e));
  }

  /**
   There is a valid run of a development signer that ends with the first signature of a payout,
   wherever the address is one and the coin is worth payment and fee.
   */
  lemma PayoutHappens(cfg: Config) returns (run: seq<Stamp>)
    requires cfg.dev && cfg.address(NET, "address") && cfg.coinValue("coin") == 1200
    ensures ValidRun(cfg, run) && |run| == 9 && run[8] == Stamp(App, NOW, NOW, Signed("order", Pay()))
  {
    hide *;
    run := [];
    Begin(cfg);
    SetUpStep(cfg);
    run := OneStep(cfg, run, Admin, Initial());
    AccountStep(cfg);
    run := OneStep(cfg, run, App, Opened());
    InviteStep(cfg);
    run := OneStep(cfg, run, Admin, Invited());
    KeyStep(cfg);
    run := OneStep(cfg, run, App, Enrolled());
    TargetStep(cfg);
    run := OneStep(cfg, run, App, IntentAdded("target", Target(), None));
    TargetApproved(cfg);
    run := OneStep(cfg, run, App, Approved("target", "key", "person", 1));
    OrderStep(cfg);
    run := OneStep(cfg, run, App, IntentAdded("order", Order(), None));
    OrderApproved(cfg);
    run := OneStep(cfg, run, App, Approved("order", "key", "person", 2));
    PayStep(cfg);
    run := OneStep(cfg, run, App, Signed("order", Pay()));
  }

  lemma Begin(cfg: Config)
    ensures ValidRun(cfg, []) && NotAfter([], NOW) && StateOf([]) == EmptyState()
  {
  }
}
