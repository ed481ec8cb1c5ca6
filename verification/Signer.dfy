/**
 The signer object and its commands (signer/service.ts). Every command checks in the
 order of the source, records at most one event, and is proved to do so exactly when
 `Permitted` holds. The ghost field `run` is the run the object has gone through, so
 that everything proved about runs holds of it.

 Arguments arrive typed; a verified WebAuthn assertion is an optional counter, random
 ids are parameters, and the clock readings `now` (checks) and `at` (stored) are too.
 */
module Signers {
  import opened Basics
  import opened Policies
  import opened SignerState
  import opened SignerRules
  import opened SignerRuns
  import opened SignerStores
  import opened Journals
  import opened Spending

  datatype Request =
    | WhitelistRequest(network: Network, destination: string, initiator: Id)
    | PayoutRequest(accountId: Id, asset: Asset, amount: nat, feeCap: nat, destination: string, initiator: Id,
                    mandateId: Option<Id>)

  /** The first record, in insertion order, that makes the destination usable; or -1. */
  function FirstActive(xs: seq<IntentRecord>, n: Network, destination: string, now: int): (i: int)
    ensures -1 <= i < |xs|
    ensures i >= 0 ==> IsActiveDestination(xs[i], n, destination, now)
    ensures forall j :: 0 <= j < (if i < 0 then |xs| else i) ==> !IsActiveDestination(xs[j], n, destination, now)
  {
    if |xs| == 0 then -1
    else
      var i := FirstActive(xs[..|xs| - 1], n, destination, now);
      if i >= 0 then i
      else if IsActiveDestination(xs[|xs| - 1], n, destination, now) then |xs| - 1
      else -1
  }

  /** The intent a request leads to, if its account and destination are known. */
  function IntentFor(s: State, q: Request, now: int): Option<Intent> {
    if s.orgId.None? then None
    else
      match q
      case WhitelistRequest(n, destination, initiator) =>
        Some(Intent(s.orgId.value, n, destination, initiator, now + WHITELIST_TTL, Whitelist))
      case PayoutRequest(accountId, asset, amount, feeCap, destination, initiator, _) =>
        if accountId !in s.accounts then None
        else
          var n := s.accounts[accountId].network;
          var i := FirstActive(s.intents, n, destination, now);
          if i < 0 then None
          else Some(Intent(s.orgId.value, n, destination, initiator, now + PAYOUT_TTL,
                           Payout(accountId, asset, amount, feeCap, s.intents[i].activeFrom.value)))
  }

  lemma IntentReflects(s: State, q: Request, now: int)
    ensures IntentFor(s, q, now).Some? ==> Reflects(q, IntentFor(s, q, now).value)
  {
  }

  function MandateOf(q: Request): Option<Id> {
    if q.PayoutRequest? then q.mandateId else None
  }

  /** The intent says what was asked for, field by field. */
  predicate Reflects(q: Request, i: Intent) {
    && i.destination == q.destination && i.initiator == q.initiator
    && match q
       case WhitelistRequest(n, _, _) => i.network == n && i.purpose == Whitelist
       case PayoutRequest(accountId, asset, amount, feeCap, _, _, _) =>
         && i.purpose.Payout? && i.purpose.accountId == accountId && i.purpose.asset == asset
         && i.purpose.amount == amount && i.purpose.feeCap == feeCap
  }

  /** What stands against using a network. */
  predicate NetworkRefusal(p: Policy, ring: map<Network, string>, n: Network, code: string) {
    || (code == "network_off" && n !in p.networks)
    || (code == "live_off" && Live(n))
    || (code == "network_unknown" && n !in ring)
  }

  /** What stands against a payout. */
  ghost predicate PayoutRefusal(s: State, ring: map<Network, string>, q: Request, now: int, code: string)
    requires q.PayoutRequest? && Ready(s)
  {
    var p := s.policy.value;
    || (code == "account_unknown" && q.accountId !in s.accounts)
    || (q.accountId in s.accounts
        && var n := s.accounts[q.accountId].network;
           || NetworkRefusal(p, ring, n, code)
           || (code == "bad_request" && (!AssetOn(n, q.asset) || q.amount == 0))
           || (code == "fee_cap" && q.feeCap > FeeCeiling(n, p))
           || (code == "limit" && (q.asset !in p.limits || q.amount > p.limits[q.asset].perPayout
                                   || q.amount > p.limits[q.asset].perDay))
           || (code == "destination_inactive" && !HasActiveDestination(s, n, q.destination, now)))
    || (q.mandateId.Some? && code in {"mandate_unknown", "mandate_not_approved", "mandate_use"})
  }

  /** What stands against a payout under a mandate. */
  ghost predicate MandateRefusal(s: State, id: Id, i: Intent, now: int, code: string)
    requires i.purpose.Payout?
  {
    if id !in s.mandates then code == "mandate_unknown"
    else if !MandateQuorum(s.policy, s.keys, s.mandates[id]) then code == "mandate_not_approved"
    else code == "mandate_use" && !MandateAllows(s, now, id, i)
  }

  /** What stands against a first signature. */
  ghost predicate FirstRefusal(s: State, ring: map<Network, string>, r: IntentRecord, now: int, code: string)
    requires Ready(s) && r.intent.purpose.Payout?
  {
    var p, q := s.policy.value, r.intent.purpose;
    || (code == "mandate_revoked" && r.mandateId.Some?
        && (r.mandateId.value !in s.mandates || s.mandates[r.mandateId.value].revoked))
    || (code == "mandate_expired" && r.mandateId.Some? && r.mandateId.value in s.mandates
        && now >= s.mandates[r.mandateId.value].mandate.validUntil)
    || (code == "window_closed" && (r.signUntil.None? || now > r.signUntil.value))
    || (code == "not_approved" && (r.signableAt.None? || !Quorum(s, r)))
    || (code == "too_early" && r.signableAt.Some? && now < r.signableAt.value)
    || (code == "destination_inactive" && !HasActiveDestination(s, r.intent.network, r.intent.destination, now))
    || NetworkRefusal(p, ring, r.intent.network, code)
    || (code == "limit"
        && (q.asset !in p.limits || q.amount > p.limits[q.asset].perPayout
            || Tally(s.intents, SignedSince(q.asset, now - 24 * 60 * 60)) + q.amount > p.limits[q.asset].perDay))
  }

  /** The payment a sign command asks for. */
  function PaymentFor(cfg: Config, s: State, id: Id, mode: SignMode, plan: Plan): Option<Payment> {
    var i := IndexOf(s.intents, id);
    if i < 0 || s.policy.None? || s.intents[i].intent.purpose.Whitelist? then None
    else
      var r := s.intents[i];
      var p := r.intent.purpose;
      var tx := TxFor(cfg, s, r, s.policy.value, mode, plan);
      Some(Payment(mode, p.accountId, r.intent.network, p.asset, p.amount, tx))
  }

  /** The intent is a live payout of a known account, and the signer is not frozen. */
  predicate Addressable(s: State, id: Id) {
    var i := IndexOf(s.intents, id);
    && Ready(s) && s.frozen.None?
    && i >= 0
    && s.intents[i].intent.purpose.Payout?
    && !s.intents[i].cancelled && !s.intents[i].vetoed
    && s.intents[i].intent.purpose.accountId in s.accounts
  }

  predicate AlreadySigned(s: State, id: Id) {
    Addressable(s, id) && |s.intents[IndexOf(s.intents, id)].signatures| > 0
  }

  /** What is checked before the plan is looked at. */
  predicate MayBuild(s: State, ring: map<Network, string>, now: int, r: IntentRecord, mode: SignMode)
    requires Ready(s) && r.intent.purpose.Payout?
  {
    if mode == First then MaySignFirst(s, now, r) && r.intent.network in ring else MayReplace(r, mode)
  }

  /** The sign command goes through: nothing stands in its way and its plan can be built. */
  predicate Signable(cfg: Config, s: State, ring: map<Network, string>, now: int, id: Id, mode: SignMode, plan: Plan) {
    && Addressable(s, id)
    && var r := s.intents[IndexOf(s.intents, id)];
       && MayBuild(s, ring, now, r, mode)
       && MaySpend(s, id, r, s.policy.value, mode, TxFor(cfg, s, r, s.policy.value, mode, plan))
       && Buildable(cfg, s, r, s.policy.value, mode, plan)
  }

  /** A signable command is exactly one whose payment the rules permit. */
  lemma SignableIsPermitted(cfg: Config, s: State, ring: map<Network, string>, now: int, id: Id, mode: SignMode,
                            plan: Plan)
    ensures Signable(cfg, s, ring, now, id, mode, plan) ==>
              var pay := PaymentFor(cfg, s, id, mode, plan);
              pay.Some? && Permitted(cfg, s, App, now, Signed(id, pay.value))
    ensures var pay := PaymentFor(cfg, s, id, mode, plan);
            pay.Some? && Permitted(cfg, s, App, now, Signed(id, pay.value))
            && (mode == First ==> pay.value.network in ring)
            && Buildable(cfg, s, s.intents[IndexOf(s.intents, id)], s.policy.value, mode, plan) ==>
              Signable(cfg, s, ring, now, id, mode, plan)
  {
    hide MaySignFirst, MayReplace, MaySpendBtc, MaySpendEth, TxFor, BuildFor, Balanced;
    if Signable(cfg, s, ring, now, id, mode, plan) {
      var r := s.intents[IndexOf(s.intents, id)];
      TxOfPlan(cfg, s, r, s.policy.value, mode, plan);
      if plan.BtcPlan? {
        BuiltIsBalanced(cfg, s, r, s.policy.value, mode, plan, PaymentFor(cfg, s, id, mode, plan).value);
      }
    }
  }

  /** Replays journal entries into an empty store, as `replay` reduces over `apply`. */
  method ReplayInto(store: SignerStore, entries: seq<Entry>)
    requires store.Value() == EmptyState()
    modifies store
    ensures store.Value() == Replay(entries)
  {
    hide Apply;
    var i := 0;
    while i < |entries|
      invariant 0 <= i <= |entries|
      invariant store.Value() == Replay(entries[..i])
    {
      assert entries[..i + 1][..i] == entries[..i];
      store.Apply(entries[i].at, entries[i].event);
      i := i + 1;
    }
    assert entries[..i] == entries;
  }

  class Signer {
    const cfg: Config
    const store: SignerStore
    const journal: Journal<Entry>
    /** The networks whose seed is loaded, with the fingerprint of the seed. */
    var ring: map<Network, string>
    ghost var run: seq<Stamp>

    ghost predicate Valid()
      reads this, store, journal
    {
      && journal.Valid()
      && ValidRun(cfg, run)
      && store.Value() == StateOf(run)
      && journal.events == EntriesOf(run)
    }

    /** The clock readings of a command continue those of the run. */
    ghost predicate Timely(now: int, at: int)
      reads this
    {
      NotAfter(run, now) && now <= at
    }

    /** The event is permitted now, and its line is not too long for the journal. */
    ghost predicate Accepts(who: Socket, now: int, at: int, e: Event)
      reads this, store, journal
    {
      && Permitted(cfg, store.Value(), who, now, e)
      && |BodyOf(journal.codec, |run| + 1, Entry(at, e))| <= MAX_LINE
    }

    /** On start the journal's events are replayed into an empty store. */
    constructor (cfg: Config, journal: Journal<Entry>, entries: seq<Entry>, ring: map<Network, string>,
                 ghost run: seq<Stamp>)
      requires journal.Valid() && entries == journal.events == EntriesOf(run) && ValidRun(cfg, run)
      ensures Valid() && this.journal == journal && this.run == run && this.cfg == cfg && this.ring == ring
      ensures fresh(store)
    {
      hide Replay, StateOf, ValidRun, EntriesOf, Render, HeadOf, Sound;
      this.cfg, this.journal, this.ring, this.run := cfg, journal, ring, run;
      var empty := new SignerStore();
      ReplayInto(empty, entries);
      this.store := empty;
      new;
      ReplayIsStateOf(run);
    }

    /** `record`: write the line, and only then change the state. */
    method Record(who: Socket, now: int, at: int, e: Event) returns (ok: bool)
      requires Valid() && Timely(now, at) && Permitted(cfg, store.Value(), who, now, e)
      modifies this`run, store, journal
      ensures Valid()
      ensures ok <==> old(Accepts(who, now, at, e))
      ensures run == old(run) + if ok then [Stamp(who, now, at, e)] else []
      ensures store.Value() == if ok then Apply(old(store.Value()), at, e) else old(store.Value())
    {
      hide Permitted, Apply, StateOf, ValidRun, EntriesOf, Render, HeadOf, Sound;
      EntriesLength(run);
      ok := journal.Append(Entry(at, e));
      if ok {
        ExtendRun(cfg, run, Stamp(who, now, at, e));
        store.Apply(at, e);
        run := run + [Stamp(who, now, at, e)];
      }
    }

    // ----- sums and searches over the records

    /** `mandateUsed` */
    method MandateUsed(id: Id, now: int) returns (sum: nat)
      ensures sum == Tally(store.intents, MandateUse(id, now))
    {
      sum := 0;
      var i := 0;
      while i < |store.intents|
        invariant 0 <= i <= |store.intents|
        invariant sum == Tally(store.intents[..i], MandateUse(id, now))
      {
        var r := store.intents[i];
        assert store.intents[..i + 1][..i] == store.intents[..i];
        if r.mandateId == Some(id) && !r.cancelled && !r.vetoed && (|r.signatures| > 0 || IsOpen(r, now)) {
          sum := sum + AmountOf(r);
        }
        i := i + 1;
      }
      assert store.intents[..i] == store.intents;
    }

    /** `signedLast24h` */
    method SignedLast24h(asset: Asset, now: int) returns (sum: nat)
      ensures sum == Tally(store.intents, SignedSince(asset, now - DAY))
    {
      sum := 0;
      var i := 0;
      while i < |store.intents|
        invariant 0 <= i <= |store.intents|
        invariant sum == Tally(store.intents[..i], SignedSince(asset, now - DAY))
      {
        assert store.intents[..i + 1][..i] == store.intents[..i];
        var first := FindFirst(store.intents[i].signatures);
        if first.Some? && first.value.pay.asset == asset && first.value.at > now - DAY {
          sum := sum + first.value.pay.amount;
        }
        i := i + 1;
      }
      assert store.intents[..i] == store.intents;
    }

    /** `activeDestination` */
    method ActiveDestination(n: Network, destination: string, now: int) returns (found: int)
      ensures found == FirstActive(store.intents, n, destination, now)
      ensures found >= 0 <==> HasActiveDestination(store.Value(), n, destination, now)
    {
      var i := 0;
      while i < |store.intents|
        invariant 0 <= i <= |store.intents|
        invariant forall j :: 0 <= j < i ==> !IsActiveDestination(store.intents[j], n, destination, now)
      {
        if IsActiveDestination(store.intents[i], n, destination, now) {
          return i;
        }
        i := i + 1;
      }
      found := -1;
    }

    // ----- intents

    /** `intentCreate` */
    method IntentCreate(q: Request, freshId: Id, now: int, at: int) returns (r: Result<Id, string>)
      requires Valid() && Timely(now, at) && IndexOf(store.intents, freshId) < 0
      modifies this`run, store, journal
      ensures Valid()
      ensures r.Ok? <==>
                var i := old(IntentFor(store.Value(), q, now));
                && i.Some? && i.value.network in ring
                && old(Accepts(App, now, at, IntentAdded(freshId, i.value, MandateOf(q))))
      ensures r.Ok? ==>
                && r.value == freshId
                && var i := old(IntentFor(store.Value(), q, now)).value;
                   run == old(run) + [Stamp(App, now, at, IntentAdded(freshId, i, MandateOf(q)))] && Reflects(q, i)
      ensures r.Err? ==> run == old(run)
    {
      hide Valid, MayAddIntent, IntentFor, Apply, Reflects;
      IntentReflects(store.Value(), q, now);
      var refused := CheckCreate(q, freshId, now);
      if refused != "" {
        return Err(refused);
      }
      var intent := IntentFor(store.Value(), q, now).value;
      var ok := Record(App, now, at, IntentAdded(freshId, intent, MandateOf(q)));
      r := if ok then Ok(freshId) else Err("internal");
    }

    /** The checks of `intentCreate`; "" when nothing speaks against the intent. */
    method CheckCreate(q: Request, freshId: Id, now: int) returns (refused: string)
      requires IndexOf(store.intents, freshId) < 0
      ensures refused == "" <==>
                var i := IntentFor(store.Value(), q, now);
                && i.Some? && i.value.network in ring
                && MayAddIntent(store.Value(), now, freshId, i.value, MandateOf(q))
                && cfg.address(i.value.network, i.value.destination)
    {
      if store.orgId.None? || store.policy.None? {
        return "not_initialized";
      }
      if store.frozen.Some? {
        return "frozen";
      }
      if Tally(store.intents, OpenAt(now)) >= MAX_OPEN {
        return "too_many_open";
      }
      if Tally(store.intents, CreatedSince(now - DAY)) >= MAX_PER_DAY {
        return "too_many_today";
      }
      hide Tally, MandateAllows, ActiveSince, IsActiveDestination, TakesDestination;
      if q.WhitelistRequest? {
        refused := CheckWhitelist(q, now);
      } else {
        refused := CheckPayout(q, now);
      }
      if refused == "" {
        var intent := IntentFor(store.Value(), q, now).value;
        refused := if cfg.address(intent.network, intent.destination) then "" else "bad_request";
      }
    }

    /** The whitelist branch of `intentCreate`; "" when nothing speaks against it. */
    method CheckWhitelist(q: Request, now: int) returns (refused: string)
      requires q.WhitelistRequest? && Ready(store.Value())
      ensures refused == "" <==>
                && UsableNetwork(q.network, store.policy.value) && q.network in ring
                && (forall k :: 0 <= k < |store.intents| ==>
                      !TakesDestination(store.intents[k], q.network, q.destination, now))
    {
      refused := CheckNetwork(q.network);
      if refused != "" {
        return;
      }
      if exists k :: 0 <= k < |store.intents| && TakesDestination(store.intents[k], q.network, q.destination, now) {
        refused := "destination_exists";
      }
    }

    /** The payout branch of `intentCreate`. */
    method CheckPayout(q: Request, now: int) returns (refused: string)
      requires q.PayoutRequest? && Ready(store.Value())
      ensures refused == "" <==>
                var s := store.Value();
                var i := IntentFor(s, q, now);
                && i.Some? && i.value.network in ring
                && UsableNetwork(i.value.network, s.policy.value)
                && AssetOn(i.value.network, q.asset) && q.amount > 0
                && q.feeCap <= FeeCeiling(i.value.network, s.policy.value)
                && SpendAllowed(s.policy.value, q.asset, q.amount, 0) == SpendOk
                && ActiveSince(s, i.value.network, q.destination, now, i.value.purpose.activeSince)
                && (q.mandateId.Some? ==> MandateAllows(s, now, q.mandateId.value, i.value))
      ensures refused != "" ==> PayoutRefusal(store.Value(), ring, q, now, refused)
    {
      if q.accountId !in store.accounts {
        return "account_unknown";
      }
      var n := store.accounts[q.accountId].network;
      refused := CheckNetwork(n);
      if refused != "" {
        return;
      }
      if !AssetOn(n, q.asset) || q.amount == 0 {
        return "bad_request";
      }
      if q.feeCap > FeeCeiling(n, store.policy.value) {
        return "fee_cap";
      }
      if SpendAllowed(store.policy.value, q.asset, q.amount, 0) != SpendOk {
        return "limit";
      }
      var active := ActiveDestination(n, q.destination, now);
      if active < 0 {
        return "destination_inactive";
      }
      assert ActiveSince(store.Value(), n, q.destination, now, store.intents[active].activeFrom.value);
      if q.mandateId.Some? {
        refused := CheckMandate(q.mandateId.value, IntentFor(store.Value(), q, now).value, now);
      }
    }

    /** The mandate part of `intentCreate`: no fall-back to an ordinary approval. */
    method CheckMandate(id: Id, i: Intent, now: int) returns (refused: string)
      requires i.purpose.Payout?
      ensures refused == "" <==> MandateAllows(store.Value(), now, id, i)
      ensures refused != "" ==> MandateRefusal(store.Value(), id, i, now, refused)
    {
      if id !in store.mandates {
        return "mandate_unknown";
      }
      var m := store.mandates[id];
      var approved := store.HasQuorum(m.approvals);
      if m.revoked || !approved {
        return "mandate_not_approved";
      }
      var used := MandateUsed(id, now);
      var covers := MandateCovers(m.mandate, i.initiator, i.network, i.purpose.asset, i.purpose.amount,
                                  i.destination, now, used);
      refused := if covers == Covered then "" else "mandate_use";
    }

    /** `checkNetwork` */
    method CheckNetwork(n: Network) returns (refused: string)
      requires store.policy.Some?
      ensures refused == "" <==> UsableNetwork(n, store.policy.value) && n in ring
      ensures refused != "" ==> NetworkRefusal(store.policy.value, ring, n, refused)
    {
      refused := if n !in store.policy.value.networks then "network_off"
                 else if Live(n) then "live_off"
                 else if n !in ring then "network_unknown"
                 else "";
    }

    /** `approve` */
    method Approve(id: Id, credId: Id, assertion: Option<nat>, now: int, at: int) returns (r: Result<(), string>)
      requires Valid() && Timely(now, at)
      modifies this`run, store, journal
      ensures Valid()
      ensures r.Ok? <==>
                && assertion.Some? && credId in old(store.keys)
                && old(Accepts(App, now, at, Approved(id, credId, store.keys[credId].person, assertion.value)))
      ensures r.Ok? ==>
                var e := Approved(id, credId, old(store.keys)[credId].person, assertion.value);
                run == old(run) + [Stamp(App, now, at, e)]
      ensures r.Err? ==> run == old(run)
    {
      hide Valid, MayApprove, Apply;
      var refused := CheckApprove(id, credId, now);
      if refused != "" {
        return Err(refused);
      }
      if assertion.None? {
        return Err("webauthn");
      }
      var ok := Record(App, now, at, Approved(id, credId, store.keys[credId].person, assertion.value));
      r := if ok then Ok(()) else Err("internal");
    }

    /** The checks of `approve` up to the assertion. */
    method CheckApprove(id: Id, credId: Id, now: int) returns (refused: string)
      ensures refused == "" <==>
                credId in store.keys && MayApprove(store.Value(), now, id, credId, store.keys[credId].person)
    {
      if store.orgId.None? || store.policy.None? {
        return "not_initialized";
      }
      if store.frozen.Some? {
        return "frozen";
      }
      var i := IndexOf(store.intents, id);
      if i < 0 {
        return "intent_unknown";
      }
      var rec := store.intents[i];
      if rec.cancelled || rec.vetoed {
        return "intent_closed";
      }
      if now > rec.intent.expiresAt {
        return "intent_expired";
      }
      if rec.mandateId.Some? {
        return "mandate_intent";
      }
      if credId !in store.keys || !store.keys[credId].active {
        return "key_unknown";
      }
      if exists a :: a in rec.approvals && a.credId == credId {
        return "already_approved";
      }
      refused := "";
    }

    /** `intentCancel`: never after a signature; a second time changes nothing. */
    method IntentCancel(id: Id, origin: Socket, now: int, at: int) returns (r: Result<(), string>)
      requires Valid() && Timely(now, at)
      modifies this`run, store, journal
      ensures Valid()
      ensures run == old(run) + if old(Accepts(origin, now, at, IntentCancelled(id, origin)))
                                then [Stamp(origin, now, at, IntentCancelled(id, origin))] else []
      ensures r.Ok? <==>
                var k := IndexOf(store.intents, id);
                k >= 0 && store.intents[k].cancelled && store.intents[k].signatures == []
    {
      hide Valid, Apply;
      var i := IndexOf(store.intents, id);
      if i < 0 {
        return Err("intent_unknown");
      }
      if |store.intents[i].signatures| > 0 {
        return Err("already_signed");
      }
      if store.intents[i].cancelled {
        return Ok(());
      }
      ghost var s := store.Value();
      var ok := Record(origin, now, at, IntentCancelled(id, origin));
      r := if ok then Ok(()) else Err("internal");
      if ok {
        AfterNaming(cfg, s, now, at, IntentCancelled(id, origin));
      }
    }

    /** `whitelistVeto` */
    method WhitelistVeto(id: Id, now: int, at: int) returns (r: Result<(), string>)
      requires Valid() && Timely(now, at)
      modifies this`run, store, journal
      ensures Valid()
      ensures run == old(run) + if old(Accepts(App, now, at, Vetoed(id))) then [Stamp(App, now, at, Vetoed(id))] else []
      ensures r.Ok? <==>
                var k := IndexOf(store.intents, id);
                k >= 0 && store.intents[k].vetoed && store.intents[k].intent.purpose.Whitelist?
    {
      hide Valid, Apply;
      var i := IndexOf(store.intents, id);
      if i < 0 {
        return Err("intent_unknown");
      }
      if store.intents[i].intent.purpose.Payout? {
        return Err("not_whitelist");
      }
      if store.intents[i].vetoed {
        return Ok(());
      }
      ghost var s := store.Value();
      var ok := Record(App, now, at, Vetoed(id));
      r := if ok then Ok(()) else Err("internal");
      if ok {
        AfterNaming(cfg, s, now, at, Vetoed(id));
      }
    }

    // ----- signing

    /** The checks before a first signature, what is final before what may still change. */
    method CheckFirst(r: IntentRecord, now: int) returns (refused: string)
      requires Ready(store.Value()) && r.intent.purpose.Payout? && |r.signatures| == 0
      ensures refused == "" <==> MaySignFirst(store.Value(), now, r) && r.intent.network in ring
      ensures refused != "" ==> FirstRefusal(store.Value(), ring, r, now, refused)
      ensures refused == "not_approved" ==> !Hopeless(store.Value(), r, now)
    {
      hide Tally, IsActiveDestination, MandateQuorum, ApprovalsQuorum;
      if r.mandateId.Some? {
        if r.mandateId.value !in store.mandates || store.mandates[r.mandateId.value].revoked {
          return "mandate_revoked";
        }
        if now >= store.mandates[r.mandateId.value].mandate.validUntil {
          return "mandate_expired";
        }
      }
      if r.signUntil.Some? && now > r.signUntil.value {
        return "window_closed";
      }
      var approved := store.IntentQuorum(r);
      if !approved || r.signableAt.None? {
        return "not_approved";
      }
      if now < r.signableAt.value {
        return "too_early";
      }
      if r.signUntil.None? || now > r.signUntil.value {
        return "window_closed";
      }
      var active := ActiveDestination(r.intent.network, r.intent.destination, now);
      if active < 0 {
        return "destination_inactive";
      }
      refused := CheckNetwork(r.intent.network);
      if refused != "" {
        return;
      }
      var used := SignedLast24h(r.intent.purpose.asset, now);
      if SpendAllowed(store.policy.value, r.intent.purpose.asset, r.intent.purpose.amount, used) != SpendOk {
        return "limit";
      }
    }

    /** The checks before a replacement. */
    method CheckReplace(r: IntentRecord, mode: SignMode) returns (refused: string)
      ensures refused == "" <==> MayReplace(r, mode)
      ensures refused != "not_approved"
    {
      if FindFirst(r.signatures).None? {
        return "not_signed";
      }
      if mode == Bump && r.signatures[|r.signatures| - 1].pay.mode == Recall {
        return "cancelled";
      }
      refused := "";
    }

    method CheckAddress(id: Id) returns (refused: string)
      ensures refused == "" <==> Addressable(store.Value(), id)
      ensures refused != "not_approved"
    {
      if store.orgId.None? || store.policy.None? {
        return "not_initialized";
      }
      if store.frozen.Some? {
        return "frozen";
      }
      var i := IndexOf(store.intents, id);
      if i < 0 {
        return "intent_unknown";
      }
      var rec := store.intents[i];
      if rec.intent.purpose.Whitelist? {
        return "not_payout";
      }
      if rec.cancelled || rec.vetoed {
        return "intent_closed";
      }
      refused := if rec.intent.purpose.accountId !in store.accounts then "account_unknown" else "";
    }

    /**
     `sign`: a repeated "first" returns the latest recorded signature and writes nothing;
     any other request is signed exactly when it is signable, and recorded before it is returned.
     */
    method Sign(id: Id, mode: SignMode, plan: Plan, now: int, at: int) returns (r: Result<Payment, string>)
      requires Valid() && Timely(now, at)
      modifies this`run, store, journal
      ensures Valid()
      ensures r.Err? ==> run == old(run)
      ensures mode == First && old(AlreadySigned(store.Value(), id)) ==>
                && run == old(run) && r.Ok?
                && var sigs := old(store.intents[IndexOf(store.intents, id)].signatures);
                   r.value == sigs[|sigs| - 1].pay
      ensures !(mode == First && old(AlreadySigned(store.Value(), id))) ==>
                var pay := old(PaymentFor(cfg, store.Value(), id, mode, plan));
                && (r.Ok? <==> pay.Some? && old(Signable(cfg, store.Value(), ring, now, id, mode, plan))
                               && old(Accepts(App, now, at, Signed(id, pay.value))))
                && (r.Ok? ==> r.value == pay.value && run == old(run) + [Stamp(App, now, at, Signed(id, pay.value))])
      ensures r == Err("not_approved") ==>
                0 <= IndexOf(store.intents, id)
                && !Hopeless(store.Value(), store.intents[IndexOf(store.intents, id)], now)
    {
      hide Valid, MaySignFirst, MayReplace, MaySpend, Buildable, TxFor, Permitted, Apply, Hopeless, SpendRefusal,
           FirstRefusal, Carries;
      var s := store.Value();
      var refused := CheckAddress(id);
      if refused != "" {
        return Err(refused);
      }
      var rec := store.intents[IndexOf(store.intents, id)];
      if mode == First {
        if |rec.signatures| > 0 {
          return Ok(rec.signatures[|rec.signatures| - 1].pay);
        }
        refused := CheckFirst(rec, now);
      } else {
        refused := CheckReplace(rec, mode);
      }
      if refused != "" {
        return Err(refused);
      }
      var tx := BuildTx(cfg, s, id, rec, s.policy.value, mode, plan);
      if tx.Err? {
        return Err(tx.error);
      }
      SignableIsPermitted(cfg, s, ring, now, id, mode, plan);
      var p := rec.intent.purpose;
      var pay := Payment(mode, p.accountId, rec.intent.network, p.asset, p.amount, tx.value);
      var ok := Record(App, now, at, Signed(id, pay));
      r := if ok then Ok(pay) else Err("internal");
    }

    // ----- mandates

    /** `mandateCreate`: the same id again answers without a second record. */
    method MandateCreate(m: Mandate, now: int, at: int) returns (r: Result<(), string>)
      requires Valid() && Timely(now, at)
      modifies this`run, store, journal
      ensures Valid()
      ensures run == old(run) + if old(m.network in ring && Accepts(App, now, at, MandateAdded(m.mandateId, m)))
                                then [Stamp(App, now, at, MandateAdded(m.mandateId, m))] else []
      ensures r.Ok? <==>
                && old(MandateReadable(store.Value(), m)) && Formed(cfg, MandateAdded(m.mandateId, m))
                && m.mandateId in store.mandates && store.mandates[m.mandateId].mandate == m
    {
      hide Valid, MayAddMandate, MandateQuorum, IntentsAfter;
      var refused := CheckMandateText(m);
      if refused != "" {
        NotCreatable(cfg, store.Value(), now, m);
        return Err(refused);
      }
      if m.mandateId in store.mandates {
        NotCreatable(cfg, store.Value(), now, m);
        return if store.mandates[m.mandateId].mandate == m then Ok(()) else Err("mandate_exists");
      }
      refused := CheckMandateCreate(m, now);
      if refused != "" {
        return Err(refused);
      }
      var ok := Record(App, now, at, MandateAdded(m.mandateId, m));
      r := if ok then Ok(()) else Err("internal");
    }

    method CheckMandateText(m: Mandate) returns (refused: string)
      ensures refused == "" <==> MandateReadable(store.Value(), m) && Formed(cfg, MandateAdded(m.mandateId, m))
    {
      refused := if store.orgId.None? || store.policy.None? then "not_initialized"
                 else if store.frozen.Some? then "frozen"
                 else if !WellFormedMandate(m) || !Formed(cfg, MandateAdded(m.mandateId, m)) then "bad_request"
                 else if m.orgId != store.orgId.value then "wrong_org"
                 else "";
    }

    method CheckMandateCreate(m: Mandate, now: int) returns (refused: string)
      requires m.mandateId !in store.mandates && MandateReadable(store.Value(), m)
      ensures refused == "" <==> m.network in ring && MayAddMandate(store.Value(), now, m.mandateId, m)
    {
      refused := CheckNetwork(m.network);
      if refused != "" {
        return;
      }
      if m.asset !in store.policy.value.limits {
        return "asset_not_allowed";
      }
      if now >= m.validUntil {
        return "mandate_expired";
      }
      var k := 0;
      while k < |m.destinations|
        invariant 0 <= k <= |m.destinations|
        invariant forall d :: d in m.destinations[..k] ==> HasActiveDestination(store.Value(), m.network, d, now)
      {
        var active := ActiveDestination(m.network, m.destinations[k], now);
        if active < 0 {
          return "destination_inactive";
        }
        assert m.destinations[..k + 1] == m.destinations[..k] + [m.destinations[k]];
        k := k + 1;
      }
      assert m.destinations[..k] == m.destinations;
      refused := if |PendingMandates(store.mandates, now)| >= MAX_OPEN then "too_many_open" else "";
    }

    /** `mandateApprove`: never by the person the mandate is for. */
    method MandateApprove(id: Id, credId: Id, assertion: Option<nat>, now: int, at: int) returns (r: Result<(), string>)
      requires Valid() && Timely(now, at)
      modifies this`run, store, journal
      ensures Valid()
      ensures r.Ok? <==>
                && assertion.Some? && credId in old(store.keys)
                && old(Accepts(App, now, at, MandateApproved(id, credId, store.keys[credId].person, assertion.value)))
      ensures r.Ok? ==>
                var e := MandateApproved(id, credId, old(store.keys)[credId].person, assertion.value);
                run == old(run) + [Stamp(App, now, at, e)]
      ensures r.Err? ==> run == old(run)
    {
      hide Valid, MayApproveMandate, Apply;
      var refused := CheckMandateApprove(id, credId, now);
      if refused != "" {
        return Err(refused);
      }
      if assertion.None? {
        return Err("webauthn");
      }
      var ok := Record(App, now, at, MandateApproved(id, credId, store.keys[credId].person, assertion.value));
      r := if ok then Ok(()) else Err("internal");
    }

    method CheckMandateApprove(id: Id, credId: Id, now: int) returns (refused: string)
      ensures refused == "" <==>
                credId in store.keys && MayApproveMandate(store.Value(), now, id, credId, store.keys[credId].person)
    {
      if store.orgId.None? || store.policy.None? {
        return "not_initialized";
      }
      if store.frozen.Some? {
        return "frozen";
      }
      if id !in store.mandates {
        return "mandate_unknown";
      }
      var m := store.mandates[id];
      if m.revoked {
        return "mandate_revoked";
      }
      if now >= m.mandate.validUntil || (m.approvedAt.None? && now > m.createdAt + MANDATE_TTL) {
        return "mandate_expired";
      }
      if credId !in store.keys || !store.keys[credId].active {
        return "key_unknown";
      }
      if store.keys[credId].person == m.mandate.grantee {
        return "mandate_self";
      }
      refused := if exists a :: a in m.approvals && a.credId == credId then "already_approved" else "";
    }

    /** `mandateRevoke` */
    method MandateRevoke(id: Id, origin: Socket, now: int, at: int) returns (r: Result<(), string>)
      requires Valid() && Timely(now, at)
      modifies this`run, store, journal
      ensures Valid()
      ensures run == old(run) + if old(Accepts(origin, now, at, MandateRevoked(id, origin)))
                                then [Stamp(origin, now, at, MandateRevoked(id, origin))] else []
      ensures r.Ok? <==> id in store.mandates && store.mandates[id].revoked
    {
      hide Valid, IntentsAfter;
      if id !in store.mandates {
        return Err("mandate_unknown");
      }
      if store.mandates[id].revoked {
        return Ok(());
      }
      var ok := Record(origin, now, at, MandateRevoked(id, origin));
      r := if ok then Ok(()) else Err("internal");
    }

    // ----- brakes, policy, keys and accounts

    /** `freeze` */
    method Freeze(reason: string, origin: Socket, now: int, at: int) returns (r: Result<(), string>)
      requires Valid() && Timely(now, at)
      modifies this`run, store, journal
      ensures Valid()
      ensures run == old(run) + if old(Accepts(origin, now, at, Frozen(reason, origin)))
                                then [Stamp(origin, now, at, Frozen(reason, origin))] else []
      ensures r.Ok? <==> store.frozen.Some? && Ready(store.Value()) && 1 <= |reason| <= 200
    {
      hide Valid, IntentsAfter, MandatesAfter;
      if reason == "" || |reason| > MAX_REASON {
        return Err("bad_request");
      }
      if store.orgId.None? || store.policy.None? {
        return Err("not_initialized");
      }
      if store.frozen.Some? {
        return Ok(());
      }
      var ok := Record(origin, now, at, Frozen(reason, origin));
      r := if ok then Ok(()) else Err("internal");
    }

    /** `unfreeze`, on the admin socket only */
    method Unfreeze(now: int, at: int) returns (r: Result<(), string>)
      requires Valid() && Timely(now, at)
      modifies this`run, store, journal
      ensures Valid()
      ensures run == old(run) + if old(Accepts(Admin, now, at, Unfrozen)) then [Stamp(Admin, now, at, Unfrozen)] else []
      ensures r.Ok? <==> store.frozen.None? && Ready(store.Value())
    {
      hide Valid, IntentsAfter, MandatesAfter;
      if store.orgId.None? || store.policy.None? {
        return Err("not_initialized");
      }
      if store.frozen.None? {
        return Ok(());
      }
      var ok := Record(Admin, now, at, Unfrozen);
      r := if ok then Ok(()) else Err("internal");
    }

    /** `policyTighten` for the app, `policySet` for the admin */
    method ChangePolicy(next: Policy, origin: Socket, now: int, at: int) returns (r: Result<(), string>)
      requires Valid() && Timely(now, at)
      modifies this`run, store, journal
      ensures Valid()
      ensures r.Ok? <==> old(Accepts(origin, now, at, PolicyChanged(next, origin)))
      ensures run == old(run) + if r.Ok? then [Stamp(origin, now, at, PolicyChanged(next, origin))] else []
    {
      hide Valid, Apply, Acceptable, IsTightening;
      if store.orgId.None? || store.policy.None? {
        return Err("not_initialized");
      }
      if next.version != store.policy.value.version + 1 {
        return Err("policy_version");
      }
      if next.prev != Some(cfg.policyHash(store.policy.value)) {
        return Err("policy_prev");
      }
      if !Acceptable(next, cfg.dev) {
        return Err("policy_invalid");
      }
      if origin == App && !IsTightening(store.policy.value, next) {
        return Err("not_tightening");
      }
      var ok := Record(origin, now, at, PolicyChanged(next, origin));
      r := if ok then Ok(()) else Err("internal");
    }

    /** `enrolFinish`: `enrolled` is the credential and counter the verified enrolment yields. */
    method EnrolFinish(enrolId: Id, enrolled: Option<(Id, nat)>, now: int, at: int) returns (r: Result<(), string>)
      requires Valid() && Timely(now, at)
      modifies this`run, store, journal
      ensures Valid()
      ensures r.Ok? <==>
                && enrolled.Some? && enrolId in old(store.enrolments)
                && var (credId, counter) := enrolled.value;
                   old(Accepts(App, now, at, KeyAdded(enrolId, store.enrolments[enrolId].person, credId, counter)))
      ensures r.Ok? ==>
                var (credId, counter) := enrolled.value;
                var e := KeyAdded(enrolId, old(store.enrolments)[enrolId].person, credId, counter);
                run == old(run) + [Stamp(App, now, at, e)]
      ensures r.Err? ==> run == old(run)
    {
      hide Valid, Apply;
      if store.orgId.None? || store.policy.None? {
        return Err("not_initialized");
      }
      if enrolId !in store.enrolments {
        return Err("enrol_unknown");
      }
      var en := store.enrolments[enrolId];
      if en.done {
        return Err("enrol_done");
      }
      if now > en.expiresAt {
        return Err("enrol_expired");
      }
      if enrolled.None? {
        return Err("webauthn");
      }
      if enrolled.value.0 in store.keys {
        return Err("key_exists");
      }
      var ok := Record(App, now, at, KeyAdded(enrolId, en.person, enrolled.value.0, enrolled.value.1));
      r := if ok then Ok(()) else Err("internal");
    }

    /** `keyRevoke`, on the admin socket only */
    method KeyRevoke(credId: Id, now: int, at: int) returns (r: Result<(), string>)
      requires Valid() && Timely(now, at)
      modifies this`run, store, journal
      ensures Valid()
      ensures run == old(run) + if old(Accepts(Admin, now, at, KeyRevoked(credId)))
                                then [Stamp(Admin, now, at, KeyRevoked(credId))] else []
      ensures r.Ok? <==> credId in store.keys && !store.keys[credId].active
    {
      hide Valid, IntentsAfter, MandatesAfter;
      if credId !in store.keys {
        return Err("key_unknown");
      }
      if !store.keys[credId].active {
        return Ok(());
      }
      var ok := Record(Admin, now, at, KeyRevoked(credId));
      r := if ok then Ok(()) else Err("internal");
    }

    /** `accountCreate`: the next index of the network, or the account that is already there. */
    method AccountCreate(orgId: Id, accountId: Id, n: Network, xpub: string, now: int, at: int)
      returns (r: Result<nat, string>)
      requires Valid() && Timely(now, at)
      modifies this`run, store, journal
      ensures Valid()
      ensures run == old(run) +
                var e := AccountAdded(accountId, n, old(Lookup(store.nextIndex, n, 0)), xpub);
                if n in ring && old(store.orgId) == Some(orgId) && old(Accepts(App, now, at, e))
                then [Stamp(App, now, at, e)] else []
      ensures r.Ok? <==>
                && Ready(store.Value()) && store.orgId == Some(orgId) && n in ring
                && accountId in store.accounts && store.accounts[accountId].network == n
      ensures r.Ok? ==> store.accounts[accountId].index == r.value
    {
      hide Valid, IntentsAfter, MandatesAfter;
      if store.orgId.None? || store.policy.None? {
        return Err("not_initialized");
      }
      if orgId != store.orgId.value {
        return Err("wrong_org");
      }
      if n !in ring {
        return Err("network_unknown");
      }
      if accountId in store.accounts {
        if store.accounts[accountId].network != n {
          return Err("account_network");
        }
        return Ok(store.accounts[accountId].index);
      }
      var index := Lookup(store.nextIndex, n, 0);
      var ok := Record(App, now, at, AccountAdded(accountId, n, index, xpub));
      r := if ok then Ok(index) else Err("internal");
    }
  }

  /** The loaded seeds are those the journal knows. */
  ghost predicate SeedsMatch(fingerprints: map<Network, string>, ring: map<Network, string>) {
    forall n :: n in fingerprints ==> n in ring && ring[n] == fingerprints[n]
  }

  /**
   `Signer.open`: a signer starts on a file that a run left behind, torn line or not, exactly
   when its journal reopens and the seeds match; then it is in the state of that run.
   */
  method OpenSigner(cfg: Config, codec: Codec<Entry>, text: string, ring: map<Network, string>,
                    ghost run: seq<Stamp>, ghost torn: string)
    returns (r: Result<Signer, string>)
    requires Sound(codec) && ValidRun(cfg, run)
    requires text == Render(codec, EntriesOf(run)) + torn && '\n' !in torn
    ensures r.Ok? <==> AllFit(codec, EntriesOf(run)) && SeedsMatch(StateOf(run).fingerprints, ring)
    ensures r.Ok? ==>
              && fresh(r.value) && fresh(r.value.store) && fresh(r.value.journal) && r.value.Valid()
              && r.value.run == run && r.value.cfg == cfg && r.value.ring == ring
              && r.value.journal.file == Render(codec, EntriesOf(run))
  {
    hide Replay, StateOf, ValidRun, EntriesOf, Render, HeadOf, Sound, Parse, Complete, AllFit;
    ReopenExactly(codec, EntriesOf(run), torn);
    CompleteRender(codec, EntriesOf(run), torn);
    var reopened, entries := Open(codec, text);
    if reopened.Err? {
      return Err("journal");
    }
    var signer := new Signer(cfg, reopened.value, entries, ring, run);
    var rest := signer.store.fingerprints.Keys;
    while rest != {}
      invariant rest <= signer.store.fingerprints.Keys
      invariant forall n :: n in signer.store.fingerprints && n !in rest ==>
                  n in ring && ring[n] == signer.store.fingerprints[n]
      decreases rest
    {
      var n :| n in rest;
      if n !in ring || ring[n] != signer.store.fingerprints[n] {
        return Err("seed_mismatch");
      }
      rest := rest - {n};
    }
    r := Ok(signer);
  }

  /** The first checks of `mandateCreate`, before the id is looked up. */
  predicate MandateReadable(s: State, m: Mandate) {
    Ready(s) && s.frozen.None? && WellFormedMandate(m) && m.orgId == s.orgId.value
  }

  lemma NotCreatable(cfg: Config, s: State, now: int, m: Mandate)
    requires m.mandateId in s.mandates || !MandateReadable(s, m) || !Formed(cfg, MandateAdded(m.mandateId, m))
    ensures !Permitted(cfg, s, App, now, MandateAdded(m.mandateId, m))
  {
    hide HasActiveDestination, PendingMandates;
  }

  lemma {:induction false} IndexKept(xs: seq<IntentRecord>, i: nat, r: IntentRecord, id: Id)
    requires i < |xs| && r.intentId == xs[i].intentId
    ensures IndexOf(xs[i := r], id) == IndexOf(xs, id)
  {
    var n := |xs| - 1;
    if i < n {
      IndexKept(xs[..n], i, r, id);
      assert xs[i := r][..n] == xs[..n][i := r];
    } else {
      assert xs[i := r][..n] == xs[..n];
    }
  }

  /** After an event that names it, the intent is in its place, changed as recorded. */
  lemma AfterNaming(cfg: Config, s: State, now: int, at: int, e: Event)
    requires Guard(cfg, s, now, e) && NamesIntent(e)
    ensures var i := IndexOf(s.intents, e.intentId);
            && 0 <= i < |Apply(s, at, e).intents|
            && IndexOf(Apply(s, at, e).intents, e.intentId) == i
            && Apply(s, at, e).intents[i] == RecordAfter(s, s.intents[i], at, e)
  {
    hide Guard, Apply, RecordAfter;
    IntentsChange(cfg, s, now, at, e);
    var i := IndexOf(s.intents, e.intentId);
    RecordKept(s, s.intents[i], at, e);
    IndexKept(s.intents, i, RecordAfter(s, s.intents[i], at, e), e.intentId);
  }
}
