/**
 Which event the signer may record in which state (signer/service.ts,
 signer/protocol.ts, lib/wallet/core/mandate.ts, btc-spend.ts, eth-spend.ts).

 `Permitted` is a plain conjunction per event, without the order of the checks;
 the command methods of Signer.dfy follow the code and are proved to record an
 event exactly when it is permitted.
 */
module SignerRules {
  import opened Basics
  import opened Policies
  import opened SignerState

  const PAYOUT_TTL := 4 * 3600
  const WHITELIST_TTL := 24 * 3600
  const MANDATE_TTL := 24 * 3600
  const DAY := 86400
  const MAX_OPEN := 50
  const MAX_PER_DAY := 200
  const MAX_BTC_INPUTS := 50
  const MAX_ETH_GAS := 100000
  const GWEI := 1000000000

  const DUST := 294
  const MAX_REASON := 200

  /**
   What the signer is started with and the world around it: the hash of a policy, the
   addresses of a network in their normal form, and the value of the output an outpoint
   names. The value is a function, since an outpoint names its transaction by hash.
   */
  datatype Config = Config(
    dev: bool,
    policyHash: Policy -> string,
    address: (Network, string) -> bool,
    coinValue: string -> nat)

  // ----- sums over the intents, in insertion order

  datatype Measure =
    | MandateUse(mandateId: Id, now: int)
    | SignedSince(asset: Asset, after: int)
    | OpenAt(now: int)
    | CreatedSince(after: int)
    | PaidUnder(mandateId: Id)
    | OpenUnder(mandateId: Id, now: int)

  predicate IsOpen(r: IntentRecord, now: int) {
    if r.cancelled || r.vetoed then false
    else if r.intent.purpose.Whitelist? then r.approvedAt.None? && now <= r.intent.expiresAt
    else if |r.signatures| > 0 then false
    else if r.approvedAt.None? then now <= r.intent.expiresAt
    else now <= r.signUntil.GetOr(0)
  }

  function AmountOf(r: IntentRecord): nat {
    if r.intent.purpose.Payout? then r.intent.purpose.amount else 0
  }

  /** The earliest signature with mode "first". */
  function FindFirst(sigs: seq<Signature>): (f: Option<Signature>)
    ensures f.Some? ==> f.value in sigs && f.value.pay.mode == First
  {
    if |sigs| == 0 then None
    else if sigs[0].pay.mode == First then Some(sigs[0])
    else FindFirst(sigs[1..])
  }

  function Weigh(q: Measure, r: IntentRecord): nat {
    match q
    case MandateUse(id, now) =>
      if r.mandateId == Some(id) && !r.cancelled && !r.vetoed && (|r.signatures| > 0 || IsOpen(r, now))
      then AmountOf(r) else 0
    case SignedSince(asset, after) =>
      var first := FindFirst(r.signatures);
      if first.Some? && first.value.pay.asset == asset && first.value.at > after
      then first.value.pay.amount else 0
    case OpenAt(now) => if IsOpen(r, now) then 1 else 0
    case CreatedSince(after) => if r.createdAt > after then 1 else 0
    case PaidUnder(id) => if r.mandateId == Some(id) && |r.signatures| > 0 then AmountOf(r) else 0
    case OpenUnder(id, now) => if r.mandateId == Some(id) && IsOpen(r, now) then AmountOf(r) else 0
  }

  function Tally(xs: seq<IntentRecord>, q: Measure): nat {
    if |xs| == 0 then 0 else Tally(xs[..|xs| - 1], q) + Weigh(q, xs[|xs| - 1])
  }

  // ----- guards

  predicate Ready(s: State) {
    s.orgId.Some? && s.policy.Some?
  }

  predicate UsableNetwork(n: Network, p: Policy) {
    n in p.networks && !Live(n)
  }

  predicate IsActiveDestination(r: IntentRecord, n: Network, destination: string, now: int) {
    && r.intent.purpose.Whitelist?
    && r.intent.network == n
    && r.intent.destination == destination
    && !r.vetoed
    && !r.cancelled
    && r.activeFrom.Some?
    && r.activeFrom.value <= now
  }

  predicate HasActiveDestination(s: State, n: Network, destination: string, now: int) {
    exists i :: 0 <= i < |s.intents| && IsActiveDestination(s.intents[i], n, destination, now)
  }

  /** The time the payer's confirmation page shows for the destination. */
  predicate ActiveSince(s: State, n: Network, destination: string, now: int, since: int) {
    exists i :: 0 <= i < |s.intents| && IsActiveDestination(s.intents[i], n, destination, now)
                && s.intents[i].activeFrom.value == since
  }

  /** Another live whitelist intent already stands for this destination. */
  predicate TakesDestination(r: IntentRecord, n: Network, destination: string, now: int) {
    && r.intent.purpose.Whitelist?
    && r.intent.network == n
    && r.intent.destination == destination
    && !r.vetoed
    && !r.cancelled
    && (r.approvedAt.Some? || now <= r.intent.expiresAt)
  }

  datatype MandateCheck =
    | Covered | WrongGrantee | WrongNetwork | WrongAsset | WrongDestination | NotYet | Expired
    | OverMandatePayout | OverTotal

  function MandateCovers(m: Mandate, grantee: Id, network: Network, asset: Asset, amount: nat,
                         destination: string, at: int, used: int): MandateCheck
  {
    if grantee != m.grantee then WrongGrantee
    else if network != m.network then WrongNetwork
    else if asset != m.asset then WrongAsset
    else if destination !in m.destinations then WrongDestination
    else if at < m.validFrom then NotYet
    else if at >= m.validUntil then Expired
    else if amount > m.perPayout then OverMandatePayout
    else if used + amount > m.total then OverTotal
    else Covered
  }

  predicate WellFormedMandate(m: Mandate) {
    && m.grantee != m.issuer
    && AssetOn(m.network, m.asset)
    && 0 < m.perPayout <= m.total
    && 0 < |m.destinations| <= 20
    && (forall i, j :: 0 <= i < j < |m.destinations| ==> Less(m.destinations[i], m.destinations[j]))
    && 0 < m.validUntil - m.validFrom <= 90 * 86400
  }

  /** The largest fee a new intent may allow: `estimateVsize(50, 2)` is 3473 vbytes. */
  function FeeCeiling(n: Network, p: Policy): int {
    if IsBitcoin(n) then p.btcSatPerVb * 3473 else p.ethMaxFeeGwei * GWEI * MAX_ETH_GAS
  }

  predicate MayAddIntent(s: State, now: int, id: Id, i: Intent, under: Option<Id>) {
    && Ready(s) && s.frozen.None?
    && IndexOf(s.intents, id) < 0
    && Tally(s.intents, OpenAt(now)) < MAX_OPEN
    && Tally(s.intents, CreatedSince(now - DAY)) < MAX_PER_DAY
    && i.orgId == s.orgId.value
    && UsableNetwork(i.network, s.policy.value)
    && match i.purpose
       case Whitelist =>
         && under.None?
         && i.expiresAt == now + WHITELIST_TTL
         && (forall k :: 0 <= k < |s.intents| ==>
               !TakesDestination(s.intents[k], i.network, i.destination, now))
       case Payout(accountId, asset, amount, feeCap, since) =>
         && i.expiresAt == now + PAYOUT_TTL
         && accountId in s.accounts
         && i.network == s.accounts[accountId].network
         && AssetOn(i.network, asset)
         && amount > 0
         && feeCap <= FeeCeiling(i.network, s.policy.value)
         && SpendAllowed(s.policy.value, asset, amount, 0) == SpendOk
         && ActiveSince(s, i.network, i.destination, now, since)
         && (under.Some? ==> MandateAllows(s, now, under.value, i))
  }

  predicate MandateAllows(s: State, now: int, id: Id, i: Intent)
    requires i.purpose.Payout?
  {
    && id in s.mandates
    && MandateQuorum(s.policy, s.keys, s.mandates[id])
    && MandateCovers(s.mandates[id].mandate, i.initiator, i.network, i.purpose.asset, i.purpose.amount,
                     i.destination, now, Tally(s.intents, MandateUse(id, now))) == Covered
  }

  predicate MayApprove(s: State, now: int, id: Id, credId: Id, person: Id) {
    var i := IndexOf(s.intents, id);
    && Ready(s) && s.frozen.None?
    && i >= 0
    && var r := s.intents[i];
       && !r.cancelled && !r.vetoed
       && now <= r.intent.expiresAt
       && r.mandateId.None?
       && credId in s.keys && s.keys[credId].active && s.keys[credId].person == person
       && (forall a :: a in r.approvals ==> a.credId != credId)
  }

  function PendingMandates(mandates: map<Id, MandateRecord>, now: int): set<Id> {
    set id | id in mandates && mandates[id].approvedAt.None? && !mandates[id].revoked
             && now <= mandates[id].createdAt + MANDATE_TTL
  }

  predicate MayAddMandate(s: State, now: int, id: Id, m: Mandate) {
    && Ready(s) && s.frozen.None?
    && id == m.mandateId && id !in s.mandates
    && WellFormedMandate(m)
    && m.orgId == s.orgId.value
    && UsableNetwork(m.network, s.policy.value)
    && m.asset in s.policy.value.limits
    && now < m.validUntil
    && (forall d :: d in m.destinations ==> HasActiveDestination(s, m.network, d, now))
    && |PendingMandates(s.mandates, now)| < MAX_OPEN
  }

  predicate MayApproveMandate(s: State, now: int, id: Id, credId: Id, person: Id) {
    && Ready(s) && s.frozen.None?
    && id in s.mandates
    && var m := s.mandates[id];
       && !m.revoked
       && now < m.mandate.validUntil
       && (m.approvedAt.Some? || now <= m.createdAt + MANDATE_TTL)
       && credId in s.keys && s.keys[credId].active && s.keys[credId].person == person
       && person != m.mandate.grantee
       && (forall a :: a in m.approvals ==> a.credId != credId)
  }

  // ----- signing

  /** Everything the first signature of an intent needs besides its transaction. */
  predicate MaySignFirst(s: State, now: int, r: IntentRecord)
    requires Ready(s) && r.intent.purpose.Payout?
  {
    && |r.signatures| == 0
    && (r.mandateId.Some? ==>
          && r.mandateId.value in s.mandates
          && !s.mandates[r.mandateId.value].revoked
          && now < s.mandates[r.mandateId.value].mandate.validUntil)
    && Quorum(s, r)
    && r.signableAt.Some? && r.signableAt.value <= now
    && r.signUntil.Some? && now <= r.signUntil.value
    && HasActiveDestination(s, r.intent.network, r.intent.destination, now)
    && UsableNetwork(r.intent.network, s.policy.value)
    && SpendAllowed(s.policy.value, r.intent.purpose.asset, r.intent.purpose.amount,
                    Tally(s.intents, SignedSince(r.intent.purpose.asset, now - DAY))) == SpendOk
  }

  /** What the signer reports before a missing quorum: it cannot change any more (Finality.dfy). */
  predicate Hopeless(s: State, r: IntentRecord, now: int) {
    || (r.mandateId.Some? && (r.mandateId.value !in s.mandates || s.mandates[r.mandateId.value].revoked
                              || now >= s.mandates[r.mandateId.value].mandate.validUntil))
    || (r.signUntil.Some? && now > r.signUntil.value)
  }

  predicate MayReplace(r: IntentRecord, mode: SignMode) {
    && FindFirst(r.signatures).Some?
    && (mode == Bump ==> r.signatures[|r.signatures| - 1].pay.mode != Recall)
  }

  /** The change address index the signer assigns. */
  function ChangeIndex(s: State, r: IntentRecord, accountId: Id, mode: SignMode): nat {
    var next := Lookup(s.nextChange, accountId, 0);
    if mode == First then next
    else
      match FindFirst(r.signatures)
      case Some(f) => if f.pay.tx.BtcTx? then f.pay.tx.changeIndex.GetOr(next) else next
      case None => next
  }

  /** As the code compares them: as many inputs as the first signature had, all among them. */
  predicate SameInputs(outpoints: seq<string>, first: Tx) {
    var before := Elements(Outpoints(first));
    |outpoints| == |before| && forall o :: o in outpoints ==> o in before
  }

  predicate MaySpendBtc(s: State, id: Id, r: IntentRecord, accountId: Id, feeCap: nat, mode: SignMode, tx: Tx) {
    && tx.BtcTx?
    && 0 < |tx.outpoints| <= MAX_BTC_INPUTS
    && Distinct(tx.outpoints)
    && tx.fee <= feeCap
    && (tx.changeIndex == Some(ChangeIndex(s, r, accountId, mode)) || (tx.changeIndex.None? && mode != Recall))
    && if mode == First then
         forall o :: o in tx.outpoints && o in s.reserved ==> s.reserved[o] == id
       else
         && MayReplace(r, mode)
         && SameInputs(tx.outpoints, FindFirst(r.signatures).value.pay.tx)
         && tx.fee > r.signatures[|r.signatures| - 1].pay.tx.fee
  }

  predicate SameNonce(tx: Tx, first: Tx)
    requires tx.EthTx?
  {
    first.EthTx? && tx.nonce == first.nonce
  }

  predicate OutbidsEth(tx: Tx, last: Tx)
    requires tx.EthTx?
  {
    var fee, prio := if last.EthTx? then last.maxFeePerGas else 0,
                     if last.EthTx? then last.maxPriorityFeePerGas else 0;
    tx.maxFeePerGas * 10 >= fee * 11 && tx.maxPriorityFeePerGas * 10 >= prio * 11
  }

  predicate MaySpendEth(s: State, r: IntentRecord, p: Policy, accountId: Id, feeCap: nat, mode: SignMode, tx: Tx) {
    && tx.EthTx?
    && 21000 <= tx.gasLimit <= 200000
    && 0 < tx.maxFeePerGas <= p.ethMaxFeeGwei * GWEI
    && tx.maxPriorityFeePerGas <= tx.maxFeePerGas
    && tx.fee == tx.gasLimit * tx.maxFeePerGas
    && tx.fee <= feeCap
    && if mode == First then
         accountId in s.nonces ==> tx.nonce == s.nonces[accountId] + 1
       else
         && MayReplace(r, mode)
         && SameNonce(tx, FindFirst(r.signatures).value.pay.tx)
         && OutbidsEth(tx, r.signatures[|r.signatures| - 1].pay.tx)
  }

  predicate MaySign(s: State, now: int, id: Id, pay: Payment) {
    var i := IndexOf(s.intents, id);
    && Ready(s) && s.frozen.None?
    && i >= 0
    && var r := s.intents[i];
       && r.intent.purpose.Payout?
       && !r.cancelled && !r.vetoed
       && var p := r.intent.purpose;
          && p.accountId in s.accounts
          && pay.accountId == p.accountId && pay.network == r.intent.network
          && pay.asset == p.asset && pay.amount == p.amount
          && (if pay.mode == First then MaySignFirst(s, now, r) else MayReplace(r, pay.mode))
          && (if IsBitcoin(r.intent.network)
              then MaySpendBtc(s, id, r, p.accountId, p.feeCap, pay.mode, pay.tx)
              else MaySpendEth(s, r, s.policy.value, p.accountId, p.feeCap, pay.mode, pay.tx))
  }

  // ----- the other commands

  predicate MayChangePolicy(cfg: Config, s: State, next: Policy, origin: Socket) {
    && Ready(s)
    && next.version == s.policy.value.version + 1
    && next.prev == Some(cfg.policyHash(s.policy.value))
    && Acceptable(next, cfg.dev)
    && (origin == App ==> IsTightening(s.policy.value, next))
  }

  predicate MayAddKey(s: State, now: int, enrolId: Id, person: Id, credId: Id) {
    && Ready(s)
    && enrolId in s.enrolments
    && !s.enrolments[enrolId].done
    && now <= s.enrolments[enrolId].expiresAt
    && person == s.enrolments[enrolId].person
    && credId !in s.keys
  }

  /** The two command tables: which socket can cause which event. */
  predicate SocketAllows(who: Socket, e: Event) {
    match e
    case Initialised(_, _, _) => who == Admin
    case NetworkAdded(_, _) => who == Admin
    case AccountAdded(_, _, _, _) => who == App
    case EnrolStarted(_, _, _, _) => who == Admin
    case KeyAdded(_, _, _, _) => who == App
    case KeyRevoked(_) => who == Admin
    case PolicyChanged(_, origin) => who == origin
    case IntentAdded(_, _, _) => who == App
    case Approved(_, _, _, _) => who == App
    case IntentCancelled(_, origin) => who == origin
    case Vetoed(_) => who == App
    case Frozen(_, origin) => who == origin
    case Unfrozen => who == Admin
    case Signed(_, _) => who == App
    case Rekeyed => who == Admin
    case MandateAdded(_, _) => who == App
    case MandateApproved(_, _, _, _) => who == App
    case MandateRevoked(_, origin) => who == origin
  }

  predicate Guard(cfg: Config, s: State, now: int, e: Event) {
    match e
    case Initialised(_, fingerprints, policy) =>
      && s.orgId.None?
      && (forall n :: n in fingerprints ==> !Live(n))
      && policy == DefaultPolicy(fingerprints.Keys, cfg.dev)
    case NetworkAdded(n, _) => Ready(s) && !Live(n)
    case AccountAdded(id, n, index, _) => Ready(s) && id !in s.accounts && index == Lookup(s.nextIndex, n, 0)
    case EnrolStarted(id, _, _, _) => Ready(s) && id !in s.enrolments
    case KeyAdded(enrolId, person, credId, _) => MayAddKey(s, now, enrolId, person, credId)
    case KeyRevoked(credId) => credId in s.keys && s.keys[credId].active
    case PolicyChanged(next, origin) => MayChangePolicy(cfg, s, next, origin)
    case IntentAdded(id, i, under) => MayAddIntent(s, now, id, i, under)
    case Approved(id, credId, person, _) => MayApprove(s, now, id, credId, person)
    case IntentCancelled(id, _) =>
      var i := IndexOf(s.intents, id);
      i >= 0 && |s.intents[i].signatures| == 0 && !s.intents[i].cancelled
    case Vetoed(id) =>
      var i := IndexOf(s.intents, id);
      i >= 0 && s.intents[i].intent.purpose.Whitelist? && !s.intents[i].vetoed
    case Frozen(_, _) => Ready(s) && s.frozen.None?
    case Unfrozen => Ready(s) && s.frozen.Some?
    case Signed(id, pay) => MaySign(s, now, id, pay)
    case Rekeyed => true
    case MandateAdded(id, m) => MayAddMandate(s, now, id, m)
    case MandateApproved(id, credId, person, _) => MayApproveMandate(s, now, id, credId, person)
    case MandateRevoked(id, _) => id in s.mandates && !s.mandates[id].revoked
  }

  /** The policy a fresh signer starts with. */
  function DefaultPolicy(networks: set<Network>, dev: bool): Policy {
    Policy(1, None, Solo,
           if dev then 1 else 2,
           if dev then 0 else 30 * 60,
           if dev then 0 else 24 * 3600,
           3600,
           map[BTC := Limit(100000, 500000),
               ETH := Limit(50000000000000000, 200000000000000000),
               USDC := Limit(100000000, 500000000),
               EURC := Limit(100000000, 500000000)],
           50, 50, networks, false, "")
  }

  /** What the outputs named by a list of outpoints are worth together. */
  function ValueOf(cfg: Config, outpoints: seq<string>): nat {
    if |outpoints| == 0 then 0
    else ValueOf(cfg, outpoints[..|outpoints| - 1]) + cfg.coinValue(outpoints[|outpoints| - 1])
  }

  /** What a Bitcoin transaction leaves after the payment and the fee; a recall pays everything back. */
  function ChangeOf(cfg: Config, pay: Payment): int
    requires pay.tx.BtcTx?
  {
    ValueOf(cfg, pay.tx.outpoints) - pay.tx.fee - if pay.mode == Recall then 0 else pay.amount
  }

  /** The inputs cover payment and fee, and what is left is no dust and has its address. */
  predicate Balanced(cfg: Config, pay: Payment)
    requires pay.tx.BtcTx?
  {
    var change := ChangeOf(cfg, pay);
    && change >= 0
    && (pay.tx.changeIndex.Some? <==> change > 0)
    && (pay.mode != Recall && change > 0 ==> change >= DUST)
  }

  /** Conditions on the event alone: formats, and what the inputs of a transaction are worth. */
  predicate Formed(cfg: Config, e: Event) {
    match e
    case IntentAdded(_, i, _) => cfg.address(i.network, i.destination)
    case MandateAdded(_, m) => forall d :: d in m.destinations ==> cfg.address(m.network, d)
    case Frozen(reason, _) => 0 < |reason| <= MAX_REASON
    case Signed(_, pay) => pay.tx.BtcTx? ==> Balanced(cfg, pay)
    case _ => true
  }

  predicate Permitted(cfg: Config, s: State, who: Socket, now: int, e: Event) {
    SocketAllows(who, e) && Formed(cfg, e) && Guard(cfg, s, now, e)
  }
}
