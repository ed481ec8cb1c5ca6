/**
 The signer's policy (lib/wallet/core/policy.ts), networks and assets, and what
 "tightening" a policy does and does not guarantee.
 */
module Policies {
  import opened Basics

  datatype Network = BitcoinSignet | BitcoinMainnet | EthereumSepolia | EthereumMainnet
  datatype Asset = BTC | ETH | USDC | EURC
  datatype ApprovalMode = Solo | FourEyes
  datatype Limit = Limit(perPayout: nat, perDay: nat)

  datatype Policy = Policy(
    version: int,
    prev: Option<string>,
    mode: ApprovalMode,
    soloMinKeys: int,
    soloDelaySec: int,
    whitelistCooldownSec: int,
    approvalWindowSec: int,
    limits: map<Asset, Limit>,
    btcSatPerVb: int,
    ethMaxFeeGwei: int,
    networks: set<Network>,
    liveFunds: bool,
    /** Whatever else the received object holds: no check looks at it, the journal keeps it. */
    others: string)

  predicate IsBitcoin(n: Network) {
    n == BitcoinSignet || n == BitcoinMainnet
  }

  predicate Live(n: Network) {
    n == BitcoinMainnet || n == EthereumMainnet
  }

  predicate AssetOn(n: Network, a: Asset) {
    IsBitcoin(n) <==> a == BTC
  }

  /** The bounds against misconfiguration; a development build may wait 0 seconds. */
  predicate Acceptable(p: Policy, dev: bool) {
    && p.version >= 1
    && p.soloMinKeys >= (if dev then 1 else 2)
    && p.soloDelaySec >= (if dev then 0 else 600)
    && p.whitelistCooldownSec >= (if dev then 0 else 86400)
    && 60 <= p.approvalWindowSec <= 86400
    && (forall a :: a in p.limits ==> p.limits[a].perPayout <= p.limits[a].perDay)
    && 0 < p.btcSatPerVb <= 2000
    && 0 < p.ethMaxFeeGwei <= 2000
    && !p.liveFunds
    && (forall n :: n in p.networks ==> !Live(n))
  }

  predicate IsTightening(prev: Policy, next: Policy) {
    && !(prev.mode == FourEyes && next.mode == Solo)
    && next.soloMinKeys >= prev.soloMinKeys
    && next.soloDelaySec >= prev.soloDelaySec
    && next.whitelistCooldownSec >= prev.whitelistCooldownSec
    && next.approvalWindowSec <= prev.approvalWindowSec
    && next.btcSatPerVb <= prev.btcSatPerVb
    && next.ethMaxFeeGwei <= prev.ethMaxFeeGwei
    && next.networks <= prev.networks
    && !next.liveFunds
    && forall a :: a in next.limits ==>
         && a in prev.limits
         && next.limits[a].perPayout <= prev.limits[a].perPayout
         && next.limits[a].perDay <= prev.limits[a].perDay
  }

  datatype SpendCheck = SpendOk | AssetNotAllowed | OverPerPayout | OverPerDay

  function SpendAllowed(p: Policy, asset: Asset, amount: nat, signedLast24h: int): SpendCheck {
    if asset !in p.limits then AssetNotAllowed
    else if amount > p.limits[asset].perPayout then OverPerPayout
    else if signedLast24h + amount > p.limits[asset].perDay then OverPerDay
    else SpendOk
  }

  /** Four eyes: two different people. Solo: one person holding enough active keys. */
  predicate ApprovalsSatisfied(p: Policy, persons: set<string>, activeKeys: map<string, nat>) {
    if p.mode == FourEyes then |persons| >= 2
    else exists x :: x in persons && Lookup(activeKeys, x, 0) >= p.soloMinKeys
  }

  /** Seconds between reaching quorum and the first moment a payout may be signed. */
  function SignDelay(p: Policy): int {
    if p.mode == Solo then p.soloDelaySec else 0
  }

  lemma TighteningTransitive(a: Policy, b: Policy, c: Policy)
    requires IsTightening(a, b) && IsTightening(b, c)
    ensures IsTightening(a, c)
  {
  }

  /** Every spend a tightened policy lets through was let through before. */
  lemma TighteningKeepsLimits(prev: Policy, next: Policy, asset: Asset, amount: nat, used: int)
    requires IsTightening(prev, next)
    requires SpendAllowed(next, asset, amount, used) == SpendOk
    ensures SpendAllowed(prev, asset, amount, used) == SpendOk
  {
  }

  /** Approvals are only counted for active keys, so each counted person has one. */
  ghost predicate Countable(persons: set<string>, activeKeys: map<string, nat>) {
    forall x :: x in persons ==> Lookup(activeKeys, x, 0) >= 1
  }

  /** Whatever satisfies `next` also satisfied `prev`. */
  ghost predicate QuorumStricter(prev: Policy, next: Policy) {
    forall persons: set<string>, activeKeys: map<string, nat> ::
      Countable(persons, activeKeys) && ApprovalsSatisfied(next, persons, activeKeys) ==>
        ApprovalsSatisfied(prev, persons, activeKeys)
  }

  /**
   A tightening is called stricter in every respect, but moving from solo to four
   eyes drops the key count: two people with one key each are then enough. The
   quorum really is stricter exactly when the mode stays, or solo asked for one key.
   */
  lemma TighteningQuorumExactly(prev: Policy, next: Policy)
    requires IsTightening(prev, next)
    ensures QuorumStricter(prev, next) <==> prev.mode == next.mode || prev.soloMinKeys <= 1
  {
    if prev.mode == next.mode || prev.soloMinKeys <= 1 {
      forall persons: set<string>, activeKeys: map<string, nat>
        | Countable(persons, activeKeys) && ApprovalsSatisfied(next, persons, activeKeys)
        ensures ApprovalsSatisfied(prev, persons, activeKeys)
      {
        if next.mode == FourEyes && prev.mode == Solo {
          var x :| x in persons;
          assert Lookup(activeKeys, x, 0) >= prev.soloMinKeys;
        }
      }
    } else {
      var persons, activeKeys := {"a", "b"}, map["a" := 1, "b" := 1];
      assert "a" != "b";
      assert |persons| == 2;
      assert Countable(persons, activeKeys) && ApprovalsSatisfied(next, persons, activeKeys);
      assert !ApprovalsSatisfied(prev, persons, activeKeys);
    }
  }

  /** The same switch drops the solo delay; otherwise a tightening never shortens it. */
  lemma TighteningDelayExactly(prev: Policy, next: Policy)
    requires IsTightening(prev, next)
    ensures SignDelay(next) >= SignDelay(prev) <==> prev.mode == next.mode || prev.soloDelaySec <= 0
  {
  }
}
