/**
 Turning a plan into a transaction (lib/wallet/core/btc-spend.ts, eth-spend.ts and the
 signer's own checks around them, signer/service.ts:803-970). Keys, scripts and the
 signed bytes are left to the library: `txid` and `raw` stand for what it returns.
 */
module Spending {
  import opened Basics
  import opened Policies
  import opened SignerState
  import opened SignerRules

  /**
   An input of the plan: the outpoint, what the previous transaction sent along says it is
   worth, and whether a derived key controls it.
   */
  datatype BtcInput = BtcInput(outpoint: string, value: nat, own: bool)

  datatype Plan =
    | BtcPlan(inputs: seq<BtcInput>, btcFee: nat, vsize: nat, txid: string, raw: string)
    | EthPlan(nonce: nat, gasLimit: nat, maxFeePerGas: nat, maxPriorityFeePerGas: nat, txid: string, raw: string)

  function Total(inputs: seq<BtcInput>): nat {
    if |inputs| == 0 then 0 else Total(inputs[..|inputs| - 1]) + inputs[|inputs| - 1].value
  }

  function OutpointsOf(inputs: seq<BtcInput>): seq<string> {
    seq(|inputs|, i requires 0 <= i < |inputs| => inputs[i].outpoint)
  }

  /** The transaction sent along is the one the outpoint names, for each input. */
  predicate Genuine(cfg: Config, inputs: seq<BtcInput>) {
    forall i :: 0 <= i < |inputs| ==> inputs[i].value == cfg.coinValue(inputs[i].outpoint)
  }

  /**
   The builder's checks; the value is the change that goes back to the account. It accepts
   exactly when distinct, genuine inputs of the account balance, the fee keeps its cap and
   its rate, and change is either nothing or no dust and has an address.
   */
  function BuildBtc(cfg: Config, amount: int, inputs: seq<BtcInput>, changeIndex: Option<nat>, fee: nat, feeCap: nat,
                    vsize: nat, maxSatPerVb: int): (r: Result<nat, string>)
    ensures r.Ok? <==>
              && amount > 0 && 0 < |inputs| <= 200
              && Distinct(OutpointsOf(inputs)) && Genuine(cfg, inputs)
              && (forall i :: 0 <= i < |inputs| ==> inputs[i].own)
              && fee <= feeCap && fee <= maxSatPerVb * vsize
              && amount + fee <= Total(inputs)
              && (amount + fee < Total(inputs) ==> amount + fee + DUST <= Total(inputs) && changeIndex.Some?)
    ensures r.Ok? ==> amount + fee + r.value == Total(inputs)
  {
    var change := Total(inputs) - amount - fee;
    if amount <= 0 then Err("amount")
    else if |inputs| == 0 || |inputs| > 200 then Err("inputs")
    else if fee > feeCap then Err("fee_cap")
    else if !Distinct(OutpointsOf(inputs)) then Err("duplicate_input")
    else if !Genuine(cfg, inputs) then Err("prev_tx")
    else if exists i :: 0 <= i < |inputs| && !inputs[i].own then Err("foreign_input")
    else if change < 0 then Err("insufficient")
    else if 0 < change < DUST then Err("dust_change")
    else if change > 0 && changeIndex.None? then Err("change_index")
    else if fee > maxSatPerVb * vsize then Err("fee_rate")
    else Ok(change)
  }

  lemma {:induction false} TotalIsValue(cfg: Config, inputs: seq<BtcInput>)
    requires Genuine(cfg, inputs)
    ensures Total(inputs) == ValueOf(cfg, OutpointsOf(inputs))
  {
    if |inputs| > 0 {
      TotalIsValue(cfg, inputs[..|inputs| - 1]);
      assert OutpointsOf(inputs)[..|inputs| - 1] == OutpointsOf(inputs[..|inputs| - 1]);
    }
  }

  /** A recall pays everything but the fee back to the account. */
  function PaidAmount(amount: nat, plan: Plan, mode: SignMode): int
    requires plan.BtcPlan?
  {
    if mode == Recall then Total(plan.inputs) - plan.btcFee else amount
  }

  function BuildFor(cfg: Config, s: State, r: IntentRecord, p: Policy, mode: SignMode, plan: Plan): Result<nat, string>
    requires plan.BtcPlan? && r.intent.purpose.Payout?
  {
    var pay := r.intent.purpose;
    var change := if mode == Recall then None else Some(ChangeIndex(s, r, pay.accountId, mode));
    var paid := PaidAmount(pay.amount, plan, mode);
    BuildBtc(cfg, paid, plan.inputs, change, plan.btcFee, pay.feeCap, plan.vsize, p.btcSatPerVb)
  }

  /**
   When a plan can be built: the inputs are genuine, distinct and the account's, the fee keeps its
   cap and its rate, and what is left over is nothing or no dust. A recall needs only something
   left behind the fee.
   */
  lemma BuiltExactly(cfg: Config, s: State, r: IntentRecord, p: Policy, mode: SignMode, plan: Plan)
    requires plan.BtcPlan? && r.intent.purpose.Payout?
    ensures BuildFor(cfg, s, r, p, mode, plan).Ok? <==>
              var total, amount := Total(plan.inputs), r.intent.purpose.amount;
              && 1 <= |plan.inputs| <= 200
              && (forall i, j :: 0 <= i < j < |plan.inputs| ==> plan.inputs[i].outpoint != plan.inputs[j].outpoint)
              && (forall i :: 0 <= i < |plan.inputs| ==>
                    plan.inputs[i].own && plan.inputs[i].value == cfg.coinValue(plan.inputs[i].outpoint))
              && plan.btcFee <= r.intent.purpose.feeCap && plan.btcFee <= p.btcSatPerVb * plan.vsize
              && (if mode == Recall then total > plan.btcFee
                  else amount > 0 && (total == amount + plan.btcFee || total >= amount + plan.btcFee + 294))
  {
    assert forall i :: 0 <= i < |plan.inputs| ==> OutpointsOf(plan.inputs)[i] == plan.inputs[i].outpoint;
  }

  /** The transaction a plan leads to. */
  function TxFor(cfg: Config, s: State, r: IntentRecord, p: Policy, mode: SignMode, plan: Plan): Tx
    requires r.intent.purpose.Payout?
  {
    match plan
    case BtcPlan(inputs, fee, _, txid, raw) =>
      var built := BuildFor(cfg, s, r, p, mode, plan);
      var index := ChangeIndex(s, r, r.intent.purpose.accountId, mode);
      BtcTx(txid, raw, fee, OutpointsOf(inputs),
            if mode == Recall || (built.Ok? && built.value > 0) then Some(index) else None)
    case EthPlan(nonce, gasLimit, maxFee, prio, txid, raw) =>
      EthTx(txid, raw, gasLimit * maxFee, nonce, maxFee, prio, gasLimit)
  }

  /** The transaction carries what the plan says, field by field. */
  predicate Carries(tx: Tx, plan: Plan) {
    && tx.txid == plan.txid && tx.raw == plan.raw
    && match plan
       case BtcPlan(inputs, fee, _, _, _) =>
         && tx.BtcTx? && tx.fee == fee && |tx.outpoints| == |inputs|
         && forall i :: 0 <= i < |inputs| ==> tx.outpoints[i] == inputs[i].outpoint
       case EthPlan(nonce, gasLimit, maxFee, prio, _, _) =>
         && tx.EthTx? && tx.nonce == nonce && tx.gasLimit == gasLimit && tx.fee == gasLimit * maxFee
         && tx.maxFeePerGas == maxFee && tx.maxPriorityFeePerGas == prio
  }

  lemma TxOfPlan(cfg: Config, s: State, r: IntentRecord, p: Policy, mode: SignMode, plan: Plan)
    requires r.intent.purpose.Payout?
    ensures TxFor(cfg, s, r, p, mode, plan).BtcTx? <==> plan.BtcPlan?
  {
  }

  predicate MaySpend(s: State, id: Id, r: IntentRecord, p: Policy, mode: SignMode, tx: Tx)
    requires r.intent.purpose.Payout?
  {
    var pay := r.intent.purpose;
    if IsBitcoin(r.intent.network) then MaySpendBtc(s, id, r, pay.accountId, pay.feeCap, mode, tx)
    else MaySpendEth(s, r, p, pay.accountId, pay.feeCap, mode, tx)
  }

  /** The plan is for the right chain, and its builder accepts it. */
  predicate Buildable(cfg: Config, s: State, r: IntentRecord, p: Policy, mode: SignMode, plan: Plan)
    requires r.intent.purpose.Payout?
  {
    if IsBitcoin(r.intent.network) then plan.BtcPlan? && BuildFor(cfg, s, r, p, mode, plan).Ok? else plan.EthPlan?
  }

  /**
   A plan the builder accepts leads to a balanced transaction, and what is left over is what
   the builder pays back: the change output, or in a recall the one output there is.
   */
  lemma BuiltIsBalanced(cfg: Config, s: State, r: IntentRecord, p: Policy, mode: SignMode, plan: Plan, pay: Payment)
    requires r.intent.purpose.Payout? && plan.BtcPlan? && BuildFor(cfg, s, r, p, mode, plan).Ok?
    requires pay.mode == mode && pay.amount == r.intent.purpose.amount && pay.tx == TxFor(cfg, s, r, p, mode, plan)
    ensures Balanced(cfg, pay)
    ensures mode != Recall ==> BuildFor(cfg, s, r, p, mode, plan).value == ChangeOf(cfg, pay)
    ensures mode == Recall ==> PaidAmount(pay.amount, plan, mode) == ChangeOf(cfg, pay)
  {
    hide ChangeIndex;
    TotalIsValue(cfg, plan.inputs);
  }

  /** What is wrong when a Bitcoin plan is refused. */
  ghost predicate BtcRefusal(cfg: Config, s: State, id: Id, r: IntentRecord, p: Policy, mode: SignMode, plan: Plan,
                             code: string)
    requires r.intent.purpose.Payout? && plan.BtcPlan? && (mode != First ==> MayReplace(r, mode))
  {
    || (code == "bad_request" && !(1 <= |plan.inputs| <= 50))
    || (code == "input_reserved" && mode == First && exists i ::
          0 <= i < |plan.inputs| && plan.inputs[i].outpoint in s.reserved && s.reserved[plan.inputs[i].outpoint] != id)
    || (code == "inputs_differ" && mode != First &&
        !SameInputs(OutpointsOf(plan.inputs), FindFirst(r.signatures).value.pay.tx))
    || (code == "fee_not_higher" && mode != First && plan.btcFee <= r.signatures[|r.signatures| - 1].pay.tx.fee)
    || (code == "spend" && BuildFor(cfg, s, r, p, mode, plan).Err?)
  }

  /** What is wrong when an Ethereum plan is refused. */
  ghost predicate EthRefusal(s: State, r: IntentRecord, p: Policy, mode: SignMode, plan: Plan, code: string)
    requires r.intent.purpose.Payout? && plan.EthPlan? && (mode != First ==> MayReplace(r, mode))
  {
    var account := r.intent.purpose.accountId;
    || (code == "bad_request" && (plan.gasLimit == 0 || plan.maxFeePerGas == 0))
    || (code == "nonce" && mode == First && account in s.nonces && plan.nonce != s.nonces[account] + 1)
    || (code == "nonce_differs" && mode != First
        && var first := FindFirst(r.signatures).value.pay.tx; first.BtcTx? || first.nonce != plan.nonce)
    || (code == "fee_not_higher" && mode != First
        && var tx := r.signatures[|r.signatures| - 1].pay.tx;
           tx.BtcTx? || 10 * plan.maxFeePerGas < 11 * tx.maxFeePerGas
           || 10 * plan.maxPriorityFeePerGas < 11 * tx.maxPriorityFeePerGas)
    || (code == "spend"
        && (plan.gasLimit < 21_000 || plan.gasLimit > 200_000 || plan.maxPriorityFeePerGas > plan.maxFeePerGas
            || plan.maxFeePerGas > p.ethMaxFeeGwei * 1_000_000_000
            || plan.gasLimit * plan.maxFeePerGas > r.intent.purpose.feeCap))
  }

  ghost predicate SpendRefusal(cfg: Config, s: State, id: Id, r: IntentRecord, p: Policy, mode: SignMode, plan: Plan,
                               code: string)
    requires r.intent.purpose.Payout? && (mode != First ==> MayReplace(r, mode))
  {
    if plan.BtcPlan? != IsBitcoin(r.intent.network) then code == "bad_request"
    else if plan.BtcPlan? then BtcRefusal(cfg, s, id, r, p, mode, plan, code)
    else EthRefusal(s, r, p, mode, plan, code)
  }

  /** `signBtc` */
  method SignBtc(cfg: Config, s: State, id: Id, r: IntentRecord, p: Policy, mode: SignMode, plan: Plan)
    returns (out: Result<Tx, string>)
    requires r.intent.purpose.Payout? && plan.BtcPlan? && (mode != First ==> MayReplace(r, mode))
    ensures out.Ok? <==>
              var q, tx := r.intent.purpose, TxFor(cfg, s, r, p, mode, plan);
              MaySpendBtc(s, id, r, q.accountId, q.feeCap, mode, tx) && BuildFor(cfg, s, r, p, mode, plan).Ok?
    ensures out.Ok? ==> out.value == TxFor(cfg, s, r, p, mode, plan) && Carries(out.value, plan)
    ensures out.Ok? ==>
              var q := r.intent.purpose;
              out.value.changeIndex ==
              if mode == Recall || q.amount + plan.btcFee < Total(plan.inputs)
              then Some(ChangeIndex(s, r, q.accountId, mode)) else None
    ensures out.Err? ==> BtcRefusal(cfg, s, id, r, p, mode, plan, out.error)
  {
    var outpoints := OutpointsOf(plan.inputs);
    if |outpoints| == 0 || |outpoints| > MAX_BTC_INPUTS {
      return Err("bad_request");
    }
    if mode == First {
      var k := 0;
      while k < |outpoints|
        invariant 0 <= k <= |outpoints|
        invariant forall o :: o in outpoints[..k] && o in s.reserved ==> s.reserved[o] == id
      {
        if outpoints[k] in s.reserved && s.reserved[outpoints[k]] != id {
          return Err("input_reserved");
        }
        assert outpoints[..k + 1] == outpoints[..k] + [outpoints[k]];
        k := k + 1;
      }
      assert outpoints[..k] == outpoints;
    } else {
      if !SameInputs(outpoints, FindFirst(r.signatures).value.pay.tx) {
        return Err("inputs_differ");
      }
      if plan.btcFee <= r.signatures[|r.signatures| - 1].pay.tx.fee {
        return Err("fee_not_higher");
      }
    }
    var built := BuildFor(cfg, s, r, p, mode, plan);
    if built.Err? {
      return Err("spend");
    }
    out := Ok(TxFor(cfg, s, r, p, mode, plan));
  }

  /** `signEth` */
  method SignEth(cfg: Config, s: State, r: IntentRecord, p: Policy, mode: SignMode, plan: Plan)
    returns (out: Result<Tx, string>)
    requires r.intent.purpose.Payout? && plan.EthPlan? && (mode != First ==> MayReplace(r, mode))
    ensures out.Ok? <==>
              var q, tx := r.intent.purpose, TxFor(cfg, s, r, p, mode, plan);
              MaySpendEth(s, r, p, q.accountId, q.feeCap, mode, tx)
    ensures out.Ok? ==> out.value == TxFor(cfg, s, r, p, mode, plan) && Carries(out.value, plan)
    ensures out.Err? ==> EthRefusal(s, r, p, mode, plan, out.error)
  {
    var tx := TxFor(cfg, s, r, p, mode, plan);
    var account := r.intent.purpose.accountId;
    if plan.gasLimit == 0 || plan.maxFeePerGas == 0 {
      return Err("bad_request");
    }
    if mode == First {
      if account in s.nonces && plan.nonce != s.nonces[account] + 1 {
        return Err("nonce");
      }
    } else {
      if !SameNonce(tx, FindFirst(r.signatures).value.pay.tx) {
        return Err("nonce_differs");
      }
      if !OutbidsEth(tx, r.signatures[|r.signatures| - 1].pay.tx) {
        return Err("fee_not_higher");
      }
    }
    if plan.gasLimit < 21000 || plan.gasLimit > 200000 || plan.maxPriorityFeePerGas > plan.maxFeePerGas
       || plan.maxFeePerGas > p.ethMaxFeeGwei * GWEI || plan.gasLimit * plan.maxFeePerGas > r.intent.purpose.feeCap {
      return Err("spend");
    }
    out := Ok(tx);
  }

  /** The transaction for a plan, on whichever chain the intent is. */
  method BuildTx(cfg: Config, s: State, id: Id, r: IntentRecord, p: Policy, mode: SignMode, plan: Plan)
    returns (out: Result<Tx, string>)
    requires r.intent.purpose.Payout? && (mode != First ==> MayReplace(r, mode))
    ensures out.Ok? <==>
              MaySpend(s, id, r, p, mode, TxFor(cfg, s, r, p, mode, plan)) && Buildable(cfg, s, r, p, mode, plan)
    ensures out.Ok? ==> out.value == TxFor(cfg, s, r, p, mode, plan) && Carries(out.value, plan)
    ensures out.Err? ==> SpendRefusal(cfg, s, id, r, p, mode, plan, out.error)
    ensures out.Err? ==> out.error != "not_approved"
  {
    hide MaySpendBtc, MaySpendEth, TxFor, BuildFor, MayReplace, Carries;
    if IsBitcoin(r.intent.network) {
      if !plan.BtcPlan? {
        return Err("bad_request");
      }
      out := SignBtc(cfg, s, id, r, p, mode, plan);
    } else {
      if !plan.EthPlan? {
        return Err("bad_request");
      }
      out := SignEth(cfg, s, r, p, mode, plan);
    }
  }
}
