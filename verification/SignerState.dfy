/**
 The signer's state as a fold over its journal (signer/events.ts, signer/state.ts).

 `Apply` is given field by field, so that a fact about one field never has to look
 at the others; the switch of the source, which changes the fields in place, is the
 class in SignerStore.dfy and is proved to compute the same value.

 Intents are a sequence in the order of their insertion, as a JavaScript `Map`
 iterates them; `IndexOf` is the map's `get`.
 */
module SignerState {
  import opened Basics
  import opened Policies

  type Id = string

  datatype Socket = App | Admin
  datatype SignMode = First | Bump | Recall

  /** What the approved text of an intent fixes (lib/wallet/core/intent.ts). */
  datatype Purpose =
    | Payout(accountId: Id, asset: Asset, amount: nat, feeCap: nat, activeSince: int)
    | Whitelist

  datatype Intent = Intent(
    orgId: Id,
    network: Network,
    destination: string,
    initiator: Id,
    expiresAt: int,
    purpose: Purpose)

  /** A spending mandate (lib/wallet/core/mandate.ts). */
  datatype Mandate = Mandate(
    orgId: Id,
    mandateId: Id,
    grantee: Id,
    network: Network,
    asset: Asset,
    perPayout: nat,
    total: nat,
    destinations: seq<string>,
    validFrom: int,
    validUntil: int,
    issuer: Id,
    nonce: string)

  /** A signed transaction; `fee` is the Bitcoin fee or the largest Ethereum fee. */
  datatype Tx =
    | BtcTx(txid: string, raw: string, fee: nat, outpoints: seq<string>, changeIndex: Option<nat>)
    | EthTx(txid: string, raw: string, fee: nat, nonce: nat, maxFeePerGas: nat,
            maxPriorityFeePerGas: nat, gasLimit: nat)

  datatype Payment = Payment(mode: SignMode, accountId: Id, network: Network, asset: Asset,
                             amount: nat, tx: Tx)

  datatype Event =
    | Initialised(orgId: Id, fingerprints: map<Network, string>, policy: Policy)
    | NetworkAdded(network: Network, fingerprint: string)
    | AccountAdded(accountId: Id, network: Network, index: nat, xpub: string)
    | EnrolStarted(enrolId: Id, person: Id, secret: string, expiresAt: int)
    | KeyAdded(enrolId: Id, person: Id, credId: Id, counter: nat)
    | KeyRevoked(credId: Id)
    | PolicyChanged(policy: Policy, origin: Socket)
    | IntentAdded(intentId: Id, intent: Intent, under: Option<Id>)
    | Approved(intentId: Id, credId: Id, person: Id, counter: nat)
    | IntentCancelled(intentId: Id, origin: Socket)
    | Vetoed(intentId: Id)
    | Frozen(reason: string, origin: Socket)
    | Unfrozen
    | Signed(intentId: Id, pay: Payment)
    | Rekeyed
    | MandateAdded(mandateId: Id, mandate: Mandate)
    | MandateApproved(mandateId: Id, credId: Id, person: Id, counter: nat)
    | MandateRevoked(mandateId: Id, origin: Socket)

  datatype Key = Key(person: Id, counter: nat, active: bool, enrolledAt: int)
  datatype Enrolment = Enrolment(person: Id, secret: string, expiresAt: int, done: bool)
  datatype Account = Account(network: Network, index: nat, xpub: string)
  datatype Approval = Approval(credId: Id, person: Id, at: int)
  datatype Signature = Signature(at: int, pay: Payment)
  datatype Freeze = Freeze(reason: string, at: int, origin: Socket)

  datatype IntentRecord = IntentRecord(
    intentId: Id,
    intent: Intent,
    createdAt: int,
    approvals: seq<Approval>,
    approvedAt: Option<int>,
    signableAt: Option<int>,
    signUntil: Option<int>,
    activeFrom: Option<int>,
    cancelled: bool,
    vetoed: bool,
    signatures: seq<Signature>,
    mandateId: Option<Id>)

  datatype MandateRecord = MandateRecord(
    mandate: Mandate,
    createdAt: int,
    approvals: seq<Approval>,
    approvedAt: Option<int>,
    revoked: bool)

  datatype State = State(
    orgId: Option<Id>,
    fingerprints: map<Network, string>,
    policy: Option<Policy>,
    accounts: map<Id, Account>,
    nextIndex: map<Network, nat>,
    enrolments: map<Id, Enrolment>,
    keys: map<Id, Key>,
    intents: seq<IntentRecord>,
    mandates: map<Id, MandateRecord>,
    frozen: Option<Freeze>,
    reserved: map<string, Id>,
    nonces: map<Id, nat>,
    nextChange: map<Id, nat>)

  function EmptyState(): State {
    State(None, map[], None, map[], map[], map[], map[], [], map[], None, map[], map[], map[])
  }

  // ----- look-ups

  /** The position of the intent with this id, or -1. */
  function IndexOf(xs: seq<IntentRecord>, id: Id): (i: int)
    ensures -1 <= i < |xs|
    ensures i >= 0 ==> xs[i].intentId == id
    ensures i < 0 ==> forall j :: 0 <= j < |xs| ==> xs[j].intentId != id
  {
    if |xs| == 0 then -1
    else if xs[|xs| - 1].intentId == id then |xs| - 1
    else IndexOf(xs[..|xs| - 1], id)
  }

  /** A map's `set`: replaces in place, or adds at the end. */
  function Put(xs: seq<IntentRecord>, r: IntentRecord): seq<IntentRecord> {
    var i := IndexOf(xs, r.intentId);
    if i >= 0 then xs[i := r] else xs + [r]
  }

  function Outpoints(tx: Tx): seq<string> {
    if tx.BtcTx? then tx.outpoints else []
  }

  // ----- quorum

  function ActiveKeySet(keys: map<Id, Key>, person: Id): set<Id> {
    set c | c in keys && keys[c].active && keys[c].person == person
  }

  /** How many active keys each person holds. */
  function ActiveKeysByPerson(keys: map<Id, Key>): map<Id, nat> {
    map p | p in (set c | c in keys && keys[c].active :: keys[c].person) :: |ActiveKeySet(keys, p)|
  }

  /** The people behind the approvals given with keys that are active now. */
  function ValidPersons(keys: map<Id, Key>, approvals: seq<Approval>): set<Id> {
    set a | a in approvals && a.credId in keys && keys[a.credId].active :: a.person
  }

  predicate ApprovalsQuorum(policy: Option<Policy>, keys: map<Id, Key>, approvals: seq<Approval>) {
    policy.Some? &&
    ApprovalsSatisfied(policy.value, ValidPersons(keys, approvals), ActiveKeysByPerson(keys))
  }

  predicate MandateQuorum(policy: Option<Policy>, keys: map<Id, Key>, m: MandateRecord) {
    !m.revoked && ApprovalsQuorum(policy, keys, m.approvals)
  }

  /** An intent under a mandate stands or falls with the mandate's own quorum. */
  predicate Quorum(s: State, r: IntentRecord) {
    match r.mandateId
    case Some(m) => m in s.mandates && MandateQuorum(s.policy, s.keys, s.mandates[m])
    case None => ApprovalsQuorum(s.policy, s.keys, r.approvals)
  }

  /** Fixes the times of an intent once its quorum is reached. */
  function Settle(s: State, r: IntentRecord, at: int): IntentRecord {
    if r.approvedAt.Some? || !Quorum(s, r) || s.policy.None? then r
    else
      var p := s.policy.value;
      if r.intent.purpose.Payout? then
        r.(approvedAt := Some(at),
           signableAt := Some(at + SignDelay(p)),
           signUntil := Some(at + SignDelay(p) + p.approvalWindowSec))
      else
        r.(approvedAt := Some(at), activeFrom := Some(at + p.whitelistCooldownSec))
  }

  // ----- one event, field by field

  function NewRecord(id: Id, intent: Intent, at: int, mandateId: Option<Id>): IntentRecord {
    IntentRecord(id, intent, at, [], None, None, None, None, false, false, [], mandateId)
  }

  /** The record an event leaves in place of `r`, the record it names. */
  function RecordAfter(s: State, r: IntentRecord, at: int, e: Event): IntentRecord {
    match e
    case Approved(_, credId, person, _) =>
      Settle(s, r.(approvals := r.approvals + [Approval(credId, person, at)]), at)
    case IntentCancelled(_, _) => r.(cancelled := true)
    case Vetoed(_) => r.(vetoed := true)
    case Signed(_, pay) => r.(signatures := r.signatures + [Signature(at, pay)])
    case _ => r
  }

  /** The record an intent starts with; under a mandate it is settled at once. */
  function AddedRecord(s: State, at: int, e: Event): IntentRecord
    requires e.IntentAdded?
  {
    var r := NewRecord(e.intentId, e.intent, at, e.under);
    if e.under.Some? then Settle(s, r, at) else r
  }

  predicate NamesIntent(e: Event) {
    e.Approved? || e.IntentCancelled? || e.Vetoed? || e.Signed?
  }

  function IntentsAfter(s: State, at: int, e: Event): seq<IntentRecord> {
    if e.IntentAdded? then
      Put(s.intents, AddedRecord(s, at, e))
    else if NamesIntent(e) then
      var i := IndexOf(s.intents, e.intentId);
      if i < 0 then s.intents else s.intents[i := RecordAfter(s, s.intents[i], at, e)]
    else s.intents
  }

  function MandatesAfter(s: State, at: int, e: Event): map<Id, MandateRecord> {
    match e
    case MandateAdded(id, m) => s.mandates[id := MandateRecord(m, at, [], None, false)]
    case MandateApproved(id, credId, person, _) =>
      if id !in s.mandates then s.mandates
      else
        var m := s.mandates[id];
        var m' := m.(approvals := m.approvals + [Approval(credId, person, at)]);
        s.mandates[id :=
          if m.approvedAt.None? && MandateQuorum(s.policy, s.keys, m') then m'.(approvedAt := Some(at)) else m']
    case MandateRevoked(id, _) =>
      if id in s.mandates then s.mandates[id := s.mandates[id].(revoked := true)] else s.mandates
    case _ => s.mandates
  }

  function CounterSet(keys: map<Id, Key>, credId: Id, counter: nat): map<Id, Key> {
    if credId in keys then keys[credId := keys[credId].(counter := counter)] else keys
  }

  function KeysAfter(keys: map<Id, Key>, at: int, e: Event): map<Id, Key> {
    match e
    case KeyAdded(_, person, credId, counter) => keys[credId := Key(person, counter, true, at)]
    case KeyRevoked(credId) =>
      if credId in keys then keys[credId := keys[credId].(active := false)] else keys
    case Approved(_, credId, _, counter) => CounterSet(keys, credId, counter)
    case MandateApproved(_, credId, _, counter) => CounterSet(keys, credId, counter)
    case _ => keys
  }

  function EnrolmentsAfter(enrolments: map<Id, Enrolment>, e: Event): map<Id, Enrolment> {
    match e
    case EnrolStarted(id, person, secret, expiresAt) =>
      enrolments[id := Enrolment(person, secret, expiresAt, false)]
    case KeyAdded(id, _, _, _) =>
      if id in enrolments then enrolments[id := enrolments[id].(done := true)] else enrolments
    case _ => enrolments
  }

  function PolicyAfter(policy: Option<Policy>, e: Event): Option<Policy> {
    match e
    case Initialised(_, _, p) => Some(p)
    case PolicyChanged(p, _) => Some(p)
    case _ => policy
  }

  function FrozenAfter(frozen: Option<Freeze>, at: int, e: Event): Option<Freeze> {
    match e
    case Frozen(reason, origin) => Some(Freeze(reason, at, origin))
    case Unfrozen => None
    case _ => frozen
  }

  /** Every outpoint of a signed transaction is held by its intent from then on. */
  function ReservedAfter(reserved: map<string, Id>, e: Event): map<string, Id> {
    if e.Signed? then reserved + (map o | o in Outpoints(e.pay.tx) :: e.intentId) else reserved
  }

  /** The highest nonce signed so far, per account. */
  function NoncesAfter(nonces: map<Id, nat>, e: Event): map<Id, nat> {
    if e.Signed? && e.pay.tx.EthTx? &&
       (e.pay.accountId !in nonces || e.pay.tx.nonce > nonces[e.pay.accountId])
    then nonces[e.pay.accountId := e.pay.tx.nonce]
    else nonces
  }

  function Max(a: int, b: int): int {
    if a >= b then a else b
  }

  function NextChangeAfter(nextChange: map<Id, nat>, e: Event): map<Id, nat> {
    if e.Signed? && e.pay.tx.BtcTx? && e.pay.tx.changeIndex.Some? then
      nextChange[e.pay.accountId :=
        Max(Lookup(nextChange, e.pay.accountId, 0), e.pay.tx.changeIndex.value + 1)]
    else nextChange
  }

  function SetupAfter(orgId: Option<Id>, fingerprints: map<Network, string>, e: Event)
    : (Option<Id>, map<Network, string>)
  {
    match e
    case Initialised(org, marks, _) => (Some(org), marks)
    case NetworkAdded(n, mark) => (orgId, fingerprints[n := mark])
    case _ => (orgId, fingerprints)
  }

  function AccountsAfter(accounts: map<Id, Account>, nextIndex: map<Network, nat>, e: Event)
    : (map<Id, Account>, map<Network, nat>)
  {
    match e
    case AccountAdded(id, n, index, xpub) =>
      (accounts[id := Account(n, index, xpub)], nextIndex[n := Max(Lookup(nextIndex, n, 0), index + 1)])
    case _ => (accounts, nextIndex)
  }

  function Apply(s: State, at: int, e: Event): State {
    var (orgId, fingerprints) := SetupAfter(s.orgId, s.fingerprints, e);
    var (accounts, nextIndex) := AccountsAfter(s.accounts, s.nextIndex, e);
    State(
      orgId,
      fingerprints,
      PolicyAfter(s.policy, e),
      accounts,
      nextIndex,
      EnrolmentsAfter(s.enrolments, e),
      KeysAfter(s.keys, at, e),
      IntentsAfter(s, at, e),
      MandatesAfter(s, at, e),
      FrozenAfter(s.frozen, at, e),
      ReservedAfter(s.reserved, e),
      NoncesAfter(s.nonces, e),
      NextChangeAfter(s.nextChange, e))
  }

  /** One journal entry: an event and the time it was recorded. */
  datatype Entry = Entry(at: int, event: Event)

  /** The state after a whole journal. */
  function Replay(entries: seq<Entry>): State {
    if |entries| == 0 then EmptyState()
    else
      var last := entries[|entries| - 1];
      Apply(Replay(entries[..|entries| - 1]), last.at, last.event)
  }

  // ----- quorum does not depend on signature counters

  lemma CounterIrrelevant(keys: map<Id, Key>, credId: Id, counter: nat, approvals: seq<Approval>)
    ensures ActiveKeysByPerson(CounterSet(keys, credId, counter)) == ActiveKeysByPerson(keys)
    ensures ValidPersons(CounterSet(keys, credId, counter), approvals) == ValidPersons(keys, approvals)
  {
    var keys' := CounterSet(keys, credId, counter);
    assert forall c :: c in keys' <==> c in keys;
    assert forall c :: c in keys ==> keys'[c].active == keys[c].active && keys'[c].person == keys[c].person;
    forall p {:trigger ActiveKeySet(keys, p)} ensures ActiveKeySet(keys', p) == ActiveKeySet(keys, p) {
    }
    var owners := set c | c in keys && keys[c].active :: keys[c].person;
    var owners' := set c | c in keys' && keys'[c].active :: keys'[c].person;
    assert owners == owners';
  }

  /** The map of counts gives everybody the number of their active keys. */
  lemma ActiveCount(keys: map<Id, Key>, person: Id)
    ensures Lookup(ActiveKeysByPerson(keys), person, 0) == |ActiveKeySet(keys, person)|
  {
    if person !in ActiveKeysByPerson(keys) {
      assert ActiveKeySet(keys, person) == {};
    }
  }
}
