/**
 The state as the source keeps it: maps and records changed in place, one event at a
 time (signer/state.ts:103-308). Proved to hold exactly the value the fold computes.
 */
module SignerStores {
  import opened Basics
  import opened Policies
  import opened SignerState

  /** `activeKeysByPerson`: one pass over the keys, counting in a map. */
  method CountActiveKeys(keys: map<Id, Key>) returns (out: map<Id, nat>)
    ensures out == ActiveKeysByPerson(keys)
  {
    hide ActiveKeysByPerson, Restrict;
    out := map[];
    var rest, done: set<Id> := keys.Keys, {};
    NoKeys(keys);
    while rest != {}
      invariant rest !! done && rest + done == keys.Keys
      invariant out == ActiveKeysByPerson(Restrict(keys, done))
      decreases rest
    {
      var c :| c in rest;
      RestrictMore(keys, done, c);
      AddKey(Restrict(keys, done), c, keys[c]);
      if keys[c].active {
        out := out[keys[c].person := Lookup(out, keys[c].person, 0) + 1];
      }
      rest, done := rest - {c}, done + {c};
    }
    RestrictAll(keys);
  }

  lemma NoKeys(keys: map<Id, Key>)
    ensures ActiveKeysByPerson(Restrict(keys, {})) == map[]
  {
    assert Restrict(keys, {}) == map[];
  }

  lemma RestrictAll(keys: map<Id, Key>)
    ensures Restrict(keys, keys.Keys) == keys
  {
  }

  lemma RestrictMore(keys: map<Id, Key>, done: set<Id>, c: Id)
    requires c in keys && c !in done
    ensures c !in Restrict(keys, done) && Restrict(keys, done + {c}) == Restrict(keys, done)[c := keys[c]]
  {
  }

  ghost function Restrict(keys: map<Id, Key>, cs: set<Id>): map<Id, Key> {
    map c | c in keys && c in cs :: keys[c]
  }

  function Owners(keys: map<Id, Key>): set<Id> {
    set c | c in keys && keys[c].active :: keys[c].person
  }

  lemma OwnersAfter(keys: map<Id, Key>, c: Id, k: Key)
    requires c !in keys
    ensures Owners(keys[c := k]) == Owners(keys) + if k.active then {k.person} else {}
  {
    var keys' := keys[c := k];
    assert keys'[c] == k;
    forall p | p in Owners(keys) ensures p in Owners(keys') {
      var d :| d in keys && keys[d].active && keys[d].person == p;
      assert keys'[d].active && keys'[d].person == p;
    }
  }

  lemma ActiveSetAfter(keys: map<Id, Key>, c: Id, k: Key, p: Id)
    requires c !in keys
    ensures |ActiveKeySet(keys[c := k], p)| == |ActiveKeySet(keys, p)| + if k.active && k.person == p then 1 else 0
  {
    var after := ActiveKeySet(keys[c := k], p);
    assert after == ActiveKeySet(keys, p) + if k.active && k.person == p then {c} else {};
  }

  lemma OwnersAreCounted(keys: map<Id, Key>, p: Id)
    ensures p in ActiveKeysByPerson(keys) <==> p in Owners(keys)
  {
  }

  lemma AddKey(keys: map<Id, Key>, c: Id, k: Key)
    requires c !in keys
    ensures ActiveKeysByPerson(keys[c := k]) ==
              if k.active then ActiveKeysByPerson(keys)[k.person := Lookup(ActiveKeysByPerson(keys), k.person, 0) + 1]
              else ActiveKeysByPerson(keys)
  {
    hide ActiveKeysByPerson, Owners, ActiveKeySet;
    var before, after := ActiveKeysByPerson(keys), ActiveKeysByPerson(keys[c := k]);
    OwnersAfter(keys, c, k);
    forall p
      ensures p in after <==> p in before || (k.active && p == k.person)
      ensures Lookup(after, p, 0) == Lookup(before, p, 0) + if k.active && k.person == p then 1 else 0
    {
      OwnersAreCounted(keys, p);
      OwnersAreCounted(keys[c := k], p);
      ActiveCount(keys, p);
      ActiveCount(keys[c := k], p);
      ActiveSetAfter(keys, c, k, p);
    }
    var expected := if k.active then before[k.person := Lookup(before, k.person, 0) + 1] else before;
    assert forall p :: p in after <==> p in expected;
    assert forall p :: p in after ==> after[p] == Lookup(after, p, 0);
  }

  class SignerStore {
    var orgId: Option<Id>
    var fingerprints: map<Network, string>
    var policy: Option<Policy>
    var accounts: map<Id, Account>
    var nextIndex: map<Network, nat>
    var enrolments: map<Id, Enrolment>
    var keys: map<Id, Key>
    var intents: seq<IntentRecord>
    var mandates: map<Id, MandateRecord>
    var frozen: Option<Freeze>
    var reserved: map<string, Id>
    var nonces: map<Id, nat>
    var nextChange: map<Id, nat>

    function Value(): State
      reads this
    {
      State(orgId, fingerprints, policy, accounts, nextIndex, enrolments, keys, intents, mandates,
            frozen, reserved, nonces, nextChange)
    }

    constructor ()
      ensures Value() == EmptyState()
    {
      orgId, fingerprints, policy, accounts, nextIndex := None, map[], None, map[], map[];
      enrolments, keys, intents, mandates := map[], map[], [], map[];
      frozen, reserved, nonces, nextChange := None, map[], map[], map[];
    }

    /** `approvalsQuorum` */
    method HasQuorum(approvals: seq<Approval>) returns (ok: bool)
      ensures ok == ApprovalsQuorum(policy, keys, approvals)
    {
      if policy.None? {
        return false;
      }
      var counts := CountActiveKeys(keys);
      ok := ApprovalsSatisfied(policy.value, ValidPersons(keys, approvals), counts);
    }

    /** `quorum` */
    method IntentQuorum(r: IntentRecord) returns (ok: bool)
      ensures ok == Quorum(Value(), r)
    {
      if r.mandateId.Some? {
        if r.mandateId.value !in mandates || mandates[r.mandateId.value].revoked {
          return false;
        }
        ok := HasQuorum(mandates[r.mandateId.value].approvals);
      } else {
        ok := HasQuorum(r.approvals);
      }
    }

    /** `settle` */
    method SettleAt(i: nat, at: int)
      requires i < |intents|
      modifies this`intents
      ensures intents == old(intents)[i := Settle(old(Value()), old(intents[i]), at)]
    {
      var r := intents[i];
      if r.approvedAt.Some? || policy.None? {
        return;
      }
      var ok := IntentQuorum(r);
      if !ok {
        return;
      }
      r := r.(approvedAt := Some(at));
      if r.intent.purpose.Payout? {
        var delay := if policy.value.mode == Solo then policy.value.soloDelaySec else 0;
        r := r.(signableAt := Some(at + delay));
        r := r.(signUntil := Some(r.signableAt.value + policy.value.approvalWindowSec));
      } else {
        r := r.(activeFrom := Some(at + policy.value.whitelistCooldownSec));
      }
      intents := intents[i := r];
    }

    method SetCounter(credId: Id, counter: nat)
      modifies this`keys
      ensures keys == CounterSet(old(keys), credId, counter)
    {
      if credId in keys {
        keys := keys[credId := keys[credId].(counter := counter)];
      }
    }

    method AddIntent(at: int, e: Event)
      requires e.IntentAdded?
      modifies this`intents
      ensures intents == IntentsAfter(old(Value()), at, e)
    {
      var i := IndexOf(intents, e.intentId);
      var r := NewRecord(e.intentId, e.intent, at, e.under);
      intents := Put(intents, r);
      if e.under.Some? {
        SettleAt(if i >= 0 then i else |intents| - 1, at);
        hide Quorum;
      }
    }

    method Approve(at: int, e: Event)
      requires e.Approved?
      modifies this`intents, this`keys
      ensures intents == IntentsAfter(old(Value()), at, e)
      ensures keys == KeysAfter(old(keys), at, e)
    {
      SetCounter(e.credId, e.counter);
      var i := IndexOf(intents, e.intentId);
      if i < 0 {
        return;
      }
      intents := intents[i := intents[i].(approvals := intents[i].approvals + [Approval(e.credId, e.person, at)])];
      QuorumIgnores(old(Value()), Value(), intents[i], e.credId, e.counter);
      SettleAt(i, at);
      hide Quorum;
    }

    method ApproveMandate(at: int, e: Event)
      requires e.MandateApproved?
      modifies this`mandates, this`keys
      ensures mandates == MandatesAfter(old(Value()), at, e)
      ensures keys == KeysAfter(old(keys), at, e)
    {
      SetCounter(e.credId, e.counter);
      if e.mandateId !in mandates {
        return;
      }
      var m := mandates[e.mandateId];
      m := m.(approvals := m.approvals + [Approval(e.credId, e.person, at)]);
      var ok := HasQuorum(m.approvals);
      CounterIrrelevant(old(keys), e.credId, e.counter, m.approvals);
      hide ApprovalsSatisfied, ActiveKeysByPerson, ValidPersons;
      if m.approvedAt.None? && !m.revoked && ok {
        m := m.(approvedAt := Some(at));
      }
      mandates := mandates[e.mandateId := m];
    }

    /** Changes one record in place, if there is one. */
    method Touch(at: int, e: Event)
      requires e.IntentCancelled? || e.Vetoed? || e.Signed?
      modifies this`intents
      ensures intents == IntentsAfter(old(Value()), at, e)
    {
      var i := IndexOf(intents, e.intentId);
      if i >= 0 {
        match e
        case IntentCancelled(_, _) => intents := intents[i := intents[i].(cancelled := true)];
        case Vetoed(_) => intents := intents[i := intents[i].(vetoed := true)];
        case Signed(_, pay) =>
          intents := intents[i := intents[i].(signatures := intents[i].signatures + [Signature(at, pay)])];
      }
    }

    method ReserveAll(outpoints: seq<string>, id: Id)
      modifies this`reserved
      ensures reserved == old(reserved) + (map o | o in outpoints :: id)
    {
      var k := 0;
      while k < |outpoints|
        invariant 0 <= k <= |outpoints|
        invariant reserved == old(reserved) + (map o | o in outpoints[..k] :: id)
      {
        reserved := reserved[outpoints[k] := id];
        assert outpoints[..k + 1] == outpoints[..k] + [outpoints[k]];
        k := k + 1;
      }
      assert outpoints[..k] == outpoints;
    }

    method Reserve(e: Event)
      requires e.Signed?
      modifies this`reserved, this`nonces, this`nextChange
      ensures reserved == ReservedAfter(old(reserved), e)
      ensures nonces == NoncesAfter(old(nonces), e)
      ensures nextChange == NextChangeAfter(old(nextChange), e)
    {
      ReserveAll(Outpoints(e.pay.tx), e.intentId);
      if e.pay.tx.EthTx? {
        var a, n := e.pay.accountId, e.pay.tx.nonce;
        if a !in nonces || n > nonces[a] {
          nonces := nonces[a := n];
        }
      } else if e.pay.tx.changeIndex.Some? {
        var a := e.pay.accountId;
        nextChange := nextChange[a := Max(Lookup(nextChange, a, 0), e.pay.tx.changeIndex.value + 1)];
      }
    }

    method SetUp(e: Event)
      requires e.Initialised? || e.NetworkAdded? || e.AccountAdded? || e.PolicyChanged?
      modifies this`orgId, this`fingerprints, this`policy, this`accounts, this`nextIndex
      ensures (orgId, fingerprints) == SetupAfter(old(orgId), old(fingerprints), e)
      ensures policy == PolicyAfter(old(policy), e)
      ensures (accounts, nextIndex) == AccountsAfter(old(accounts), old(nextIndex), e)
    {
      match e
      case Initialised(o, f, p) =>
        orgId, fingerprints, policy := Some(o), f, Some(p);
      case NetworkAdded(n, f) =>
        fingerprints := fingerprints[n := f];
      case AccountAdded(id, n, index, xpub) =>
        accounts := accounts[id := Account(n, index, xpub)];
        nextIndex := nextIndex[n := Max(Lookup(nextIndex, n, 0), index + 1)];
      case PolicyChanged(p, _) =>
        policy := Some(p);
    }

    method Enrol(at: int, e: Event)
      requires e.EnrolStarted? || e.KeyAdded? || e.KeyRevoked?
      modifies this`enrolments, this`keys
      ensures enrolments == EnrolmentsAfter(old(enrolments), e)
      ensures keys == KeysAfter(old(keys), at, e)
    {
      match e
      case EnrolStarted(id, person, secret, expiresAt) =>
        enrolments := enrolments[id := Enrolment(person, secret, expiresAt, false)];
      case KeyAdded(id, person, credId, counter) =>
        if id in enrolments {
          enrolments := enrolments[id := enrolments[id].(done := true)];
        }
        keys := keys[credId := Key(person, counter, true, at)];
      case KeyRevoked(credId) =>
        if credId in keys {
          keys := keys[credId := keys[credId].(active := false)];
        }
    }

    method ChangeMandate(at: int, e: Event)
      requires e.MandateAdded? || e.MandateRevoked?
      modifies this`mandates
      ensures mandates == MandatesAfter(old(Value()), at, e)
    {
      match e
      case MandateAdded(id, m) =>
        mandates := mandates[id := MandateRecord(m, at, [], None, false)];
      case MandateRevoked(id, _) =>
        if id in mandates {
          mandates := mandates[id := mandates[id].(revoked := true)];
        }
    }

    method ApplyToIntents(at: int, e: Event)
      requires e.IntentAdded? || NamesIntent(e)
      modifies this
      ensures Value() == SignerState.Apply(old(Value()), at, e)
    {
      hide IntentsAfter, MandatesAfter, KeysAfter, EnrolmentsAfter, PolicyAfter, FrozenAfter, ReservedAfter,
           NoncesAfter, NextChangeAfter, SetupAfter, AccountsAfter;
      FieldsKept(Value(), at, e);
      SetupKept(Value(), at, e);
      if e.IntentAdded? {
        AddIntent(at, e);
      } else if e.Approved? {
        Approve(at, e);
      } else {
        Touch(at, e);
        if e.Signed? {
          Reserve(e);
        }
      }
    }

    method ApplyToMandates(at: int, e: Event)
      requires e.MandateAdded? || e.MandateApproved? || e.MandateRevoked?
      modifies this
      ensures Value() == SignerState.Apply(old(Value()), at, e)
    {
      hide IntentsAfter, MandatesAfter, KeysAfter, EnrolmentsAfter, PolicyAfter, FrozenAfter, ReservedAfter,
           NoncesAfter, NextChangeAfter, SetupAfter, AccountsAfter;
      FieldsKept(Value(), at, e);
      SetupKept(Value(), at, e);
      if e.MandateApproved? {
        ApproveMandate(at, e);
      } else {
        ChangeMandate(at, e);
      }
    }

    method ApplyToSetup(at: int, e: Event)
      requires !NamesIntent(e) && !e.IntentAdded? && !e.MandateAdded? && !e.MandateApproved? && !e.MandateRevoked?
      modifies this
      ensures Value() == SignerState.Apply(old(Value()), at, e)
    {
      hide IntentsAfter, MandatesAfter, KeysAfter, EnrolmentsAfter, PolicyAfter, FrozenAfter, ReservedAfter,
           NoncesAfter, NextChangeAfter, SetupAfter, AccountsAfter;
      FieldsKept(Value(), at, e);
      SetupKept(Value(), at, e);
      if e.EnrolStarted? || e.KeyAdded? || e.KeyRevoked? {
        Enrol(at, e);
      } else if e.Frozen? {
        frozen := Some(Freeze(e.reason, at, e.origin));
      } else if e.Unfrozen? {
        frozen := None;
      } else if !e.Rekeyed? {
        SetUp(e);
      }
    }

    /** `apply`: the switch over the event's type. */
    method Apply(at: int, e: Event)
      modifies this
      ensures Value() == SignerState.Apply(old(Value()), at, e)
    {
      hide SignerState.Apply;
      if e.IntentAdded? || NamesIntent(e) {
        ApplyToIntents(at, e);
      } else if e.MandateAdded? || e.MandateApproved? || e.MandateRevoked? {
        ApplyToMandates(at, e);
      } else {
        ApplyToSetup(at, e);
      }
    }
  }

  /** Which event leaves which field alone. */
  lemma FieldsKept(s: State, at: int, e: Event)
    ensures !NamesIntent(e) && !e.IntentAdded? ==> IntentsAfter(s, at, e) == s.intents
    ensures !e.MandateAdded? && !e.MandateApproved? && !e.MandateRevoked? ==> MandatesAfter(s, at, e) == s.mandates
    ensures !e.KeyAdded? && !e.KeyRevoked? && !e.Approved? && !e.MandateApproved? ==> KeysAfter(s.keys, at, e) == s.keys
    ensures !e.EnrolStarted? && !e.KeyAdded? ==> EnrolmentsAfter(s.enrolments, e) == s.enrolments
  {
    hide RecordAfter, AddedRecord, MandateQuorum;
  }

  lemma SetupKept(s: State, at: int, e: Event)
    ensures !e.Initialised? && !e.PolicyChanged? ==> PolicyAfter(s.policy, e) == s.policy
    ensures !e.Initialised? && !e.NetworkAdded? ==> SetupAfter(s.orgId, s.fingerprints, e) == (s.orgId, s.fingerprints)
    ensures !e.AccountAdded? ==> AccountsAfter(s.accounts, s.nextIndex, e) == (s.accounts, s.nextIndex)
    ensures FrozenAfter(s.frozen, at, e) ==
              if e.Frozen? then Some(Freeze(e.reason, at, e.origin)) else if e.Unfrozen? then None else s.frozen
    ensures !e.Signed? ==> ReservedAfter(s.reserved, e) == s.reserved
    ensures !e.Signed? ==> NoncesAfter(s.nonces, e) == s.nonces && NextChangeAfter(s.nextChange, e) == s.nextChange
  {
  }

  /** A record's quorum depends on the policy, the mandates and the keys, not on counters. */
  lemma QuorumIgnores(s: State, s': State, r: IntentRecord, credId: Id, counter: nat)
    requires s'.policy == s.policy && s'.mandates == s.mandates && s'.keys == CounterSet(s.keys, credId, counter)
    ensures Quorum(s', r) == Quorum(s, r)
  {
    CounterIrrelevant(s.keys, credId, counter, r.approvals);
    if r.mandateId.Some? && r.mandateId.value in s.mandates {
      CounterIrrelevant(s.keys, credId, counter, s.mandates[r.mandateId.value].approvals);
    }
  }
}
