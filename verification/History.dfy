/**
 The signer's state read off the events of a run. A `Mark` is one thing the state can say; it
 stands exactly when some event of the run set it and none since took it away. An account of
 the fold in SignerState.dfy that mentions events alone.
 */
module History {
  import opened Basics
  import opened Policies
  import opened SignerState
  import opened SignerRules
  import opened SignerRuns

  datatype Mark =
    | Freezing
    | Organised(orgId: Id)
    | Seeded(network: Network, fingerprint: string)
    | Ruling(policy: Policy)
    | Opened(accountId: Id, account: Account)
    | Invited(enrolId: Id, person: Id, expiresAt: int)
    | Taken(enrolId: Id)
    | Enrolled(credId: Id, person: Id)
    | Active(credId: Id, person: Id)
    | Counted(credId: Id, counter: nat)
    | Ordered(intentId: Id, intent: Intent, under: Option<Id>, at: int)
    | Endorsed(intentId: Id, approval: Approval)
    | Cancelled(intentId: Id)
    | Barred(intentId: Id)
    | Granted(mandateId: Id, mandate: Mandate, at: int)
    | MandateEndorsed(mandateId: Id, approval: Approval)
    | Withdrawn(mandateId: Id)

  /** The step sets the mark. */
  predicate Sets(mark: Mark, st: Stamp) {
    var e := st.event;
    match mark
    case Freezing => e.Frozen?
    case Organised(org) => e.Initialised? && e.orgId == org
    case Seeded(n, f) =>
      (e.Initialised? && n in e.fingerprints && e.fingerprints[n] == f) || e == NetworkAdded(n, f)
    case Ruling(p) => (e.Initialised? || e.PolicyChanged?) && e.policy == p
    case Opened(id, a) => e == AccountAdded(id, a.network, a.index, a.xpub)
    case Invited(id, person, expires) =>
      e.EnrolStarted? && e.enrolId == id && e.person == person && e.expiresAt == expires
    case Taken(id) => e.KeyAdded? && e.enrolId == id
    case Enrolled(c, person) => e.KeyAdded? && e.credId == c && e.person == person
    case Active(c, person) => e.KeyAdded? && e.credId == c && e.person == person
    case Counted(c, n) => Counts(e, c) && e.counter == n
    case Ordered(id, i, under, at) => e == IntentAdded(id, i, under) && st.at == at
    case Endorsed(id, a) =>
      e.Approved? && e.intentId == id && a == SignerState.Approval(e.credId, e.person, st.at)
    case Cancelled(id) => e.IntentCancelled? && e.intentId == id
    case Barred(id) => e.Vetoed? && e.intentId == id
    case Granted(id, m, at) => e == MandateAdded(id, m) && st.at == at
    case MandateEndorsed(id, a) =>
      e.MandateApproved? && e.mandateId == id && a == SignerState.Approval(e.credId, e.person, st.at)
    case Withdrawn(id) => e.MandateRevoked? && e.mandateId == id
  }

  /** The step takes the mark away, unless it sets it again. */
  predicate Clears(mark: Mark, st: Stamp) {
    var e := st.event;
    match mark
    case Freezing => e.Unfrozen?
    case Organised(_) => e.Initialised?
    case Seeded(n, _) => e.Initialised? || (e.NetworkAdded? && e.network == n)
    case Ruling(_) => e.Initialised? || e.PolicyChanged?
    case Active(c, _) => e.KeyRevoked? && e.credId == c
    case Counted(c, _) => Counts(e, c)
    case _ => false
  }

  /** Enrolling a key and using it record its signature counter. */
  predicate Counts(e: Event, c: Id) {
    (e.KeyAdded? || e.Approved? || e.MandateApproved?) && e.credId == c
  }

  /** What the state says. */
  predicate Says(s: State, mark: Mark) {
    match mark
    case Freezing => s.frozen.Some?
    case Organised(org) => s.orgId == Some(org)
    case Seeded(n, f) => n in s.fingerprints && s.fingerprints[n] == f
    case Ruling(p) => s.policy == Some(p)
    case Opened(id, a) => id in s.accounts && s.accounts[id] == a
    case Invited(id, person, expires) =>
      id in s.enrolments && s.enrolments[id].person == person && s.enrolments[id].expiresAt == expires
    case Taken(id) => id in s.enrolments && s.enrolments[id].done
    case Enrolled(c, person) => c in s.keys && s.keys[c].person == person
    case Active(c, person) => c in s.keys && s.keys[c].person == person && s.keys[c].active
    case Counted(c, n) => c in s.keys && s.keys[c].counter == n
    case Ordered(id, i, under, at) =>
      var k := IndexOf(s.intents, id);
      k >= 0 && s.intents[k].intent == i && s.intents[k].mandateId == under && s.intents[k].createdAt == at
    case Endorsed(id, a) => var k := IndexOf(s.intents, id); k >= 0 && a in s.intents[k].approvals
    case Cancelled(id) => var k := IndexOf(s.intents, id); k >= 0 && s.intents[k].cancelled
    case Barred(id) => var k := IndexOf(s.intents, id); k >= 0 && s.intents[k].vetoed
    case Granted(id, m, at) => id in s.mandates && s.mandates[id].mandate == m && s.mandates[id].createdAt == at
    case MandateEndorsed(id, a) => id in s.mandates && a in s.mandates[id].approvals
    case Withdrawn(id) => id in s.mandates && s.mandates[id].revoked
  }

  /** Some step set the mark, and none since took it away. */
  ghost predicate Stands(run: seq<Stamp>, mark: Mark) {
    exists j :: 0 <= j < |run| && StandsSince(run, mark, j)
  }

  ghost predicate StandsSince(run: seq<Stamp>, mark: Mark, j: nat) {
    j < |run| && Sets(mark, run[j]) && forall i :: j < i < |run| ==> !Clears(mark, run[i])
  }

  lemma StandsMore(init: seq<Stamp>, last: Stamp, mark: Mark)
    ensures Stands(init + [last], mark) <==> Sets(mark, last) || (Stands(init, mark) && !Clears(mark, last))
  {
    hide Sets, Clears, StandsSince;
    var run := init + [last];
    StandsLast(init, last, mark);
    if Stands(init, mark) && !Clears(mark, last) {
      var j :| 0 <= j < |init| && StandsSince(init, mark, j);
      StandsEarlier(init, last, mark, j);
    }
    if Stands(run, mark) {
      var j :| 0 <= j < |run| && StandsSince(run, mark, j);
      if j < |init| {
        StandsEarlier(init, last, mark, j);
      }
    }
  }

  lemma StandsLast(init: seq<Stamp>, last: Stamp, mark: Mark)
    ensures StandsSince(init + [last], mark, |init|) <==> Sets(mark, last)
  {
    hide Sets, Clears;
    assert (init + [last])[|init|] == last;
  }

  lemma StandsEarlier(init: seq<Stamp>, last: Stamp, mark: Mark, j: nat)
    requires j < |init|
    ensures StandsSince(init + [last], mark, j) <==> StandsSince(init, mark, j) && !Clears(mark, last)
  {
    hide Sets, Clears;
    var run := init + [last];
    assert run[|init|] == last && forall i :: 0 <= i < |init| ==> run[i] == init[i];
  }

  // ----- one step

  predicate AboutIntents(mark: Mark) {
    mark.Ordered? || mark.Endorsed? || mark.Cancelled? || mark.Barred?
  }

  predicate AboutMandates(mark: Mark) {
    mark.Granted? || mark.MandateEndorsed? || mark.Withdrawn?
  }

  predicate AboutKeys(mark: Mark) {
    mark.Enrolled? || mark.Active? || mark.Counted?
  }

  /** Does the step leave the state saying exactly what the marks say it should? */
  ghost predicate Follows(s: State, st: Stamp, mark: Mark) {
    Says(Apply(s, st.at, st.event), mark) <==> Sets(mark, st) || (Says(s, mark) && !Clears(mark, st))
  }

  lemma KeyMark(cfg: Config, s: State, st: Stamp, mark: Mark)
    requires Guard(cfg, s, st.checked, st.event) && AboutKeys(mark)
    ensures Follows(s, st, mark)
  {
    hide IntentsAfter, MandatesAfter, MaySign, MayAddIntent, MayAddMandate, MayChangePolicy, DefaultPolicy;
    hide Tally, Ready;
  }

  lemma MandateMark(cfg: Config, s: State, st: Stamp, mark: Mark)
    requires Guard(cfg, s, st.checked, st.event) && AboutMandates(mark)
    ensures Follows(s, st, mark)
  {
    hide IntentsAfter, KeysAfter, MaySign, MayAddIntent, MayApprove, MayChangePolicy, DefaultPolicy, MayAddKey;
    hide MandateQuorum, Tally, HasActiveDestination, PendingMandates, WellFormedMandate;
  }

  lemma PlainMark(cfg: Config, s: State, st: Stamp, mark: Mark)
    requires Guard(cfg, s, st.checked, st.event) && !AboutKeys(mark) && !AboutMandates(mark) && !AboutIntents(mark)
    ensures Follows(s, st, mark)
  {
    hide IntentsAfter, KeysAfter, MandatesAfter, MaySign, MayAddIntent, MayApprove, MayChangePolicy, DefaultPolicy;
    hide MayAddMandate, MayApproveMandate;
  }

  /** What an event does to the record it names, as far as the marks go. */
  lemma RecordMarks(s: State, r: IntentRecord, at: int, e: Event)
    ensures var r' := RecordAfter(s, r, at, e);
            && r'.intentId == r.intentId && r'.intent == r.intent && r'.mandateId == r.mandateId
            && r'.createdAt == r.createdAt
            && r'.cancelled == (r.cancelled || e.IntentCancelled?) && r'.vetoed == (r.vetoed || e.Vetoed?)
            && r'.approvals ==
               r.approvals + if e.Approved? then [SignerState.Approval(e.credId, e.person, at)] else []
  {
    hide Quorum;
  }

  lemma AddedMarks(s: State, at: int, e: Event)
    requires e.IntentAdded?
    ensures var r := AddedRecord(s, at, e);
            && r.intentId == e.intentId && r.intent == e.intent && r.mandateId == e.under && r.createdAt == at
            && !r.cancelled && !r.vetoed && r.approvals == []
  {
    hide Quorum;
  }

  lemma IndexReplaced(xs: seq<IntentRecord>, i: nat, r: IntentRecord, id: Id)
    requires UniqueIds(xs) && i < |xs| && r.intentId == xs[i].intentId
    ensures IndexOf(xs[i := r], id) == IndexOf(xs, id)
  {
    var ys := xs[i := r];
    var k := IndexOf(ys, id);
    assert UniqueIds(ys);
    assert forall j :: 0 <= j < |xs| ==> xs[j].intentId == ys[j].intentId;
    if k >= 0 {
      UniqueIndex(xs, k);
    }
  }

  lemma IndexAppended(xs: seq<IntentRecord>, r: IntentRecord, id: Id)
    requires IndexOf(xs, r.intentId) < 0
    ensures IndexOf(xs + [r], id) == if id == r.intentId then |xs| else IndexOf(xs, id)
  {
    assert (xs + [r])[..|xs|] == xs;
  }

  /** What a list of records says: the record with the mark's id decides. */
  predicate ListSays(xs: seq<IntentRecord>, mark: Mark)
    requires AboutIntents(mark)
  {
    IndexOf(xs, mark.intentId) >= 0 && RecordSays(xs[IndexOf(xs, mark.intentId)], mark)
  }

  predicate RecordSays(r: IntentRecord, mark: Mark)
    requires AboutIntents(mark)
  {
    match mark
    case Ordered(_, i, under, at) => r.intent == i && r.mandateId == under && r.createdAt == at
    case Endorsed(_, a) => a in r.approvals
    case Cancelled(_) => r.cancelled
    case Barred(_) => r.vetoed
  }

  lemma RecordSaysAfter(s: State, r: IntentRecord, st: Stamp, mark: Mark)
    requires AboutIntents(mark) && NamesIntent(st.event) && st.event.intentId == mark.intentId
    ensures RecordSays(RecordAfter(s, r, st.at, st.event), mark) <==> Sets(mark, st) || RecordSays(r, mark)
  {
    hide RecordAfter;
    RecordMarks(s, r, st.at, st.event);
  }

  lemma OtherMark(st: Stamp, mark: Mark)
    requires AboutIntents(mark) && NamesIntent(st.event) && st.event.intentId != mark.intentId
    ensures !Sets(mark, st)
  {
  }

  lemma NamedMark(s: State, st: Stamp, mark: Mark, i: nat)
    requires AboutIntents(mark) && UniqueIds(s.intents) && NamesIntent(st.event)
    requires i == IndexOf(s.intents, st.event.intentId)
    ensures ListSays(s.intents[i := RecordAfter(s, s.intents[i], st.at, st.event)], mark) <==>
              Sets(mark, st) || ListSays(s.intents, mark)
  {
    hide RecordAfter, RecordSays, Sets, UniqueIds, IndexOf;
    var e := st.event;
    RecordMarks(s, s.intents[i], st.at, e);
    IndexReplaced(s.intents, i, RecordAfter(s, s.intents[i], st.at, e), mark.intentId);
    if e.intentId == mark.intentId {
      RecordSaysAfter(s, s.intents[i], st, mark);
    } else {
      OtherMark(st, mark);
    }
  }

  lemma AddedMark(s: State, st: Stamp, mark: Mark)
    requires AboutIntents(mark) && st.event.IntentAdded? && IndexOf(s.intents, st.event.intentId) < 0
    ensures ListSays(s.intents + [AddedRecord(s, st.at, st.event)], mark) <==>
              Sets(mark, st) || ListSays(s.intents, mark)
  {
    hide AddedRecord;
    AddedMarks(s, st.at, st.event);
    IndexAppended(s.intents, AddedRecord(s, st.at, st.event), mark.intentId);
  }

  lemma IntentMark(cfg: Config, s: State, st: Stamp, mark: Mark)
    requires Inv(s) && Guard(cfg, s, st.checked, st.event) && AboutIntents(mark)
    ensures Follows(s, st, mark)
  {
    hide Guard, Apply, RecordAfter, AddedRecord, RecordOk, MaySign, MayAddIntent, MayApprove, ListSays, Says,
         Sets, Clears;
    var e := st.event;
    IntentsChange(cfg, s, st.checked, st.at, e);
    GuardOnIntents(cfg, s, st.checked, e);
    IntentSays(s, mark);
    IntentSays(Apply(s, st.at, e), mark);
    IntentSets(mark, st);
    if NamesIntent(e) {
      NamedMark(s, st, mark, IndexOf(s.intents, e.intentId));
    } else if e.IntentAdded? {
      AddedMark(s, st, mark);
    }
  }

  lemma IntentSays(s: State, mark: Mark)
    requires AboutIntents(mark)
    ensures Says(s, mark) <==> ListSays(s.intents, mark)
  {
  }

  lemma IntentSets(mark: Mark, st: Stamp)
    requires AboutIntents(mark)
    ensures !Clears(mark, st) && (Sets(mark, st) ==> NamesIntent(st.event) || st.event.IntentAdded?)
  {
  }

  lemma NothingSaid(mark: Mark)
    ensures !Says(EmptyState(), mark)
  {
  }

  /** In every run the state says exactly what its events say. */
  lemma {:induction false} StateIsHistory(cfg: Config, run: seq<Stamp>, mark: Mark)
    requires ValidRun(cfg, run)
    ensures Says(StateOf(run), mark) <==> Stands(run, mark)
  {
    hide Guard, Apply, Inv, Says, Sets, Clears;
    if |run| == 0 {
      NothingSaid(mark);
    } else {
      var init, last := run[..|run| - 1], run[|run| - 1];
      assert run == init + [last];
      RunInv(cfg, init);
      StateIsHistory(cfg, init, mark);
      StandsMore(init, last, mark);
      if AboutKeys(mark) {
        KeyMark(cfg, StateOf(init), last, mark);
      } else if AboutMandates(mark) {
        MandateMark(cfg, StateOf(init), last, mark);
      } else if AboutIntents(mark) {
        IntentMark(cfg, StateOf(init), last, mark);
      } else {
        PlainMark(cfg, StateOf(init), last, mark);
      }
    }
  }
}
