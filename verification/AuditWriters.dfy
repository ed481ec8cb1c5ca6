/**
 Concurrent audit writers (lib/audit.ts:41-80): transactions at read committed, each
 statement a step, interleaved in any order, with aborts and with several chains.

 `audit` takes the chain's advisory lock until the transaction ends, reads the hash of
 the chain's newest visible row, and inserts a row naming it. Row numbers come from a
 sequence that is never rolled back. A writer that is given no transaction runs every
 statement on its own: its lock is gone when the statement ends.
 */
module AuditWriters {
  import opened Basics
  import opened AuditChain

  type TxId = nat

  datatype Phase = Idle | Locked(org: Org) | HasRead(org: Org, prev: Option<string>)
  datatype Writer = Writer(inTx: bool, phase: Phase, held: set<int>, pending: seq<Row>)
  datatype Db = Db(committed: seq<Row>, nextSeq: int, writers: map<TxId, Writer>)

  datatype Step =
    | Begin(t: TxId, inTx: bool)
    | TakeLock(t: TxId, org: Org)
    | ReadPrev(t: TxId)
    | Insert(t: TxId, content: Content)
    | Commit(t: TxId)
    | Abort(t: TxId)
    | SkipNumber

  /** The digest, and `hashtext`, which may map two chains to one lock. */
  datatype Env = Env(digest: Digest, lockOf: Org -> int)

  function OfOrg(rows: seq<Row>, org: Org): seq<Row> {
    if |rows| == 0 then []
    else
      var init, row := rows[..|rows| - 1], rows[|rows| - 1];
      if row.content.org == org then OfOrg(init, org) + [row] else OfOrg(init, org)
  }

  /** A statement sees what is committed and what its own transaction has written. */
  function Visible(db: Db, w: Writer, org: Org): seq<Row> {
    OfOrg(db.committed, org) + OfOrg(w.pending, org)
  }

  /** The row with the largest number: order by seq descending, limit 1. */
  function Newest(rows: seq<Row>): Option<Row> {
    if |rows| == 0 then None
    else
      var best, row := Newest(rows[..|rows| - 1]), rows[|rows| - 1];
      if best.Some? && best.value.seqNo > row.seqNo then best else Some(row)
  }

  lemma {:induction false} NewestIsGreatest(rows: seq<Row>)
    requires |rows| > 0
    ensures Newest(rows).Some? && Newest(rows).value in rows
    ensures forall i :: 0 <= i < |rows| ==> rows[i].seqNo <= Newest(rows).value.seqNo
  {
    if |rows| > 1 {
      NewestIsGreatest(rows[..|rows| - 1]);
    }
  }

  function HashOf(row: Option<Row>): Option<string> {
    if row.Some? then Some(row.value.hash) else None
  }

  predicate Enabled(env: Env, db: Db, step: Step) {
    match step
    case Begin(t, _) => t !in db.writers
    case TakeLock(t, org) =>
      && t in db.writers && db.writers[t].phase.Idle?
      && forall u :: u in db.writers && u != t ==> env.lockOf(org) !in db.writers[u].held
    case ReadPrev(t) => t in db.writers && db.writers[t].phase.Locked?
    case Insert(t, content) =>
      t in db.writers && db.writers[t].phase.HasRead? && content.org == db.writers[t].phase.org
    case Commit(t) => t in db.writers
    case Abort(t) => t in db.writers
    case SkipNumber => true
  }

  function NewRow(env: Env, db: Db, prev: Option<string>, content: Content): Row {
    Row(db.nextSeq, content, prev, env.digest(prev, content))
  }

  function Next(env: Env, db: Db, step: Step): Db
    requires Enabled(env, db, step)
  {
    match step
    case Begin(t, inTx) => db.(writers := db.writers[t := Writer(inTx, Idle, {}, [])])
    case TakeLock(t, org) =>
      var w := db.writers[t];
      var held := if w.inTx then w.held + {env.lockOf(org)} else w.held;
      db.(writers := db.writers[t := w.(phase := Locked(org), held := held)])
    case ReadPrev(t) =>
      var w := db.writers[t];
      var org := w.phase.org;
      db.(writers := db.writers[t := w.(phase := HasRead(org, HashOf(Newest(Visible(db, w, org)))))])
    case Insert(t, content) =>
      var w := db.writers[t];
      var row := NewRow(env, db, w.phase.prev, content);
      if w.inTx then
        Db(db.committed, db.nextSeq + 1, db.writers[t := w.(phase := Idle, pending := w.pending + [row])])
      else
        Db(db.committed + [row], db.nextSeq + 1, db.writers[t := w.(phase := Idle)])
    case Commit(t) => Db(db.committed + db.writers[t].pending, db.nextSeq, db.writers - {t})
    case Abort(t) => db.(writers := db.writers - {t})
    case SkipNumber => db.(nextSeq := db.nextSeq + 1)
  }

  ghost predicate Possible(env: Env, steps: seq<Step>)
    decreases |steps|, 0
  {
    |steps| > 0 ==>
      && Possible(env, steps[..|steps| - 1])
      && Enabled(env, After(env, steps[..|steps| - 1]), steps[|steps| - 1])
  }

  ghost function After(env: Env, steps: seq<Step>): Db
    requires Possible(env, steps)
    decreases |steps|, 1
  {
    if |steps| == 0 then Db([], 0, map[])
    else Next(env, After(env, steps[..|steps| - 1]), steps[|steps| - 1])
  }

  /** Every writer was given a transaction. */
  predicate AllInTx(steps: seq<Step>) {
    forall i :: 0 <= i < |steps| && steps[i].Begin? ==> steps[i].inTx
  }

  // ----- chains that are in order

  ghost predicate Good(env: Env, next: int, rows: seq<Row>) {
    && Ascending(rows)
    && Verifies(env.digest, rows)
    && forall i :: 0 <= i < |rows| ==> rows[i].seqNo < next
  }

  function LastHash(rows: seq<Row>): Option<string> {
    if |rows| == 0 then None else Some(rows[|rows| - 1].hash)
  }

  lemma GoodEmpty(env: Env, next: int)
    ensures Good(env, next, [])
  {
  }

  lemma GoodLater(env: Env, next: int, later: int, rows: seq<Row>)
    requires Good(env, next, rows) && next <= later
    ensures Good(env, later, rows)
  {
  }

  lemma GoodAppend(env: Env, next: int, rows: seq<Row>, row: Row)
    requires Good(env, next, rows) && row.seqNo == next
    requires Linked(env.digest, row, LastHash(rows))
    ensures Good(env, next + 1, rows + [row])
  {
    hide Linked, Verifies;
    VerifiesAppend(env.digest, rows, row);
  }

  lemma VerifiesAppend(h: Digest, rows: seq<Row>, row: Row)
    requires Verifies(h, rows) && Linked(h, row, LastHash(rows))
    ensures Verifies(h, rows + [row])
  {
    hide Linked;
    var more := rows + [row];
    forall i | 0 <= i < |more|
      ensures Linked(h, more[i], Before(more, i, None))
    {
      if i < |rows| {
        assert Linked(h, rows[i], Before(rows, i, None));
      }
    }
  }

  lemma {:induction false} NewestIsLast(rows: seq<Row>)
    requires Ascending(rows)
    ensures HashOf(Newest(rows)) == LastHash(rows)
    ensures |rows| > 0 ==> Newest(rows) == Some(rows[|rows| - 1])
  {
    if |rows| > 0 {
      NewestIsLast(rows[..|rows| - 1]);
    }
  }

  lemma {:induction false} OfOrgAppend(a: seq<Row>, b: seq<Row>, org: Org)
    ensures OfOrg(a + b, org) == OfOrg(a, org) + OfOrg(b, org)
  {
    if |b| == 0 {
      assert a + b == a;
    } else {
      var init, row := b[..|b| - 1], b[|b| - 1];
      assert (a + b)[..|a + b| - 1] == a + init;
      OfOrgAppend(a, init, org);
    }
  }

  lemma OfOrgOne(row: Row, org: Org)
    ensures OfOrg([row], org) == if row.content.org == org then [row] else []
  {
  }

  // ----- the invariant

  ghost predicate WriterOk(env: Env, db: Db, w: Writer) {
    && w.inTx
    && (forall org :: Good(env, db.nextSeq, Visible(db, w, org)))
    && (forall org :: OfOrg(w.pending, org) != [] ==> env.lockOf(org) in w.held)
    && (!w.phase.Idle? ==> env.lockOf(w.phase.org) in w.held)
    && (w.phase.HasRead? ==> w.phase.prev == LastHash(Visible(db, w, w.phase.org)))
  }

  ghost predicate Inv(env: Env, db: Db) {
    && (forall org :: Good(env, db.nextSeq, OfOrg(db.committed, org)))
    && (forall t :: t in db.writers ==> WriterOk(env, db, db.writers[t]))
    && (forall t, u :: t in db.writers && u in db.writers && t != u ==> db.writers[t].held !! db.writers[u].held)
  }

  lemma LaterOk(env: Env, db: Db, db': Db, w: Writer)
    requires WriterOk(env, db, w) && db'.committed == db.committed && db.nextSeq <= db'.nextSeq
    ensures WriterOk(env, db', w)
  {
    forall org ensures Good(env, db'.nextSeq, Visible(db', w, org)) {
      assert Visible(db', w, org) == Visible(db, w, org);
      GoodLater(env, db.nextSeq, db'.nextSeq, Visible(db, w, org));
    }
  }

  lemma CommittedLater(env: Env, db: Db, db': Db)
    requires db'.committed == db.committed && db.nextSeq <= db'.nextSeq
    requires forall org :: Good(env, db.nextSeq, OfOrg(db.committed, org))
    ensures forall org :: Good(env, db'.nextSeq, OfOrg(db'.committed, org))
  {
    forall org ensures Good(env, db'.nextSeq, OfOrg(db'.committed, org)) {
      GoodLater(env, db.nextSeq, db'.nextSeq, OfOrg(db.committed, org));
    }
  }

  lemma BeginStep(env: Env, db: Db, t: TxId)
    requires Inv(env, db) && t !in db.writers
    ensures Inv(env, Next(env, db, Begin(t, true)))
  {
    hide Good;
    var w := Writer(true, Idle, {}, []);
    forall org ensures Visible(db, w, org) == OfOrg(db.committed, org) {
    }
    var db' := Next(env, db, Begin(t, true));
    forall u | u in db'.writers ensures WriterOk(env, db', db'.writers[u]) {
      if u != t {
        LaterOk(env, db, db', db.writers[u]);
      }
    }
  }

  lemma LockStep(env: Env, db: Db, t: TxId, org: Org)
    requires Inv(env, db) && Enabled(env, db, TakeLock(t, org))
    ensures Inv(env, Next(env, db, TakeLock(t, org)))
  {
    hide Good;
    var db' := Next(env, db, TakeLock(t, org));
    forall u | u in db'.writers ensures WriterOk(env, db', db'.writers[u]) {
      LaterOk(env, db, db', db.writers[u]);
      if u == t {
        assert forall o :: Visible(db', db'.writers[t], o) == Visible(db, db.writers[t], o);
      }
    }
  }

  lemma ReadStep(env: Env, db: Db, t: TxId)
    requires Inv(env, db) && Enabled(env, db, ReadPrev(t))
    ensures Inv(env, Next(env, db, ReadPrev(t)))
  {
    var db' := Next(env, db, ReadPrev(t));
    var w := db.writers[t];
    assert Good(env, db.nextSeq, Visible(db, w, w.phase.org));
    NewestIsLast(Visible(db, w, w.phase.org));
    hide Good;
    forall u | u in db'.writers ensures WriterOk(env, db', db'.writers[u]) {
      LaterOk(env, db, db', db.writers[u]);
      if u == t {
        assert forall o :: Visible(db', db'.writers[t], o) == Visible(db, w, o);
      }
    }
  }

  /** The row an insert adds continues exactly the chain it is for. */
  lemma InsertExtends(env: Env, db: Db, w: Writer, content: Content, org: Org)
    requires WriterOk(env, db, w) && w.phase.HasRead? && content.org == w.phase.org
    ensures var row := NewRow(env, db, w.phase.prev, content);
            var w' := w.(phase := Idle, pending := w.pending + [row]);
            && Good(env, db.nextSeq + 1, OfOrg(db.committed, org) + OfOrg(w'.pending, org))
            && (OfOrg(w'.pending, org) != [] ==> env.lockOf(org) in w.held)
  {
    var row := NewRow(env, db, w.phase.prev, content);
    var seen := Visible(db, w, org);
    OfOrgAppend(w.pending, [row], org);
    OfOrgOne(row, org);
    assert Good(env, db.nextSeq, seen);
    if content.org == org {
      assert OfOrg(db.committed, org) + (OfOrg(w.pending, org) + [row]) == seen + [row];
      GoodAppend(env, db.nextSeq, seen, row);
    } else {
      assert OfOrg(w.pending, org) + [] == OfOrg(w.pending, org);
      GoodLater(env, db.nextSeq, db.nextSeq + 1, seen);
    }
  }

  lemma InsertStep(env: Env, db: Db, t: TxId, content: Content)
    requires Inv(env, db) && Enabled(env, db, Insert(t, content))
    ensures Inv(env, Next(env, db, Insert(t, content)))
  {
    hide Good;
    var db' := Next(env, db, Insert(t, content));
    CommittedLater(env, db, db');
    forall u | u in db'.writers ensures WriterOk(env, db', db'.writers[u]) {
      if u == t {
        forall org
          ensures Good(env, db'.nextSeq, Visible(db', db'.writers[t], org))
          ensures OfOrg(db'.writers[t].pending, org) != [] ==> env.lockOf(org) in db'.writers[t].held
        {
          InsertExtends(env, db, db.writers[t], content, org);
        }
      } else {
        LaterOk(env, db, db', db.writers[u]);
      }
    }
  }

  /** Committing one writer's rows leaves every other writer's view in order: the lock kept them apart. */
  lemma CommitKeeps(env: Env, db: Db, t: TxId, u: TxId, org: Org)
    requires Inv(env, db) && t in db.writers && u in db.writers && t != u
    ensures var committed := db.committed + db.writers[t].pending;
            var seen := OfOrg(committed, org) + OfOrg(db.writers[u].pending, org);
            && Good(env, db.nextSeq, seen)
            && (env.lockOf(org) in db.writers[u].held ==> seen == Visible(db, db.writers[u], org))
  {
    hide Good;
    var wt, wu := db.writers[t], db.writers[u];
    OfOrgAppend(db.committed, wt.pending, org);
    assert WriterOk(env, db, wt) && WriterOk(env, db, wu);
    if OfOrg(wt.pending, org) == [] {
      assert OfOrg(db.committed, org) + [] == OfOrg(db.committed, org);
      assert Good(env, db.nextSeq, Visible(db, wu, org));
    } else {
      assert env.lockOf(org) in wt.held;
      assert OfOrg(wu.pending, org) == [];
      assert Visible(db, wt, org) + [] == Visible(db, wt, org);
      assert Good(env, db.nextSeq, Visible(db, wt, org));
    }
  }

  lemma CommitStep(env: Env, db: Db, t: TxId)
    requires Inv(env, db) && Enabled(env, db, Commit(t))
    ensures Inv(env, Next(env, db, Commit(t)))
  {
    hide Good;
    var db' := Next(env, db, Commit(t));
    forall org ensures Good(env, db'.nextSeq, OfOrg(db'.committed, org)) {
      OfOrgAppend(db.committed, db.writers[t].pending, org);
      assert Good(env, db.nextSeq, Visible(db, db.writers[t], org));
    }
    forall u | u in db'.writers ensures WriterOk(env, db', db'.writers[u]) {
      var w := db.writers[u];
      assert WriterOk(env, db, w);
      forall org ensures Good(env, db'.nextSeq, Visible(db', w, org)) {
        CommitKeeps(env, db, t, u, org);
      }
      if !w.phase.Idle? {
        CommitKeeps(env, db, t, u, w.phase.org);
      }
    }
  }

  lemma AbortStep(env: Env, db: Db, t: TxId)
    requires Inv(env, db) && Enabled(env, db, Abort(t))
    ensures Inv(env, Next(env, db, Abort(t)))
  {
    hide Good;
    var db' := Next(env, db, Abort(t));
    forall u | u in db'.writers ensures WriterOk(env, db', db'.writers[u]) {
      LaterOk(env, db, db', db.writers[u]);
    }
  }

  lemma SkipStep(env: Env, db: Db)
    requires Inv(env, db)
    ensures Inv(env, Next(env, db, SkipNumber))
  {
    hide Good;
    var db' := Next(env, db, SkipNumber);
    CommittedLater(env, db, db');
    forall u | u in db'.writers ensures WriterOk(env, db', db'.writers[u]) {
      LaterOk(env, db, db', db.writers[u]);
    }
  }

  lemma InvStep(env: Env, db: Db, step: Step)
    requires Inv(env, db) && Enabled(env, db, step) && (step.Begin? ==> step.inTx)
    ensures Inv(env, Next(env, db, step))
  {
    hide Inv;
    match step
    case Begin(t, _) => BeginStep(env, db, t);
    case TakeLock(t, org) => LockStep(env, db, t, org);
    case ReadPrev(t) => ReadStep(env, db, t);
    case Insert(t, content) => InsertStep(env, db, t, content);
    case Commit(t) => CommitStep(env, db, t);
    case Abort(t) => AbortStep(env, db, t);
    case SkipNumber => SkipStep(env, db);
  }

  lemma {:induction false} InvRun(env: Env, steps: seq<Step>)
    requires Possible(env, steps) && AllInTx(steps)
    ensures Inv(env, After(env, steps))
  {
    if |steps| > 0 {
      hide Inv, Enabled, Next;
      InvRun(env, steps[..|steps| - 1]);
      InvStep(env, After(env, steps[..|steps| - 1]), steps[|steps| - 1]);
    } else {
      forall org: Org ensures Good(env, 0, OfOrg([], org)) {
        GoodEmpty(env, 0);
      }
    }
  }

  // ----- what every interleaving leaves behind

  /** A list of the chain's committed rows in the order of their numbers. */
  ghost predicate InOrder(db: Db, org: Org, rows: seq<Row>) {
    Ascending(rows) && forall r :: r in rows <==> r in db.committed && r.content.org == org
  }

  lemma {:induction false} OfOrgMembers(rows: seq<Row>, org: Org, r: Row)
    ensures r in OfOrg(rows, org) <==> r in rows && r.content.org == org
  {
    if |rows| > 0 {
      var init, last := rows[..|rows| - 1], rows[|rows| - 1];
      OfOrgMembers(init, org, r);
      assert rows == init + [last];
    }
  }

  /** In an ascending list the last row has the largest number, and it alone. */
  lemma LastIsLargest(rows: seq<Row>, r: Row)
    requires Ascending(rows) && |rows| > 0 && r in rows
    ensures r.seqNo <= rows[|rows| - 1].seqNo && (r.seqNo == rows[|rows| - 1].seqNo ==> r == rows[|rows| - 1])
  {
    var i :| 0 <= i < |rows| && rows[i] == r;
  }

  lemma InitMembers(rows: seq<Row>, r: Row)
    requires Ascending(rows) && |rows| > 0
    ensures r in rows[..|rows| - 1] <==> r in rows && r != rows[|rows| - 1]
  {
    var init := rows[..|rows| - 1];
    assert rows == init + [rows[|rows| - 1]];
    if r in init {
      var i :| 0 <= i < |init| && init[i] == r;
      assert rows[i].seqNo < rows[|rows| - 1].seqNo;
    }
  }

  lemma SomeMember(rows: seq<Row>)
    ensures rows == [] || exists r :: r in rows
  {
    if rows != [] {
      assert rows[0] in rows;
    }
  }

  /** There is only one ascending list of given rows. */
  lemma {:induction false} AscendingUnique(a: seq<Row>, b: seq<Row>)
    requires Ascending(a) && Ascending(b) && forall r :: r in a <==> r in b
    ensures a == b
  {
    if |a| == 0 {
      SomeMember(b);
    } else {
      var x, a' := a[|a| - 1], a[..|a| - 1];
      assert x in b;
      var y, b' := b[|b| - 1], b[..|b| - 1];
      LastIsLargest(a, y);
      LastIsLargest(b, x);
      forall r ensures r in a' <==> r in b' {
        InitMembers(a, r);
        InitMembers(b, r);
      }
      assert Ascending(a') && Ascending(b');
      AscendingUnique(a', b');
      assert a == a' + [x] && b == b' + [y];
    }
  }

  /**
   However the transactions interleave: the committed rows of every chain, read in the
   order of their numbers, verify.
   */
  lemma {:induction false} CommittedChainsVerify(env: Env, steps: seq<Step>, org: Org, rows: seq<Row>)
    requires Possible(env, steps) && AllInTx(steps) && InOrder(After(env, steps), org, rows)
    ensures Continue(env.digest, rows, None, 0).verdict == Intact(|rows|)
  {
    var db := After(env, steps);
    InvRun(env, steps);
    var chain := OfOrg(db.committed, org);
    assert Good(env, db.nextSeq, chain);
    forall r ensures r in rows <==> r in chain {
      OfOrgMembers(db.committed, org, r);
    }
    AscendingUnique(rows, chain);
    IntactIsVerified(env.digest, rows, None, 0);
  }

  /** No previous hash is used twice, unless two rows of the chain hash alike. */
  lemma PrevUsedOnce(env: Env, steps: seq<Step>, org: Org, rows: seq<Row>, i: nat, j: nat)
    requires Possible(env, steps) && AllInTx(steps) && InOrder(After(env, steps), org, rows)
    requires i < j < |rows| && rows[i].prev == rows[j].prev
    ensures 0 < i && rows[i - 1].hash == rows[j - 1].hash
  {
    hide Possible, After;
    CommittedChainsVerify(env, steps, org, rows);
    IntactIsVerified(env.digest, rows, None, 0);
    assert Linked(env.digest, rows[i], Before(rows, i, None));
    assert Linked(env.digest, rows[j], Before(rows, j, None));
  }

  lemma OneMore(env: Env, steps: seq<Step>, step: Step)
    requires Possible(env, steps) && Enabled(env, After(env, steps), step)
    ensures Possible(env, steps + [step]) && After(env, steps + [step]) == Next(env, After(env, steps), step)
    ensures Modes(steps + [step]) == Modes(steps) + if step.Begin? then {step.inTx} else {}
  {
    hide Enabled, Next;
    ModesMore(steps, step);
    assert (steps + [step])[..|steps|] == steps;
  }

  /**
   Without a transaction the lock ends with its statement: two such writers can both read
   the empty chain, and the chain they leave behind does not verify.
   */
  lemma NoTransactionNoChain(env: Env, a: Content, b: Content) returns (steps: seq<Step>)
    requires a.org == b.org
    ensures Possible(env, steps) && Modes(steps) == {false}
    ensures var rows := After(env, steps).committed;
            InOrder(After(env, steps), a.org, rows)
            && Continue(env.digest, rows, None, 0).verdict == BrokenAt(1, 1, PrevMismatch)
  {
    var org := a.org;
    steps := Started(env, org);
    OneMore(env, steps, ReadPrev(1));
    steps := steps + [ReadPrev(1)];
    OneMore(env, steps, ReadPrev(2));
    steps := steps + [ReadPrev(2)];
    OneMore(env, steps, Insert(1, a));
    steps := steps + [Insert(1, a)];
    OneMore(env, steps, Insert(2, b));
    steps := steps + [Insert(2, b)];
    var rows := After(env, steps).committed;
    assert rows == [Row(0, a, None, env.digest(None, a)), Row(1, b, None, env.digest(None, b))];
    assert rows[1..] == [Row(1, b, None, env.digest(None, b))];
  }

  lemma Started(env: Env, org: Org) returns (steps: seq<Step>)
    ensures Possible(env, steps) && Modes(steps) == {false}
    ensures After(env, steps) ==
            Db([], 0, map[1 := Writer(false, Locked(org), {}, []), 2 := Writer(false, Locked(org), {}, [])])
  {
    steps := [];
    OneMore(env, steps, Begin(1, false));
    steps := steps + [Begin(1, false)];
    OneMore(env, steps, Begin(2, false));
    steps := steps + [Begin(2, false)];
    OneMore(env, steps, TakeLock(1, org));
    steps := steps + [TakeLock(1, org)];
    OneMore(env, steps, TakeLock(2, org));
    steps := steps + [TakeLock(2, org)];
  }

  // ----- exactly when every chain verifies

  /** How the writers of a run were called: with a transaction (true) or without. */
  function Modes(steps: seq<Step>): set<bool> {
    set step | step in steps && step.Begin? :: step.inTx
  }

  lemma ModesMore(steps: seq<Step>, step: Step)
    ensures Modes(steps + [step]) == Modes(steps) + if step.Begin? then {step.inTx} else {}
  {
    assert forall x :: x in steps + [step] <==> x in steps || x == step;
    if step.Begin? {
      assert step in steps + [step];
    }
    forall m | m in Modes(steps)
      ensures m in Modes(steps + [step])
    {
      var x :| x in steps && x.Begin? && x.inTx == m;
      assert x in steps + [step];
    }
  }

  /** Whatever run the callers produce, all its committed chains verify. */
  ghost predicate AlwaysVerifies(env: Env, modes: set<bool>) {
    forall steps, org, rows :: VerifiesAfter(env, modes, steps, org, rows)
  }

  ghost predicate VerifiesAfter(env: Env, modes: set<bool>, steps: seq<Step>, org: Org, rows: seq<Row>) {
    Possible(env, steps) && Modes(steps) <= modes && InOrder(After(env, steps), org, rows) ==>
      Continue(env.digest, rows, None, 0).verdict == Intact(|rows|)
  }

  /**
   For the modes callers use: every run's chains verify if and only if nobody passes a
   connection without a transaction.
   */
  lemma ChainsVerifyExactly(env: Env, modes: set<bool>)
    ensures AlwaysVerifies(env, modes) <==> false !in modes
  {
    hide Possible, After, Continue, InOrder;
    if false in modes {
      var content := Content("", None, "");
      var steps := NoTransactionNoChain(env, content, content);
      assert !VerifiesAfter(env, modes, steps, None, After(env, steps).committed);
    } else {
      forall steps, org, rows
        ensures VerifiesAfter(env, modes, steps, org, rows)
      {
        if Possible(env, steps) && Modes(steps) <= modes && InOrder(After(env, steps), org, rows) {
          TransactionsOnly(steps, modes);
          CommittedChainsVerify(env, steps, org, rows);
        }
      }
    }
  }

  lemma TransactionsOnly(steps: seq<Step>, modes: set<bool>)
    requires Modes(steps) <= modes && false !in modes
    ensures AllInTx(steps)
  {
    forall i | 0 <= i < |steps| && steps[i].Begin?
      ensures steps[i].inTx
    {
      assert steps[i] in steps;
      assert steps[i].inTx in Modes(steps);
    }
  }
}
