/**
 The minutely job that brings the agent in line with the database (lib/jobs/site-tunnels.ts):
 it applies every tunnel that is wanted, removes those that are not, and in the end those the
 database does not know. A tunnel that clashes with another one's present form is refused and
 tried again a minute later. Here: what one round does, and where the rounds lead. For rows as
 the application writes them, which never change a tunnel once it exists, two rounds are always
 enough; for rows of any other origin the exact condition is that no tunnels wait for one another.
 */
module TunnelJobs {
  import opened Basics
  import opened Networks
  import opened Tunnels

  /** A row of the database; a removed one counts by its id alone. */
  datatype Row = Row(spec: Spec, removed: bool)

  // ----- one round

  ghost predicate Accepted(m: Specs, hostNets: seq<Net>, spec: Spec) {
    SpecAllowed(spec) && !HostClash(spec, hostNets) && Fits(m, spec)
  }

  /** What one row does to the specifications. */
  ghost function AfterRow(m: Specs, hostNets: seq<Net>, row: Row): Specs {
    if row.removed then m - {row.spec.id}
    else if Accepted(m, hostNets, row.spec) then m[row.spec.id := row.spec]
    else m
  }

  ghost function AfterRows(m: Specs, hostNets: seq<Net>, rows: seq<Row>): Specs {
    if |rows| == 0 then m
    else AfterRow(AfterRows(m, hostNets, rows[..|rows| - 1]), hostNets, rows[|rows| - 1])
  }

  function Ids(rows: seq<Row>): set<string> {
    set row | row in rows :: row.spec.id
  }

  /** The whole round: the rows, then everything unknown goes. */
  ghost function AfterJob(m: Specs, hostNets: seq<Net>, rows: seq<Row>): Specs {
    var m' := AfterRows(m, hostNets, rows);
    m' - (m'.Keys - Ids(rows))
  }

  /**
   One round on the agent. Whatever was refused, tables and files stay reconciled; and tables
   that were emptied behind the agent's back are full again once every tunnel it keeps was
   applied in this round.
   */
  method RunJob(agent: NetzAgent, rows: seq<Row>) returns (applied: set<string>)
    requires agent.Valid()
    modifies agent`specs, agent`order, agent.host
    ensures agent.Valid() && (old(agent.Reconciled()) ==> agent.Reconciled())
    ensures agent.specs == AfterJob(old(agent.specs), agent.hostNets, rows)
    ensures old(agent.host.loaded == agent.host.confs) && agent.specs.Keys <= applied ==> agent.Reconciled()
    ensures forall id :: id in applied ==> exists k :: 0 <= k < |rows| && !rows[k].removed && rows[k].spec.id == id
  {
    hide Demand, Share, ConfsOf, Swapped, HostClash, SpecAllowed, Consistent, Fits;
    applied := {};
    for i := 0 to |rows|
      invariant agent.Valid() && (old(agent.Reconciled()) ==> agent.Reconciled())
      invariant agent.specs == AfterRows(old(agent.specs), agent.hostNets, rows[..i])
      invariant old(agent.host.loaded == agent.host.confs) ==> agent.host.loaded == agent.host.confs
      invariant Covered(agent.specs, applied, agent.host.Now())
      invariant forall id :: id in applied ==> exists k :: 0 <= k < i && !rows[k].removed && rows[k].spec.id == id
    {
      assert rows[..i + 1][..i] == rows[..i];
      var row := rows[i];
      ghost var m, t := agent.specs, agent.host.Now();
      if row.removed {
        var known := agent.Remove(row.spec.id);
        applied := applied - {row.spec.id};
        CoveredWithout(m, applied, t, row.spec.id);
      } else {
        var r := agent.Apply(row.spec);
        if r.Ok? {
          CoveredWith(m, applied, t, row.spec);
          applied := applied + {row.spec.id};
        }
      }
    }
    assert rows[..|rows|] == rows;
    RemoveUnknown(agent, Ids(rows), applied);
    if agent.specs.Keys <= applied {
      CoveredIsDemand(agent.specs, agent.host.Now());
    }
  }

  /** These tunnels' entries are all in the tables. */
  ghost predicate Covered(m: Specs, ids: set<string>, t: Tables) {
    forall id :: id in ids && id in m ==> Within(Share(m[id]), t)
  }

  lemma CoveredWithout(m: Specs, ids: set<string>, t: Tables, id: string)
    requires Consistent(m) && Covered(m, ids, t) && id !in ids
    ensures Covered(m - {id}, ids, if id in m then Minus(t, Share(m[id])) else t)
  {
    hide Consistent, Share;
    forall other | other in ids && other in m && id in m
      ensures Within(Share(m[other]), Minus(t, Share(m[id])))
    {
      SharesDisjoint(m, other, id);
    }
  }

  lemma CoveredWith(m: Specs, ids: set<string>, t: Tables, spec: Spec)
    requires Consistent(m) && Covered(m, ids, t)
    ensures Covered(m[spec.id := spec], ids + {spec.id}, Swapped(t, Before(m, spec.id), spec))
  {
    hide Consistent, Share;
    forall other | other in ids && other in m && other != spec.id
      ensures Within(Share(m[other]), Swapped(t, Before(m, spec.id), spec))
    {
      if spec.id in m {
        SharesDisjoint(m, other, spec.id);
      }
    }
  }

  lemma SharesDisjoint(m: Specs, a: string, b: string)
    requires Consistent(m) && a in m && b in m && a != b
    ensures var x, y := Share(m[a]), Share(m[b]);
            x.peers !! y.peers && x.nets !! y.nets && x.routes !! y.routes
  {
    SharesApart(m[a], m[b]);
  }

  /** The second loop of the job: what the agent reports and the database does not know. */
  method RemoveUnknown(agent: NetzAgent, known: set<string>, applied: set<string>)
    requires agent.Valid() && Covered(agent.specs, applied, agent.host.Now()) && applied <= known
    modifies agent`specs, agent`order, agent.host
    ensures agent.Valid() && (old(agent.Reconciled()) ==> agent.Reconciled())
    ensures agent.specs == old(agent.specs) - (old(agent.specs).Keys - known)
    ensures old(agent.host.loaded == agent.host.confs) ==> agent.host.loaded == agent.host.confs
    ensures Covered(agent.specs, applied, agent.host.Now())
  {
    hide Demand, Share, ConfsOf, Swapped, Consistent;
    var reported := agent.order;
    for i := 0 to |reported|
      invariant agent.Valid() && (old(agent.Reconciled()) ==> agent.Reconciled())
      invariant old(agent.host.loaded == agent.host.confs) ==> agent.host.loaded == agent.host.confs
      invariant agent.specs == old(agent.specs) - (Elements(reported[..i]) - known)
      invariant Covered(agent.specs, applied, agent.host.Now())
    {
      assert Elements(reported[..i + 1]) == Elements(reported[..i]) + {reported[i]} by {
        assert reported[..i + 1] == reported[..i] + [reported[i]];
      }
      if reported[i] !in known {
        CoveredWithout(agent.specs, applied, agent.host.Now(), reported[i]);
        var gone := agent.Remove(reported[i]);
      }
    }
    assert reported[..|reported|] == reported;
  }

  // ----- round after round

  /** The rows ask for exactly these tunnels, which go together. */
  ghost predicate Lists(rows: seq<Row>, wanted: Specs) {
    && Consistent(wanted)
    && (forall k :: 0 <= k < |rows| ==> AsksFor(rows[k], wanted))
    && (forall id :: id in wanted ==> exists k :: 0 <= k < |rows| && rows[k] == Row(wanted[id], false))
  }

  predicate AsksFor(row: Row, wanted: Specs) {
    if row.removed then row.spec.id !in wanted
    else row.spec.id in wanted && wanted[row.spec.id] == row.spec
  }

  /** No wanted tunnel covers a network the machine has itself. */
  ghost predicate HostFree(wanted: Specs, hostNets: seq<Net>) {
    forall id :: id in wanted ==> !HostClash(wanted[id], hostNets)
  }

  /** The tunnels that are not yet as wanted. */
  ghost function Stale(m: Specs, wanted: Specs): set<string> {
    set id | id in wanted && (id !in m || m[id] != wanted[id])
  }

  /** The present form of `b` stands in the way of the wanted form of `a`. */
  ghost predicate Blocks(m: Specs, wanted: Specs, b: string, a: string) {
    a in wanted && b in m && b != a && !Compatible(m[b], wanted[a])
  }

  /** Every wanted tunnel stays known, and every tunnel is as it was or as wanted. */
  ghost predicate Between(m: Specs, wanted: Specs, m': Specs) {
    && Consistent(m')
    && (forall id :: id in m && id in wanted ==> id in m')
    && (forall id :: id in m' ==> (id in wanted && m'[id] == wanted[id]) || (id in m && m'[id] == m[id]))
  }

  /** What is not blocked by a present form is not blocked by a wanted one either. */
  lemma UnblockedFits(m: Specs, wanted: Specs, m': Specs, a: string)
    requires Consistent(wanted) && Between(m, wanted, m') && a in wanted
    requires forall b :: !Blocks(m, wanted, b, a)
    ensures Fits(m', wanted[a])
  {
    hide Compatible, SpecAllowed;
    forall id | id in m' && id != wanted[a].id
      ensures Compatible(m'[id], wanted[a])
    {
      if !(id in wanted && m'[id] == wanted[id]) {
        assert !Blocks(m, wanted, id, a);
      }
    }
  }

  lemma SomeConsistent(m: Specs, gone: set<string>)
    requires Consistent(m)
    ensures Consistent(m - gone)
  {
    hide Compatible, SpecAllowed;
  }

  lemma RowBetween(m: Specs, wanted: Specs, m': Specs, hostNets: seq<Net>, row: Row)
    requires Consistent(wanted) && Between(m, wanted, m') && AsksFor(row, wanted)
    ensures Between(m, wanted, AfterRow(m', hostNets, row))
  {
    hide Compatible, SpecAllowed, HostClash, Fits, Consistent;
    if row.removed {
      SomeConsistent(m', {row.spec.id});
    } else if Accepted(m', hostNets, row.spec) {
      FitsKeepsConsistent(m', row.spec);
    }
  }

  lemma {:induction false} RowsBetween(m: Specs, wanted: Specs, hostNets: seq<Net>, rows: seq<Row>)
    requires Consistent(m) && Consistent(wanted)
    requires forall k :: 0 <= k < |rows| ==> AsksFor(rows[k], wanted)
    ensures Between(m, wanted, AfterRows(m, hostNets, rows))
  {
    hide Consistent, AfterRow, Between;
    if |rows| == 0 {
      NothingChanged(m, wanted);
    } else {
      var init := rows[..|rows| - 1];
      RowsBetween(m, wanted, hostNets, init);
      RowBetween(m, wanted, AfterRows(m, hostNets, init), hostNets, rows[|rows| - 1]);
    }
  }

  lemma NothingChanged(m: Specs, wanted: Specs)
    requires Consistent(m)
    ensures Between(m, wanted, m)
  {
  }

  lemma WantedId(wanted: Specs, id: string)
    requires Consistent(wanted) && id in wanted
    ensures wanted[id].id == id && SpecAllowed(wanted[id])
  {
  }

  lemma WantedIsListed(wanted: Specs, rows: seq<Row>, id: string) returns (k: nat)
    requires Lists(rows, wanted) && id in wanted
    ensures k < |rows| && rows[k] == Row(wanted[id], false) && id in Ids(rows)
  {
    hide Consistent;
    k :| 0 <= k < |rows| && rows[k] == Row(wanted[id], false);
    assert rows[k] in rows;
    WantedId(wanted, id);
  }

  /** A tunnel nobody wants is gone once a row, or the second loop, has come to it. */
  lemma {:induction false} UnwantedGone(m: Specs, wanted: Specs, hostNets: seq<Net>, rows: seq<Row>, id: string)
    requires id !in wanted && id in Ids(rows) && forall k :: 0 <= k < |rows| ==> AsksFor(rows[k], wanted)
    ensures id !in AfterRows(m, hostNets, rows)
  {
    hide Accepted;
    var init, last := rows[..|rows| - 1], rows[|rows| - 1];
    if last.spec.id != id {
      assert id in Ids(init) by {
        var row :| row in rows && row.spec.id == id;
        assert rows == init + [last];
      }
      UnwantedGone(m, wanted, hostNets, init, id);
    } else {
      assert AsksFor(last, wanted);
    }
  }

  /** A round leaves only wanted tunnels, each as it was or as wanted. */
  lemma RoundBetween(m: Specs, wanted: Specs, hostNets: seq<Net>, rows: seq<Row>)
    requires Consistent(m) && Lists(rows, wanted)
    ensures Between(m, wanted, AfterJob(m, hostNets, rows))
    ensures AfterJob(m, hostNets, rows).Keys <= wanted.Keys
  {
    hide Consistent, AfterRows, Ids;
    RowsBetween(m, wanted, hostNets, rows);
    var m' := AfterRows(m, hostNets, rows);
    SomeConsistent(m', m'.Keys - Ids(rows));
    forall id | id in wanted
      ensures id in Ids(rows)
    {
      var k := WantedIsListed(wanted, rows, id);
    }
    forall id | id in AfterJob(m, hostNets, rows)
      ensures id in wanted
    {
      if id !in wanted {
        UnwantedGone(m, wanted, hostNets, rows, id);
      }
    }
  }

  /** A tunnel that is as wanted stays so. */
  lemma RowKeeps(m: Specs, wanted: Specs, hostNets: seq<Net>, row: Row, a: string)
    requires AsksFor(row, wanted) && a in wanted && a in m && m[a] == wanted[a]
    ensures a in AfterRow(m, hostNets, row) && AfterRow(m, hostNets, row)[a] == wanted[a]
  {
  }

  /** A tunnel that nothing blocks is as wanted once its row was reached. */
  lemma {:induction false} UnblockedSettles(m: Specs, wanted: Specs, hostNets: seq<Net>, rows: seq<Row>, a: string,
                                            k: nat)
    requires Consistent(m) && Consistent(wanted)
    requires forall i :: 0 <= i < |rows| ==> AsksFor(rows[i], wanted)
    requires a in wanted && k < |rows| && rows[k] == Row(wanted[a], false) && !HostClash(wanted[a], hostNets)
    requires forall b :: !Blocks(m, wanted, b, a)
    ensures var m' := AfterRows(m, hostNets, rows);
            a in m' && m'[a] == wanted[a]
  {
    hide Consistent, Between, Blocks, HostClash, SpecAllowed, Fits;
    var init, last := rows[..|rows| - 1], rows[|rows| - 1];
    var before := AfterRows(m, hostNets, init);
    if k < |init| {
      UnblockedSettles(m, wanted, hostNets, init, a, k);
      RowKeeps(before, wanted, hostNets, last, a);
    } else {
      RowsBetween(m, wanted, hostNets, init);
      UnblockedFits(m, wanted, before, a);
      WantedId(wanted, a);
    }
  }

  /** A round makes nothing stale, and settles every tunnel that nothing blocks and the host allows. */
  lemma RoundSettles(m: Specs, wanted: Specs, hostNets: seq<Net>, rows: seq<Row>)
    requires Consistent(m) && Lists(rows, wanted)
    ensures var m' := AfterJob(m, hostNets, rows);
            && Stale(m', wanted) <= Stale(m, wanted)
            && forall a :: a in wanted && !HostClash(wanted[a], hostNets) && (forall b :: !Blocks(m, wanted, b, a)) ==>
                 a !in Stale(m', wanted)
  {
    hide Consistent, AfterRows, HostClash, Blocks, Ids;
    RoundBetween(m, wanted, hostNets, rows);
    forall a | a in wanted && !HostClash(wanted[a], hostNets) && (forall b :: !Blocks(m, wanted, b, a))
      ensures a !in Stale(AfterJob(m, hostNets, rows), wanted)
    {
      var k := WantedIsListed(wanted, rows, a);
      UnblockedSettles(m, wanted, hostNets, rows, a, k);
    }
  }

  ghost function AfterJobs(m: Specs, hostNets: seq<Net>, rows: seq<Row>, n: nat): Specs
    decreases n
  {
    if n == 0 then m else AfterJobs(AfterJob(m, hostNets, rows), hostNets, rows, n - 1)
  }

  // ----- tunnels that never change

  /** What the agent knows of the wanted tunnels is what is wanted. */
  ghost predicate Agrees(m: Specs, wanted: Specs) {
    forall id :: id in m && id in wanted ==> m[id] == wanted[id]
  }

  /** The wanted tunnels the agent can have: not on the machine's own networks, or there already. */
  ghost function Attainable(m: Specs, wanted: Specs, hostNets: seq<Net>): Specs {
    map id | id in wanted && (id in m || !HostClash(wanted[id], hostNets)) :: wanted[id]
  }

  lemma AgreedBetween(m: Specs, wanted: Specs, m': Specs)
    requires Agrees(m, wanted) && Between(m, wanted, m') && m'.Keys <= wanted.Keys
    ensures Agrees(m', wanted) && forall id :: id in m && id in wanted ==> id in m'
  {
    hide Consistent;
  }

  /** A refused row changes nothing: what the host does not allow only stays where it is. */
  lemma {:induction false} HostClashStays(m: Specs, wanted: Specs, hostNets: seq<Net>, rows: seq<Row>, id: string)
    requires id in wanted && HostClash(wanted[id], hostNets)
    requires forall k :: 0 <= k < |rows| ==> AsksFor(rows[k], wanted)
    ensures id in AfterRows(m, hostNets, rows) ==> id in m
  {
    hide HostClash, SpecAllowed, Fits;
    if |rows| > 0 {
      HostClashStays(m, wanted, hostNets, rows[..|rows| - 1], id);
    }
  }

  /** With only wanted tunnels left, one round gets all that can be had. */
  lemma AgreedRound(m: Specs, wanted: Specs, hostNets: seq<Net>, rows: seq<Row>)
    requires Consistent(m) && Lists(rows, wanted) && Agrees(m, wanted) && m.Keys <= wanted.Keys
    ensures AfterJob(m, hostNets, rows) == Attainable(m, wanted, hostNets)
  {
    hide HostClash, Ids, Compatible, SpecAllowed, AfterRows;
    var m' := AfterJob(m, hostNets, rows);
    RoundBetween(m, wanted, hostNets, rows);
    RoundSettles(m, wanted, hostNets, rows);
    AgreedBetween(m, wanted, m');
    forall id | id in wanted
      ensures id in m' <==> id in m || !HostClash(wanted[id], hostNets)
    {
      if HostClash(wanted[id], hostNets) {
        HostClashStays(m, wanted, hostNets, rows, id);
      } else {
        forall b
          ensures !Blocks(m, wanted, b, id)
        {
        }
        assert id !in Stale(m', wanted);
      }
    }
  }

  /** All that can be had is as much after a round as before it. */
  lemma AttainableStays(m: Specs, wanted: Specs, hostNets: seq<Net>, rows: seq<Row>)
    requires Consistent(m) && Lists(rows, wanted) && Agrees(m, wanted)
    ensures var m' := AfterJob(m, hostNets, rows);
            && Consistent(m') && Agrees(m', wanted) && m'.Keys <= wanted.Keys
            && Attainable(m', wanted, hostNets) == Attainable(m, wanted, hostNets)
  {
    hide HostClash, Ids, Consistent, AfterRows;
    var m' := AfterJob(m, hostNets, rows);
    RoundBetween(m, wanted, hostNets, rows);
    AgreedBetween(m, wanted, m');
    forall id | id in wanted && HostClash(wanted[id], hostNets)
      ensures id in m' <==> id in m
    {
      HostClashStays(m, wanted, hostNets, rows, id);
    }
  }

  /**
   For tunnels that never change, two rounds bring the agent from any state to exactly the
   wanted tunnels that can be had, and further rounds leave it there.
   */
  lemma {:induction false} JobSettles(m: Specs, wanted: Specs, hostNets: seq<Net>, rows: seq<Row>, n: nat)
    requires Consistent(m) && Lists(rows, wanted) && Agrees(m, wanted)
    requires n >= 2 || (n == 1 && m.Keys <= wanted.Keys)
    ensures AfterJobs(m, hostNets, rows, n) == Attainable(m, wanted, hostNets)
    ensures HostFree(wanted, hostNets) ==> AfterJobs(m, hostNets, rows, n) == wanted
    decreases n
  {
    hide Consistent, AfterJob, Lists, Agrees, Attainable, HostFree;
    if HostFree(wanted, hostNets) {
      AllAttainable(m, wanted, hostNets);
    }
    var m' := AfterJob(m, hostNets, rows);
    AttainableStays(m, wanted, hostNets, rows);
    if n == 1 {
      AgreedRound(m, wanted, hostNets, rows);
      NoMoreJobs(m', hostNets, rows);
    } else {
      JobSettles(m', wanted, hostNets, rows, n - 1);
    }
  }

  lemma NoMoreJobs(m: Specs, hostNets: seq<Net>, rows: seq<Row>)
    ensures AfterJobs(m, hostNets, rows, 0) == m
  {
  }

  lemma AllAttainable(m: Specs, wanted: Specs, hostNets: seq<Net>)
    requires HostFree(wanted, hostNets)
    ensures Attainable(m, wanted, hostNets) == wanted
  {
    hide HostClash;
  }

  // ----- rows of any other origin: tunnels that wait for one another

  /** Stale tunnels each of which is blocked by one of them: each waits for another. */
  ghost predicate Knot(m: Specs, wanted: Specs, ids: set<string>) {
    && ids != {} && ids <= Stale(m, wanted)
    && forall a :: a in ids ==> Waits(m, wanted, ids, a)
  }

  ghost predicate Waits(m: Specs, wanted: Specs, ids: set<string>, a: string) {
    exists b :: b in ids && Blocks(m, wanted, b, a)
  }

  /** What blocks a wanted form is itself not as wanted. */
  lemma BlockerIsStale(m: Specs, wanted: Specs, b: string, a: string)
    requires Consistent(wanted) && m.Keys <= wanted.Keys && Blocks(m, wanted, b, a)
    ensures b in Stale(m, wanted)
  {
    hide SpecAllowed;
  }

  /** Without a knot something is not blocked. */
  lemma NoKnotMoves(m: Specs, wanted: Specs)
    requires Consistent(wanted) && m.Keys <= wanted.Keys && Stale(m, wanted) != {}
    requires !Knot(m, wanted, Stale(m, wanted))
    ensures exists a :: a in Stale(m, wanted) && forall b :: !Blocks(m, wanted, b, a)
  {
    hide Blocks, Consistent, Stale;
    var a :| a in Stale(m, wanted) && !Waits(m, wanted, Stale(m, wanted), a);
    forall b
      ensures !Blocks(m, wanted, b, a)
    {
      if Blocks(m, wanted, b, a) {
        BlockerIsStale(m, wanted, b, a);
      }
    }
  }

  /** The tunnels of a group are the same before and after. */
  ghost predicate Unmoved(m: Specs, m': Specs, ids: set<string>) {
    forall id :: id in ids ==> (id in m' <==> id in m) && (id in m ==> m'[id] == m[id])
  }

  lemma KnotOfUnmoved(m: Specs, m': Specs, wanted: Specs, ids: set<string>)
    requires Knot(m, wanted, ids) && Unmoved(m, m', ids)
    ensures Knot(m', wanted, ids)
  {
    hide Waits;
    forall a | a in ids
      ensures Waits(m', wanted, ids, a)
    {
      WaitsUnmoved(m, m', wanted, ids, a);
    }
  }

  lemma WaitsUnmoved(m: Specs, m': Specs, wanted: Specs, ids: set<string>, a: string)
    requires Waits(m, wanted, ids, a) && Unmoved(m, m', ids)
    ensures Waits(m', wanted, ids, a)
  {
    hide Compatible;
    var b :| b in ids && Blocks(m, wanted, b, a);
    assert Blocks(m', wanted, b, a);
  }

  /** A row of a tunnel that waits for an unmoved one is refused. */
  lemma WaitingIsRefused(m: Specs, m': Specs, wanted: Specs, hostNets: seq<Net>, ids: set<string>, row: Row)
    requires Waits(m, wanted, ids, row.spec.id) && Unmoved(m, m', ids) && AsksFor(row, wanted)
    ensures AfterRow(m', hostNets, row) == m'
  {
    hide Compatible, SpecAllowed, HostClash;
    var b :| b in ids && Blocks(m, wanted, b, row.spec.id);
    assert b in m' && m'[b] == m[b];
    assert row.removed || !Fits(m', row.spec);
  }

  lemma {:induction false} KnotHolds(m: Specs, wanted: Specs, hostNets: seq<Net>, rows: seq<Row>, ids: set<string>)
    requires Knot(m, wanted, ids) && forall i :: 0 <= i < |rows| ==> AsksFor(rows[i], wanted)
    ensures Unmoved(m, AfterRows(m, hostNets, rows), ids)
  {
    hide Waits, Accepted, Stale;
    if |rows| > 0 {
      var init, row := rows[..|rows| - 1], rows[|rows| - 1];
      KnotHolds(m, wanted, hostNets, init, ids);
      if row.spec.id in ids {
        WaitingIsRefused(m, AfterRows(m, hostNets, init), wanted, hostNets, ids, row);
      }
    }
  }

  /** What is stale after a round was so before, and has not moved. */
  lemma StaleUnmoved(m: Specs, wanted: Specs, m': Specs, ids: set<string>)
    requires Between(m, wanted, m') && ids <= Stale(m', wanted)
    ensures Unmoved(m, m', ids) && Unmoved(m', m, ids) && ids <= Stale(m, wanted)
  {
    hide Consistent;
  }

  /** A round neither ties a knot nor loosens one. */
  lemma KnotsStay(m: Specs, wanted: Specs, hostNets: seq<Net>, rows: seq<Row>, ids: set<string>)
    requires Consistent(m) && Lists(rows, wanted)
    ensures Knot(m, wanted, ids) <==> Knot(AfterJob(m, hostNets, rows), wanted, ids)
  {
    hide Consistent, AfterRows, Between, Waits, Stale, Ids;
    var m' := AfterJob(m, hostNets, rows);
    RoundBetween(m, wanted, hostNets, rows);
    if Knot(m, wanted, ids) {
      KnotHolds(m, wanted, hostNets, rows, ids);
      WantedKnown(m, wanted, hostNets, rows, ids);
      KnotOfUnmoved(m, m', wanted, ids);
    }
    if Knot(m', wanted, ids) {
      StaleUnmoved(m, wanted, m', ids);
      KnotOfUnmoved(m', m, wanted, ids);
    }
  }

  /** The second loop does not touch wanted tunnels. */
  lemma WantedKnown(m: Specs, wanted: Specs, hostNets: seq<Net>, rows: seq<Row>, ids: set<string>)
    requires Lists(rows, wanted) && ids <= Stale(m, wanted) && Unmoved(m, AfterRows(m, hostNets, rows), ids)
    ensures Unmoved(m, AfterJob(m, hostNets, rows), ids)
  {
    hide Consistent, AfterRows, Ids;
    forall id | id in ids
      ensures id in Ids(rows)
    {
      var k := WantedIsListed(wanted, rows, id);
    }
  }

  /** Without a knot every round settles something, so as many rounds do as tunnels are stale. */
  lemma {:induction false} RoundsSettle(m: Specs, wanted: Specs, hostNets: seq<Net>, rows: seq<Row>, n: nat)
    requires Consistent(m) && m.Keys <= wanted.Keys && Lists(rows, wanted) && HostFree(wanted, hostNets)
    requires (forall ids :: !Knot(m, wanted, ids)) && |Stale(m, wanted)| <= n
    ensures AfterJobs(m, hostNets, rows, n) == wanted
    decreases n
  {
    hide Consistent, AfterRows, AfterJob, HostClash, Knot, Blocks;
    if n == 0 {
      assert Stale(m, wanted) == {};
      NothingStale(m, wanted);
    } else {
      var m' := AfterJob(m, hostNets, rows);
      RoundBetween(m, wanted, hostNets, rows);
      RoundSettles(m, wanted, hostNets, rows);
      forall ids
        ensures !Knot(m', wanted, ids)
      {
        KnotsStay(m, wanted, hostNets, rows, ids);
      }
      if Stale(m, wanted) != {} {
        NoKnotMoves(m, wanted);
        var a :| a in Stale(m, wanted) && forall b :: !Blocks(m, wanted, b, a);
        Fewer(Stale(m', wanted), Stale(m, wanted), a);
      }
      RoundsSettle(m', wanted, hostNets, rows, n - 1);
    }
  }

  lemma NothingStale(m: Specs, wanted: Specs)
    requires m.Keys <= wanted.Keys && Stale(m, wanted) == {}
    ensures m == wanted
  {
    forall id | id in wanted
      ensures id in m && m[id] == wanted[id]
    {
      assert id !in Stale(m, wanted);
    }
  }

  lemma Fewer(small: set<string>, large: set<string>, x: string)
    requires small <= large && x in large && x !in small
    ensures |small| < |large|
  {
    assert small <= large - {x};
    Subset(small, large - {x});
  }

  lemma Subset(small: set<string>, large: set<string>)
    requires small <= large
    ensures |small| <= |large|
  {
    assert large == small + (large - small);
  }

  lemma KnotIsStale(m: Specs, wanted: Specs, ids: set<string>)
    requires Knot(m, wanted, ids)
    ensures m != wanted
  {
    hide Waits;
    var a :| a in ids;
  }

  /** With a knot no number of rounds gets there. */
  lemma {:induction false} KnotsNeverSettle(m: Specs, wanted: Specs, hostNets: seq<Net>, rows: seq<Row>,
                                            ids: set<string>, n: nat)
    requires Consistent(m) && Lists(rows, wanted) && Knot(m, wanted, ids)
    ensures AfterJobs(m, hostNets, rows, n) != wanted
    decreases n
  {
    hide Consistent, AfterRows, AfterJob, HostClash, Waits, Knot, Lists;
    if n == 0 {
      KnotIsStale(m, wanted, ids);
    } else {
      RoundBetween(m, wanted, hostNets, rows);
      KnotsStay(m, wanted, hostNets, rows, ids);
      KnotsNeverSettle(AfterJob(m, hostNets, rows), wanted, hostNets, rows, ids, n - 1);
    }
  }

  /**
   From any state of the agent, and for wanted tunnels off the machine's own networks: rounds
   get there if and only if no group of tunnels waits for one another, and then one more round
   than tunnels were not as wanted is enough.
   */
  lemma JobConvergesExactly(m: Specs, wanted: Specs, hostNets: seq<Net>, rows: seq<Row>)
    requires Consistent(m) && Lists(rows, wanted) && HostFree(wanted, hostNets)
    ensures (exists n: nat :: n > 0 && AfterJobs(m, hostNets, rows, n) == wanted)
            <==> forall ids :: !Knot(m, wanted, ids)
    ensures (forall ids :: !Knot(m, wanted, ids)) ==>
              AfterJobs(m, hostNets, rows, |Stale(m, wanted)| + 1) == wanted
  {
    hide Consistent, Lists, Knot, Stale, AfterJobs, AfterJob, HostFree, Between;
    if forall ids :: !Knot(m, wanted, ids) {
      var m' := AfterJob(m, hostNets, rows);
      RoundBetween(m, wanted, hostNets, rows);
      BetweenConsistent(m, wanted, m');
      forall ids
        ensures !Knot(m', wanted, ids)
      {
        KnotsStay(m, wanted, hostNets, rows, ids);
      }
      RoundSettles(m, wanted, hostNets, rows);
      Subset(Stale(m', wanted), Stale(m, wanted));
      RoundsSettle(m', wanted, hostNets, rows, |Stale(m, wanted)|);
      OneRoundOn(m, hostNets, rows, |Stale(m, wanted)|);
    } else {
      var ids :| Knot(m, wanted, ids);
      forall n: nat
        ensures AfterJobs(m, hostNets, rows, n) != wanted
      {
        KnotsNeverSettle(m, wanted, hostNets, rows, ids, n);
      }
    }
  }

  lemma BetweenConsistent(m: Specs, wanted: Specs, m': Specs)
    requires Between(m, wanted, m')
    ensures Consistent(m')
  {
  }

  lemma OneRoundOn(m: Specs, hostNets: seq<Net>, rows: seq<Row>, n: nat)
    ensures AfterJobs(m, hostNets, rows, n + 1) == AfterJobs(AfterJob(m, hostNets, rows), hostNets, rows, n)
  {
  }
}
