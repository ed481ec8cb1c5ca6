/**
 How tunnels come into the database (lib/db/site-tunnels.ts, lib/site-tunnels/rules.ts): the
 plan checks the customer's networks against everything taken, and gives a transfer network
 where they collide. A tunnel is written once and never changed. Here: what the plan lets in
 the agent accepts and it fits with all active tunnels, and so, whatever was created, retired,
 forgotten and half done before, the job settles.
 */
module SitePlans {
  import opened Basics
  import opened Networks
  import opened Tunnels
  import opened TunnelJobs

  const MAX_TUNNELS_PER_ORG := 5

  /** What the customer may not use: the service's own networks and the transfer pool. */
  const RESERVED_ALL: seq<Net> := RESERVED + [Net(Ip(10, 20, 0, 0), 16)]

  // ----- the customer's networks

  /** The network with its host bits cleared, as `parseCidr` reads it. */
  function Normal(n: Net): Net {
    Net(CutTo(n.base, Span(n.prefix)), n.prefix)
  }

  /** The largest multiple of `m` up to `x`. */
  function CutTo(x: nat, m: nat): (r: nat)
    requires m > 0
    ensures r <= x < r + m
  {
    SmallRest(x, m);
    x - x % m
  }

  lemma SmallRest(x: nat, m: nat)
    requires m > 0
    ensures x % m <= x
  {
    Scale(m, 0, x / m);
  }

  lemma CutIsMultiple(x: nat, m: nat)
    requires m > 0
    ensures CutTo(x, m) % m == 0
  {
    Multiple(x / m, m);
    assert CutTo(x, m) == m * (x / m);
  }

  function Normals(input: seq<Net>): seq<Net> {
    seq(|input|, i requires 0 <= i < |input| => Normal(input[i]))
  }

  predicate IsPrivate(n: Net) {
    exists i :: 0 <= i < |PRIVATE_V4| && RangeWithin(n, PRIVATE_V4[i])
  }

  predicate Readable(n: Net) {
    n.prefix <= 32 && n.base < ADDRESSES
  }

  predicate Plannable(input: seq<Net>) {
    && 0 < |input| <= MAX_SITE_NETS
    && (forall i :: 0 <= i < |input| ==>
          Readable(input[i]) && IsPrivate(Normal(input[i])) && input[i].prefix >= MIN_NET_PREFIX)
    && Apart(Normals(input))
  }

  predicate Collides(n: Net, others: seq<Net>) {
    exists k :: 0 <= k < |others| && RangesOverlap(others[k], n)
  }

  /** Some network collides with a reserved or a taken one. */
  predicate Conflicting(nets: seq<Net>, taken: seq<Net>) {
    exists i :: 0 <= i < |nets| && (Collides(nets[i], RESERVED_ALL) || Collides(nets[i], taken))
  }

  /** `checkCustomerNets`: the networks in normal form, and whether any is in conflict. */
  method CheckCustomerNets(input: seq<Net>, taken: seq<Net>) returns (r: Result<(seq<Net>, bool), string>)
    ensures r.Ok? <==> Plannable(input)
    ensures r.Ok? ==> r.value.0 == Normals(input) && (r.value.1 <==> Conflicting(Normals(input), taken))
  {
    hide RangesOverlap, IsPrivate, Normal;
    if |input| == 0 || |input| > MAX_SITE_NETS {
      return Err("net_count");
    }
    var ranges: seq<Net> := [];
    for k := 0 to |input|
      invariant ranges == Normals(input)[..k]
      invariant forall i :: 0 <= i < k ==>
                  Readable(input[i]) && IsPrivate(Normal(input[i])) && input[i].prefix >= MIN_NET_PREFIX
      invariant Apart(ranges)
    {
      var n := Normal(input[k]);
      if !Readable(input[k]) {
        return Err("net_invalid");
      }
      if !IsPrivate(n) {
        return Err("net_not_private");
      }
      if input[k].prefix < MIN_NET_PREFIX {
        return Err("net_too_large");
      }
      var double := Overlaps(n, ranges);
      assert Normals(input)[k] == n;
      if double {
        return Err("net_duplicate");
      }
      assert Normals(input)[..k + 1] == ranges + [n];
      ranges := ranges + [n];
    }
    assert Normals(input)[..|input|] == Normals(input);
    var conflict := false;
    for k := 0 to |ranges|
      invariant conflict <==>
                  exists i :: 0 <= i < k && (Collides(ranges[i], RESERVED_ALL) || Collides(ranges[i], taken))
    {
      var reserved := Overlaps(ranges[k], RESERVED_ALL);
      var used := Overlaps(ranges[k], taken);
      conflict := conflict || reserved || used;
    }
    return Ok((ranges, conflict));
  }

  // ----- the transfer network

  function Candidate(n: nat, prefix: nat): Net {
    Net(Ip(10, 20, n, 0), prefix)
  }

  predicate Free(n: nat, own: Net, taken: seq<Net>) {
    && !RangesOverlap(Candidate(n, own.prefix), own)
    && !Collides(Candidate(n, own.prefix), taken)
  }

  /** The first free network of the pool from number `n` on. */
  function FirstFree(n: nat, own: Net, taken: seq<Net>): (r: Option<Net>)
    requires n <= 255
    ensures r.Some? ==> exists k :: n <= k <= 254 && r.value == Candidate(k, own.prefix) && Free(k, own, taken)
                                    && forall j :: n <= j < k ==> !Free(j, own, taken)
    ensures r.None? ==> forall k :: n <= k <= 254 ==> !Free(k, own, taken)
    decreases 255 - n
  {
    if n == 255 then None
    else if Free(n, own, taken) then Some(Candidate(n, own.prefix))
    else FirstFree(n + 1, own, taken)
  }

  function Transfer(nets: seq<Net>, taken: seq<Net>): Option<Net> {
    if |nets| != 1 || nets[0].prefix < 24 then None else FirstFree(1, nets[0], taken)
  }

  /** `transferFor` */
  method TransferFor(nets: seq<Net>, taken: seq<Net>) returns (r: Option<Net>)
    ensures r == Transfer(nets, taken)
  {
    hide RangesOverlap;
    if |nets| != 1 || nets[0].prefix < 24 {
      return None;
    }
    var n: nat := 1;
    while n <= 254
      invariant 1 <= n <= 255
      invariant FirstFree(1, nets[0], taken) == FirstFree(n, nets[0], taken)
      decreases 255 - n
    {
      var c := Candidate(n, nets[0].prefix);
      var used := Overlaps(c, taken);
      if !RangesOverlap(c, nets[0]) && !used {
        return Some(c);
      }
      n := n + 1;
    }
    return None;
  }

  // ----- the plan

  datatype Server = Server(publicIp: Option<nat>, wireguard: bool)
  datatype Request = Request(peerIp: nat, nets: seq<Net>, wireguard: bool)

  /** The networks the server will see, if the customer's can be had at all. */
  function PlannedNets(input: seq<Net>, taken: seq<Net>): Option<seq<Net>> {
    if !Plannable(input) then None
    else if !Conflicting(Normals(input), taken) then Some(Normals(input))
    else
      var transfer := Transfer(Normals(input), taken);
      if transfer.Some? then Some([transfer.value]) else None
  }

  /** `planWith`: the effective networks of the new tunnel, or why there is none. */
  method PlanWith(server: Server, q: Request, ofOrg: nat, peers: seq<nat>, taken: seq<Net>)
    returns (r: Result<seq<Net>, string>)
    ensures r.Ok? <==>
              && server.publicIp.Some? && (q.wireguard ==> server.wireguard) && ofOrg < 5
              && PeerAllowed(q.peerIp) && server.publicIp != Some(q.peerIp) && q.peerIp !in peers
              && PlannedNets(q.nets, taken).Some?
    ensures r.Ok? ==> r.value == PlannedNets(q.nets, taken).value
  {
    hide Plannable, Conflicting, Transfer, PeerAllowed, Normals;
    if server.publicIp.None? {
      return Err("site_not_configured");
    }
    if q.wireguard && !server.wireguard {
      return Err("wireguard_unavailable");
    }
    if ofOrg >= MAX_TUNNELS_PER_ORG {
      return Err("too_many_tunnels");
    }
    if !PeerAllowed(q.peerIp) {
      return Err("peer_private");
    }
    if server.publicIp == Some(q.peerIp) {
      return Err("peer_is_server");
    }
    if q.peerIp in peers {
      return Err("peer_taken");
    }
    var nets := CheckCustomerNets(q.nets, taken);
    if nets.Err? {
      return Err(nets.error);
    }
    if !nets.value.1 {
      return Ok(nets.value.0);
    }
    var transfer := TransferFor(nets.value.0, taken);
    r := if transfer.Some? then Ok([transfer.value]) else Err("net_conflict");
  }

  // ----- what is planned, the agent accepts

  lemma NormalCanonical(n: Net)
    requires Readable(n)
    ensures Canonical(Normal(n)) && Normal(n).prefix == n.prefix
  {
    hide CutTo, Span;
    CutIsMultiple(n.base, Span(n.prefix));
  }

  lemma ReservedAmongAll(n: Net)
    requires !Collides(n, RESERVED_ALL)
    ensures forall i :: 0 <= i < |RESERVED| ==> !RangesOverlap(n, RESERVED[i])
  {
    hide RangesOverlap;
    forall i | 0 <= i < |RESERVED|
      ensures !RangesOverlap(n, RESERVED[i])
    {
      assert RESERVED_ALL[i] == RESERVED[i];
      OverlapSymmetric(n, RESERVED[i]);
    }
  }

  /** The spans of a network from /24 on, and of the networks it is compared with. */
  lemma SmallSpans(prefix: nat)
    requires 24 <= prefix <= 32
    ensures 256 % Span(prefix) == 0 && Span(24) == 256 && Span(8) == 0x100_0000
  {
    assert Pow2(8) == 256;
    PowSplit(24, 8);
    PowSplit(16, 8);
    PowSplit(8, 32 - prefix);
    Multiple(Pow2(8 - (32 - prefix)), Span(prefix));
  }

  lemma Multiple(k: nat, m: nat)
    requires m > 0
    ensures m * k % m == 0
  {
    QuotientUnique(m * k, m, k);
  }

  lemma CandidateAllowed(n: nat, prefix: nat)
    requires 1 <= n <= 254 && 24 <= prefix <= 32
    ensures NetAllowed(Candidate(n, prefix))
  {
    SmallSpans(prefix);
    var c := Candidate(n, prefix);
    var m := Span(prefix);
    var k := c.base / 256;
    Multiple(256 / m * k, m);
    Associate(m, 256 / m, k);
    assert c.base == 256 * k && m * (256 / m) == 256;
    assert RangeWithin(c, PRIVATE_V4[0]);
    forall i | 0 <= i < |RESERVED|
      ensures !RangesOverlap(c, RESERVED[i])
    {
      assert RESERVED[i].prefix == 24;
    }
  }

  lemma TransferFree(nets: seq<Net>, taken: seq<Net>) returns (k: nat)
    requires Transfer(nets, taken).Some?
    ensures 1 <= k <= 254 && |nets| == 1 && nets[0].prefix >= 24
    ensures Transfer(nets, taken).value == Candidate(k, nets[0].prefix) && Free(k, nets[0], taken)
  {
    hide Free;
    k :| 1 <= k <= 254 && Transfer(nets, taken).value == Candidate(k, nets[0].prefix) && Free(k, nets[0], taken);
  }

  /** Planned networks pass the agent's own check, and overlap nothing that was taken. */
  lemma PlannedAllowed(input: seq<Net>, taken: seq<Net>)
    requires PlannedNets(input, taken).Some?
    ensures NetsAllowed(PlannedNets(input, taken).value)
    ensures forall i, k :: 0 <= i < |PlannedNets(input, taken).value| && 0 <= k < |taken| ==>
              !RangesOverlap(taken[k], PlannedNets(input, taken).value[i])
  {
    hide RangesOverlap, RangeWithin, Canonical, Transfer, CutTo, Ip;
    var nets := Normals(input);
    forall i | 0 <= i < |nets|
      ensures Canonical(nets[i]) && nets[i].prefix == input[i].prefix
    {
      NormalCanonical(input[i]);
    }
    if Conflicting(nets, taken) {
      var k := TransferFree(nets, taken);
      CandidateAllowed(k, nets[0].prefix);
    } else {
      forall i | 0 <= i < |nets|
        ensures NetAllowed(nets[i])
      {
        ReservedAmongAll(nets[i]);
      }
    }
  }

  // ----- the plan by addresses

  /** Some address lies in both. */
  ghost predicate Meets(n: Net, k: Net) {
    exists x: nat :: Contains(n, x) && Contains(k, x)
  }

  /** In 10.20.*.*, where the transfer networks are. */
  predicate PoolAddress(x: nat) {
    x / 0x1_0000 == 10 * 256 + 20
  }

  /** The normal form has the addresses that begin with the same bits. */
  lemma NormalAddresses(n: Net, x: nat)
    requires Readable(n)
    ensures Contains(Normal(n), x) <==> x / Span(n.prefix) == n.base / Span(n.prefix)
  {
    hide CutTo, Span, Contains;
    NormalCanonical(n);
    ContainsIsPrefix(Normal(n), x);
    CutQuotient(n.base, Span(n.prefix));
  }

  lemma CutQuotient(x: nat, m: nat)
    requires m > 0
    ensures CutTo(x, m) / m == x / m
  {
    assert CutTo(x, m) == m * (x / m);
    QuotientUnique(CutTo(x, m), m, x / m);
  }

  lemma IsPrivateExactly(n: Net)
    requires Canonical(n) && n.prefix >= 16
    ensures IsPrivate(n) <==> forall x: nat :: Contains(n, x) ==> PrivateAddress(x)
  {
    hide Contains, PrivateAddress, RangeWithin;
    KnownCanonical();
    if IsPrivate(n) {
      var i :| 0 <= i < |PRIVATE_V4| && RangeWithin(n, PRIVATE_V4[i]);
      forall x: nat | Contains(n, x)
        ensures PrivateAddress(x)
      {
        WithinIsContained(n, PRIVATE_V4[i], x);
        PrivateExactly(x);
      }
    } else if forall x: nat :: Contains(n, x) ==> PrivateAddress(x) {
      ContainsBase(n);
      WithinPrivate(n);
    }
  }

  /**
   A plan takes one to eight networks of an office, from /16 to /32, with private addresses alone
   and no address in two of them.
   */
  lemma PlannableExactly(input: seq<Net>)
    ensures Plannable(input) <==>
              && 1 <= |input| <= 8
              && (forall i :: 0 <= i < |input| ==>
                    && 16 <= input[i].prefix <= 32 && input[i].base < 0x1_0000_0000
                    && forall x: nat :: Contains(Normal(input[i]), x) ==> PrivateAddress(x))
              && (forall i, j :: 0 <= i < j < |input| ==> !Meets(Normal(input[i]), Normal(input[j])))
  {
    hide Contains, PrivateAddress, RangesOverlap, IsPrivate, Normal;
    forall i | 0 <= i < |input| && Readable(input[i]) && input[i].prefix >= 16
      ensures Canonical(Normal(input[i]))
      ensures IsPrivate(Normal(input[i])) <==> forall x: nat :: Contains(Normal(input[i]), x) ==> PrivateAddress(x)
    {
      NormalCanonical(input[i]);
      IsPrivateExactly(Normal(input[i]));
    }
    forall i, j | 0 <= i < j < |input| && Canonical(Normal(input[i])) && Canonical(Normal(input[j]))
      ensures RangesOverlap(Normals(input)[i], Normals(input)[j]) <==> Meets(Normal(input[i]), Normal(input[j]))
    {
      OverlapIsShared(Normal(input[i]), Normal(input[j]));
    }
  }

  lemma PoolExactly(x: nat)
    ensures Contains(RESERVED_ALL[3], x) <==> PoolAddress(x)
    ensures Canonical(RESERVED_ALL[3])
  {
    hide Contains, Span, Ip;
    Spans();
    Quotients(10, 20, 0, 0);
    PoolCanonical();
    ContainsIsPrefix(RESERVED_ALL[3], x);
  }

  lemma PoolCanonical()
    ensures Canonical(RESERVED_ALL[3])
  {
    Spans();
  }

  lemma ReservedExactly(n: Net)
    requires Canonical(n)
    ensures Collides(n, RESERVED_ALL) <==> exists x: nat :: Contains(n, x) && (ServiceAddress(x) || PoolAddress(x))
  {
    hide Contains, ServiceAddress, PoolAddress, RangesOverlap, Canonical;
    KnownCanonical();
    PoolExactly(0);
    forall k | 0 <= k < |RESERVED_ALL|
      ensures RangesOverlap(RESERVED_ALL[k], n) <==> exists x: nat :: Contains(RESERVED_ALL[k], x) && Contains(n, x)
    {
      assert k < 3 ==> RESERVED_ALL[k] == RESERVED[k];
      OverlapIsShared(RESERVED_ALL[k], n);
    }
    forall x: nat
      ensures (exists k :: 0 <= k < |RESERVED_ALL| && Contains(RESERVED_ALL[k], x)) <==>
                ServiceAddress(x) || PoolAddress(x)
    {
      ServiceExactly(x);
      PoolExactly(x);
      assert forall k :: 0 <= k < 3 ==> RESERVED_ALL[k] == RESERVED[k];
    }
  }

  /** Some address of the network is the service's, in the pool or taken. */
  ghost predicate Blocked(n: Net, taken: seq<Net>) {
    exists x: nat :: Contains(n, x) && (ServiceAddress(x) || PoolAddress(x) ||
                                        exists k :: 0 <= k < |taken| && Contains(taken[k], x))
  }

  /** A network has to make way exactly when it is blocked. */
  lemma ConflictExactly(n: Net, taken: seq<Net>)
    requires Canonical(n) && forall k :: 0 <= k < |taken| ==> Canonical(taken[k])
    ensures Collides(n, RESERVED_ALL) || Collides(n, taken) <==> Blocked(n, taken)
  {
    hide Contains, ServiceAddress, PoolAddress, RangesOverlap, Canonical;
    ReservedExactly(n);
    forall k | 0 <= k < |taken|
      ensures RangesOverlap(taken[k], n) <==> exists x: nat :: Contains(taken[k], x) && Contains(n, x)
    {
      OverlapIsShared(taken[k], n);
    }
  }

  /** 10.20.k.0 in the size of the office's network, apart from that network and all taken ones. */
  ghost predicate Vacant(k: nat, own: Net, taken: seq<Net>) {
    var c := Net(Ip(10, 20, k, 0), own.prefix);
    !Meets(c, own) && forall i :: 0 <= i < |taken| ==> !Meets(c, taken[i])
  }

  lemma VacantExactly(k: nat, own: Net, taken: seq<Net>)
    requires 1 <= k <= 254 && 24 <= own.prefix && Canonical(own)
    requires forall i :: 0 <= i < |taken| ==> Canonical(taken[i])
    ensures Free(k, own, taken) <==> Vacant(k, own, taken)
  {
    hide Contains, RangesOverlap, Canonical, NetAllowed;
    var c := Candidate(k, own.prefix);
    assert own.prefix <= 32 by { CanonicalPrefix(own); }
    CandidateAllowed(k, own.prefix);
    AllowedIsCanonical(c);
    OverlapIsShared(c, own);
    forall i | 0 <= i < |taken|
      ensures RangesOverlap(taken[i], c) <==> Meets(c, taken[i])
    {
      OverlapIsShared(c, taken[i]);
      OverlapSymmetric(c, taken[i]);
    }
  }

  lemma CanonicalPrefix(n: Net)
    requires Canonical(n)
    ensures n.prefix <= 32
  {
  }

  /**
   A transfer network is the first vacant one of the 254 in the pool; there is one for a single
   network from /24 on when any is vacant.
   */
  lemma TransferExactly(nets: seq<Net>, taken: seq<Net>)
    requires forall i :: 0 <= i < |nets| ==> Canonical(nets[i])
    requires forall i :: 0 <= i < |taken| ==> Canonical(taken[i])
    ensures Transfer(nets, taken).Some? <==>
              |nets| == 1 && nets[0].prefix >= 24 && exists k :: 1 <= k <= 254 && Vacant(k, nets[0], taken)
    ensures Transfer(nets, taken).Some? ==>
              exists k :: 1 <= k <= 254 && Vacant(k, nets[0], taken)
                          && Transfer(nets, taken).value == Net(Ip(10, 20, k, 0), nets[0].prefix)
                          && forall j :: 1 <= j < k ==> !Vacant(j, nets[0], taken)
  {
    hide Canonical, Free, Vacant;
    if |nets| == 1 && nets[0].prefix >= 24 {
      forall k | 1 <= k <= 254
        ensures Free(k, nets[0], taken) <==> Vacant(k, nets[0], taken)
      {
        VacantExactly(k, nets[0], taken);
      }
      hide FirstFree;
    }
  }

  /**
   A plan succeeds if and only if the office's networks can be taken, and either none is blocked,
   then they stay as they are, or there is one from /24 on and a vacant place in the pool.
   */
  lemma PlannedExactly(input: seq<Net>, taken: seq<Net>)
    requires forall i :: 0 <= i < |taken| ==> Canonical(taken[i])
    ensures var blocked := exists i :: 0 <= i < |input| && Blocked(Normal(input[i]), taken);
            var r := PlannedNets(input, taken);
            && (r.Some? <==>
                  Plannable(input)
                  && (blocked ==> |input| == 1 && input[0].prefix >= 24
                                  && exists k :: 1 <= k <= 254 && Vacant(k, Normal(input[0]), taken)))
            && (r.Some? && !blocked ==> r.value == Normals(input))
            && (r.Some? && blocked ==>
                  exists k :: 1 <= k <= 254 && Vacant(k, Normal(input[0]), taken)
                              && r.value == [Net(Ip(10, 20, k, 0), input[0].prefix)])
  {
    hide Canonical, Blocked, Vacant, Normal, Collides, IsPrivate, RangesOverlap, Transfer, Ip;
    if Plannable(input) {
      var nets := Normals(input);
      forall i | 0 <= i < |input|
        ensures Canonical(nets[i]) && nets[i].prefix == input[i].prefix
        ensures Collides(nets[i], RESERVED_ALL) || Collides(nets[i], taken) <==> Blocked(Normal(input[i]), taken)
      {
        NormalCanonical(input[i]);
        ConflictExactly(nets[i], taken);
      }
      TransferExactly(nets, taken);
    }
  }

  // ----- the database, the agent and everything between them

  /** `created` remembers every tunnel there ever was. */
  datatype System = System(created: Specs, rows: seq<Row>, agent: Specs)

  datatype Step =
    | Create(spec: Spec, q: Request)   // a new row, under a fresh id
    | Retire(k: nat)                   // removed in the application
    | Forget(k: nat)                   // gone from the job's list: removed by the agent, or with its organisation
    | AgentApplies(id: string)         // a job, however late, applies a row it read
    | AgentRemoves(id: string)         // a job removes a tunnel

  function TakenNets(rows: seq<Row>): seq<Net> {
    if |rows| == 0 then []
    else
      var last := rows[|rows| - 1];
      TakenNets(rows[..|rows| - 1]) + if last.removed then [] else last.spec.nets
  }

  predicate Enabled(sys: System, step: Step) {
    match step
    case Create(spec, q) =>
      && spec.id !in sys.created
      && PeerAllowed(q.peerIp) && spec.peerIp == q.peerIp
      && (forall k :: 0 <= k < |sys.rows| && !sys.rows[k].removed ==> sys.rows[k].spec.peerIp != q.peerIp)
      && PlannedNets(q.nets, TakenNets(sys.rows)) == Some(spec.nets)
    case Retire(k) => k < |sys.rows| && !sys.rows[k].removed
    case Forget(k) => k < |sys.rows|
    case AgentApplies(id) => id in sys.created
    case AgentRemoves(id) => true
  }

  ghost function Next(hostNets: seq<Net>, sys: System, step: Step): System
    requires Enabled(sys, step)
  {
    match step
    case Create(spec, _) => sys.(created := sys.created[spec.id := spec], rows := sys.rows + [Row(spec, false)])
    case Retire(k) => sys.(rows := sys.rows[k := sys.rows[k].(removed := true)])
    case Forget(k) => sys.(rows := sys.rows[..k] + sys.rows[k + 1..])
    case AgentApplies(id) => sys.(agent := AfterRow(sys.agent, hostNets, Row(sys.created[id], false)))
    case AgentRemoves(id) => sys.(agent := sys.agent - {id})
  }

  ghost predicate RowsOk(created: Specs, rows: seq<Row>) {
    && (forall k :: 0 <= k < |rows| ==> rows[k].spec.id in created && created[rows[k].spec.id] == rows[k].spec)
    && (forall i, k :: 0 <= i < k < |rows| ==> rows[i].spec.id != rows[k].spec.id)
    && (forall i, k :: 0 <= i < k < |rows| && !rows[i].removed && !rows[k].removed ==>
          Compatible(rows[i].spec, rows[k].spec))
  }

  ghost predicate Inv(sys: System) {
    && (forall id :: id in sys.created ==> sys.created[id].id == id && SpecAllowed(sys.created[id]))
    && RowsOk(sys.created, sys.rows)
    && Consistent(sys.agent)
    && (forall id :: id in sys.agent ==> id in sys.created && sys.created[id] == sys.agent[id])
  }

  /** The networks of every active row are taken. */
  lemma {:induction false} ActiveTaken(rows: seq<Row>, k: nat, i: nat) returns (j: nat)
    requires k < |rows| && !rows[k].removed && i < |rows[k].spec.nets|
    ensures j < |TakenNets(rows)| && TakenNets(rows)[j] == rows[k].spec.nets[i]
  {
    var init := rows[..|rows| - 1];
    if k < |init| {
      j := ActiveTaken(init, k, i);
    } else {
      j := |TakenNets(init)| + i;
    }
  }

  /** A planned tunnel goes together with every active one. */
  lemma PlannedFits(sys: System, spec: Spec, q: Request, k: nat)
    requires Enabled(sys, Create(spec, q)) && k < |sys.rows| && !sys.rows[k].removed
    ensures Compatible(sys.rows[k].spec, spec)
  {
    hide RangesOverlap, NetsAllowed, PlannedNets, PeerAllowed;
    var taken := TakenNets(sys.rows);
    PlannedAllowed(q.nets, taken);
    forall i, n | 0 <= i < |sys.rows[k].spec.nets| && 0 <= n < |spec.nets|
      ensures !RangesOverlap(sys.rows[k].spec.nets[i], spec.nets[n])
    {
      var j := ActiveTaken(sys.rows, k, i);
    }
  }

  lemma CreateStep(hostNets: seq<Net>, sys: System, spec: Spec, q: Request)
    requires Inv(sys) && Enabled(sys, Create(spec, q))
    ensures Inv(Next(hostNets, sys, Create(spec, q)))
  {
    hide Compatible, NetsAllowed, PlannedNets, PeerAllowed, Consistent;
    PlannedAllowed(q.nets, TakenNets(sys.rows));
    forall k | 0 <= k < |sys.rows| && !sys.rows[k].removed
      ensures Compatible(sys.rows[k].spec, spec)
    {
      PlannedFits(sys, spec, q, k);
    }
    assert SpecAllowed(spec);
  }

  lemma AgentStep(hostNets: seq<Net>, sys: System, step: Step)
    requires Inv(sys) && Enabled(sys, step) && (step.AgentApplies? || step.AgentRemoves?)
    ensures Inv(Next(hostNets, sys, step))
  {
    hide Compatible, SpecAllowed, HostClash, Fits, Consistent, RowsOk;
    if step.AgentRemoves? {
      SomeConsistent(sys.agent, {step.id});
    } else if Accepted(sys.agent, hostNets, sys.created[step.id]) {
      FitsKeepsConsistent(sys.agent, sys.created[step.id]);
    }
  }

  lemma InvStep(hostNets: seq<Net>, sys: System, step: Step)
    requires Inv(sys) && Enabled(sys, step)
    ensures Inv(Next(hostNets, sys, step))
  {
    hide Compatible, SpecAllowed, Consistent, AfterRow;
    match step
    case Create(spec, q) => CreateStep(hostNets, sys, spec, q);
    case Retire(k) =>
    case Forget(k) =>
    case AgentApplies(id) => AgentStep(hostNets, sys, step);
    case AgentRemoves(id) => AgentStep(hostNets, sys, step);
  }

  ghost predicate Possible(hostNets: seq<Net>, steps: seq<Step>)
    decreases |steps|, 0
  {
    |steps| > 0 ==>
      && Possible(hostNets, steps[..|steps| - 1])
      && Enabled(After(hostNets, steps[..|steps| - 1]), steps[|steps| - 1])
  }

  ghost function After(hostNets: seq<Net>, steps: seq<Step>): System
    requires Possible(hostNets, steps)
    decreases |steps|, 1
  {
    if |steps| == 0 then System(map[], [], map[])
    else Next(hostNets, After(hostNets, steps[..|steps| - 1]), steps[|steps| - 1])
  }

  lemma {:induction false} InvRun(hostNets: seq<Net>, steps: seq<Step>)
    requires Possible(hostNets, steps)
    ensures Inv(After(hostNets, steps))
  {
    if |steps| > 0 {
      hide Inv, Enabled, Next;
      InvRun(hostNets, steps[..|steps| - 1]);
      InvStep(hostNets, After(hostNets, steps[..|steps| - 1]), steps[|steps| - 1]);
    }
  }

  /** What the database wants: the tunnels of the rows that are not removed. */
  ghost function Wanted(sys: System): Specs {
    map id | id in sys.created && Row(sys.created[id], false) in sys.rows :: sys.created[id]
  }

  /** The rows ask for what is wanted, and the agent knows no tunnel in another form. */
  lemma RowsListWanted(sys: System)
    requires Inv(sys)
    ensures Lists(sys.rows, Wanted(sys)) && Agrees(sys.agent, Wanted(sys))
  {
    hide SpecAllowed, Compatible;
    var wanted := Wanted(sys);
    forall a, b | a in wanted && b in wanted && a != b
      ensures Compatible(wanted[a], wanted[b])
    {
      var i :| 0 <= i < |sys.rows| && sys.rows[i] == Row(wanted[a], false);
      var k :| 0 <= k < |sys.rows| && sys.rows[k] == Row(wanted[b], false);
      CompatibleSymmetric(wanted[a], wanted[b]);
      assert i != k;
    }
    forall k | 0 <= k < |sys.rows|
      ensures AsksFor(sys.rows[k], wanted)
    {
      assert sys.rows[k] in sys.rows;
      if sys.rows[k].removed {
        RemovedUnwanted(sys, k);
      }
    }
  }

  lemma RemovedUnwanted(sys: System, k: nat)
    requires Inv(sys) && k < |sys.rows| && sys.rows[k].removed
    ensures sys.rows[k].spec.id !in Wanted(sys)
  {
    hide SpecAllowed, Compatible, Consistent;
    var id := sys.rows[k].spec.id;
    forall i | 0 <= i < |sys.rows|
      ensures sys.rows[i] != Row(sys.created[id], false)
    {
      assert i != k ==> sys.rows[i].spec.id != id;
    }
  }

  /**
   Whatever was created, retired, forgotten, applied late or left half done: two rounds of the
   job after the last change bring the agent to exactly the wanted tunnels that are not on the
   machine's own networks, or that it has already; and further rounds leave it there.
   */
  lemma TunnelsSettle(hostNets: seq<Net>, steps: seq<Step>, n: nat)
    requires Possible(hostNets, steps) && n >= 2
    ensures var sys := After(hostNets, steps);
            AfterJobs(sys.agent, hostNets, sys.rows, n) == Attainable(sys.agent, Wanted(sys), hostNets)
  {
    hide Possible, After, Wanted, Lists, Agrees, RowsOk;
    InvRun(hostNets, steps);
    var sys := After(hostNets, steps);
    RowsListWanted(sys);
    JobSettles(sys.agent, Wanted(sys), hostNets, sys.rows, n);
  }
}
