/**
 The network agent (netz-agent/agent.ts): it keeps a set of tunnel specifications on disk and
 brings the kernel's tables and the IPsec configuration in line with them, one command after
 the other.

 Every external command is taken to succeed. What swanctl would be given for a tunnel is a
 function `render` of the specification.
 */
module Tunnels {
  import opened Basics
  import opened Networks

  datatype Tech = Ipsec(psk: string) | Wireguard(publicKey: string, presharedKey: string)
  datatype Spec = Spec(id: string, peerIp: nat, nets: seq<Net>, tech: Tech)

  type Specs = map<string, Spec>

  /** `prev.tech !== spec.tech` compares the kind alone. */
  predicate SameTech(a: Spec, b: Spec) {
    a.tech.Wireguard? == b.tech.Wireguard?
  }

  // ----- what a set of specifications demands

  datatype Tables = Tables(peers: set<nat>, nets: set<Net>, routes: set<Net>)

  /** What one specification puts into each table. */
  ghost function Peers(spec: Spec): set<nat> { {spec.peerIp} }
  ghost function Nets(spec: Spec): set<Net> { Elements(spec.nets) }
  ghost function Routes(spec: Spec): set<Net> { if spec.tech.Wireguard? then Nets(spec) else {} }

  ghost function Share(spec: Spec): Tables {
    Tables(Peers(spec), Nets(spec), Routes(spec))
  }

  /** What all specifications together put into a table. */
  ghost function Collect<T(!new)>(m: Specs, part: Spec -> set<T>): set<T> {
    set id, x | id in m && x in part(m[id]) :: x
  }

  ghost function Demand(m: Specs): Tables {
    Tables(Collect(m, Peers), Collect(m, Nets), Collect(m, Routes))
  }

  ghost function ConfsOf(m: Specs, render: Spec -> string): map<string, string> {
    map id | id in m && m[id].tech.Ipsec? :: render(m[id])
  }

  ghost predicate Within(a: Tables, b: Tables) {
    a.peers <= b.peers && a.nets <= b.nets && a.routes <= b.routes
  }

  ghost function Union(a: Tables, b: Tables): Tables {
    Tables(a.peers + b.peers, a.nets + b.nets, a.routes + b.routes)
  }

  ghost function Minus(a: Tables, b: Tables): Tables {
    Tables(a.peers - b.peers, a.nets - b.nets, a.routes - b.routes)
  }

  /** Every tunnel's peer and networks, the networks of WireGuard tunnels as routes, a file for IPsec. */
  lemma DemandExactly(m: Specs, render: Spec -> string)
    ensures forall ip :: ip in Demand(m).peers <==> exists id :: id in m && m[id].peerIp == ip
    ensures forall n :: n in Demand(m).nets <==> exists id :: id in m && n in m[id].nets
    ensures forall n :: n in Demand(m).routes <==> exists id :: id in m && m[id].tech.Wireguard? && n in m[id].nets
    ensures forall id :: id in ConfsOf(m, render) <==> id in m && !m[id].tech.Wireguard?
    ensures forall id :: id in ConfsOf(m, render) ==> ConfsOf(m, render)[id] == render(m[id])
  {
    forall ip
      ensures ip in Demand(m).peers <==> exists id :: id in m && m[id].peerIp == ip
    {
      if id :| id in m && m[id].peerIp == ip {
        assert ip in Peers(m[id]);
      }
    }
    forall n
      ensures n in Demand(m).nets <==> exists id :: id in m && n in m[id].nets
      ensures n in Demand(m).routes <==> exists id :: id in m && m[id].tech.Wireguard? && n in m[id].nets
    {
      if id :| id in m && n in m[id].nets {
        assert n in Nets(m[id]);
      }
      if id :| id in m && m[id].tech.Wireguard? && n in m[id].nets {
        assert n in Routes(m[id]);
      }
    }
  }

  // ----- specifications that go together

  predicate SpecAllowed(spec: Spec) {
    PeerAllowed(spec.peerIp) && NetsAllowed(spec.nets)
  }

  /** Different peers, and no address lies in a network of each. */
  predicate Compatible(a: Spec, b: Spec) {
    a.peerIp != b.peerIp
    && forall i, j :: 0 <= i < |a.nets| && 0 <= j < |b.nets| ==> !RangesOverlap(a.nets[i], b.nets[j])
  }

  ghost predicate Consistent(m: Specs) {
    && (forall id :: id in m ==> m[id].id == id && SpecAllowed(m[id]))
    && (forall a, b :: a in m && b in m && a != b ==> Compatible(m[a], m[b]))
  }

  predicate HostClash(spec: Spec, hostNets: seq<Net>) {
    exists i, k :: 0 <= i < |spec.nets| && 0 <= k < |hostNets| && RangesOverlap(hostNets[k], spec.nets[i])
  }

  /** The other specifications all go together with this one. */
  ghost predicate Fits(m: Specs, spec: Spec) {
    forall id :: id in m && id != spec.id ==> Compatible(m[id], spec)
  }

  /** Compatible specifications share no peer and no network. */
  lemma SharesApart(a: Spec, b: Spec)
    requires Compatible(a, b)
    ensures Peers(a) !! Peers(b) && Nets(a) !! Nets(b) && Routes(a) !! Routes(b)
  {
    assert forall i, j :: 0 <= i < |a.nets| && 0 <= j < |b.nets| ==> a.nets[i] != b.nets[j];
  }

  /** No address is in two tunnels. */
  lemma AddressesApart(m: Specs, a: string, b: string, n: Net, k: Net, x: nat)
    requires Consistent(m) && a in m && b in m && n in m[a].nets && k in m[b].nets
    requires Contains(n, x) && Contains(k, x)
    ensures a == b && n == k
  {
    hide RangesOverlap, Contains, NetAllowed;
    var i :| 0 <= i < |m[a].nets| && m[a].nets[i] == n;
    var j :| 0 <= j < |m[b].nets| && m[b].nets[j] == k;
    AllowedIsCanonical(n);
    AllowedIsCanonical(k);
    OverlapIsShared(n, k);
    if a != b || i != j {
      NetsApart(m, a, i, b, j);
    }
  }

  /** No tunnel's peer, whose packets arrive from outside, has an address inside any tunnel. */
  lemma PeersApart(m: Specs, a: string, b: string, n: Net)
    requires Consistent(m) && a in m && b in m && n in m[b].nets
    ensures !Contains(n, m[a].peerIp)
  {
    hide RangesOverlap, Contains, NetAllowed, PeerAllowed;
    PeersOutside(m[a].peerIp, n);
  }

  /** A specification clashes with the machine when an address lies in a network of each. */
  lemma HostClashExactly(spec: Spec, hostNets: seq<Net>)
    requires SpecAllowed(spec) && forall k :: 0 <= k < |hostNets| ==> Canonical(hostNets[k])
    ensures HostClash(spec, hostNets) <==>
              exists i, k, x: nat :: 0 <= i < |spec.nets| && 0 <= k < |hostNets|
                                     && Contains(spec.nets[i], x) && Contains(hostNets[k], x)
  {
    hide RangesOverlap, Contains, NetAllowed, PeerAllowed, Canonical;
    forall i, k | 0 <= i < |spec.nets| && 0 <= k < |hostNets|
      ensures RangesOverlap(hostNets[k], spec.nets[i]) <==>
                exists x: nat :: Contains(hostNets[k], x) && Contains(spec.nets[i], x)
    {
      AllowedIsCanonical(spec.nets[i]);
      OverlapIsShared(hostNets[k], spec.nets[i]);
    }
  }

  lemma AllowedIsCanonical(n: Net)
    ensures NetAllowed(n) ==> Canonical(n)
  {
  }

  lemma CompatibleSymmetric(a: Spec, b: Spec)
    ensures Compatible(a, b) <==> Compatible(b, a)
  {
    forall i, j
      ensures RangesOverlap(i, j) <==> RangesOverlap(j, i)
    {
      OverlapSymmetric(i, j);
    }
  }

  lemma FitsKeepsConsistent(m: Specs, spec: Spec)
    requires Consistent(m) && Fits(m, spec) && SpecAllowed(spec)
    ensures Consistent(m[spec.id := spec])
  {
    hide Compatible, SpecAllowed;
    var m' := m[spec.id := spec];
    forall a, b | a in m' && b in m' && a != b
      ensures Compatible(m'[a], m'[b])
    {
      CompatibleSymmetric(m'[a], m'[b]);
    }
  }

  // ----- what changing one specification means for the tables

  lemma CollectWithout<T(!new)>(m: Specs, id: string, part: Spec -> set<T>)
    requires id in m && forall other :: other in m && other != id ==> part(m[other]) !! part(m[id])
    ensures Collect(m - {id}, part) == Collect(m, part) - part(m[id])
  {
    var base := m - {id};
    assert forall other :: other in base ==> other in m && base[other] == m[other];
    forall x | x in Collect(m, part) && x !in part(m[id])
      ensures x in Collect(base, part)
    {
      var other :| other in m && x in part(m[other]);
      assert other in base && base[other] == m[other];
    }
  }

  lemma CollectWith<T(!new)>(m: Specs, spec: Spec, part: Spec -> set<T>)
    requires spec.id !in m
    ensures Collect(m[spec.id := spec], part) == Collect(m, part) + part(spec)
  {
    var m' := m[spec.id := spec];
    assert m'[spec.id] == spec;
    forall x | x in Collect(m, part)
      ensures x in Collect(m', part)
    {
      var other :| other in m && x in part(m[other]);
      assert other in m' && m'[other] == m[other];
    }
  }

  lemma DemandWithout(m: Specs, id: string)
    requires Consistent(m) && id in m
    ensures Demand(m - {id}) == Minus(Demand(m), Share(m[id]))
  {
    hide Compatible, SpecAllowed, Peers, Nets, Routes, Collect;
    forall other | other in m && other != id
      ensures Peers(m[other]) !! Peers(m[id]) && Nets(m[other]) !! Nets(m[id]) && Routes(m[other]) !! Routes(m[id])
    {
      SharesApart(m[other], m[id]);
    }
    CollectWithout(m, id, Peers);
    CollectWithout(m, id, Nets);
    CollectWithout(m, id, Routes);
  }

  lemma DemandWith(m: Specs, spec: Spec)
    requires spec.id !in m
    ensures Demand(m[spec.id := spec]) == Union(Demand(m), Share(spec))
  {
    hide Peers, Nets, Routes, Collect;
    CollectWith(m, spec, Peers);
    CollectWith(m, spec, Nets);
    CollectWith(m, spec, Routes);
  }

  lemma DemandReplaced(m: Specs, spec: Spec)
    requires Consistent(m)
    ensures Demand(m[spec.id := spec]) ==
            Union(if spec.id in m then Minus(Demand(m), Share(m[spec.id])) else Demand(m), Share(spec))
  {
    hide Consistent, Demand, Union, Minus, Share;
    var base := m - {spec.id};
    assert m[spec.id := spec] == base[spec.id := spec];
    DemandWith(base, spec);
    if spec.id in m {
      DemandWithout(m, spec.id);
    } else {
      assert base == m;
    }
  }

  lemma ShareIsDemanded(m: Specs, id: string)
    requires id in m
    ensures Within(Share(m[id]), Demand(m))
  {
  }

  /** Nothing in a set of networks overlaps anything else in it: what an interval set takes. */
  ghost predicate NoClash(nets: set<Net>) {
    forall a, b :: a in nets && b in nets && a != b ==> !RangesOverlap(a, b)
  }

  /** The networks of consistent specifications never clash in the interval set. */
  lemma DemandedNoClash(m: Specs)
    requires Consistent(m)
    ensures NoClash(Collect(m, Nets))
  {
    forall a, b | a in Collect(m, Nets) && b in Collect(m, Nets) && a != b
      ensures !RangesOverlap(a, b)
    {
      var p :| p in m && a in m[p].nets;
      var q :| q in m && b in m[q].nets;
      var i :| 0 <= i < |m[p].nets| && m[p].nets[i] == a;
      var j :| 0 <= j < |m[q].nets| && m[q].nets[j] == b;
      NetsApart(m, p, i, q, j);
    }
  }

  lemma NetsApart(m: Specs, p: string, i: nat, q: string, j: nat)
    requires Consistent(m) && p in m && q in m && i < |m[p].nets| && j < |m[q].nets|
    requires p != q || i != j
    ensures !RangesOverlap(m[p].nets[i], m[q].nets[j])
  {
    hide RangesOverlap, NetAllowed, PeerAllowed;
    OverlapSymmetric(m[p].nets[i], m[q].nets[j]);
    if p != q {
      assert Compatible(m[p], m[q]);
    } else {
      assert Apart(m[p].nets);
    }
  }

  lemma NoClashBelow(small: set<Net>, large: set<Net>)
    requires small <= large && NoClash(large)
    ensures NoClash(small)
  {
  }

  /** The tables after one specification took the place of an earlier one, if there was one. */
  ghost function Swapped(t: Tables, prev: Option<Spec>, spec: Spec): Tables {
    Union(if prev.Some? then Minus(t, Share(prev.value)) else t, Share(spec))
  }

  ghost function Before(m: Specs, id: string): Option<Spec> {
    if id in m then Some(m[id]) else None
  }

  /** Tables within the demand stay within it, complete ones stay complete, and the new share is in. */
  lemma SwapFollowsDemand(m: Specs, spec: Spec, t: Tables)
    requires Consistent(m) && Within(t, Demand(m)) && Fits(m, spec) && SpecAllowed(spec)
    ensures var t', m' := Swapped(t, Before(m, spec.id), spec), m[spec.id := spec];
            && Consistent(m') && Within(t', Demand(m')) && Within(Share(spec), t')
            && (t == Demand(m) ==> t' == Demand(m'))
            && NoClash(t'.nets)
  {
    hide Share, Demand, Consistent, Fits, SpecAllowed;
    var t', m' := Swapped(t, Before(m, spec.id), spec), m[spec.id := spec];
    DemandReplaced(m, spec);
    FitsKeepsConsistent(m, spec);
    DemandedNets(m');
    NoClashBelow(t'.nets, Demand(m').nets);
  }

  lemma DemandedNets(m: Specs)
    requires Consistent(m)
    ensures NoClash(Demand(m).nets)
  {
    DemandedNoClash(m);
  }

  ghost function ConfsAfter(confs: map<string, string>, spec: Spec, render: Spec -> string): map<string, string> {
    if spec.tech.Ipsec? then confs[spec.id := render(spec)] else confs - {spec.id}
  }

  lemma ConfsReplaced(m: Specs, spec: Spec, render: Spec -> string)
    ensures ConfsOf(m[spec.id := spec], render) == ConfsAfter(ConfsOf(m, render), spec, render)
    ensures spec.id in ConfsOf(m, render) <==> spec.id in m && m[spec.id].tech.Ipsec?
  {
  }

  lemma ConfsWithout(m: Specs, id: string, render: Spec -> string)
    ensures ConfsOf(m - {id}, render) == ConfsOf(m, render) - {id}
    ensures id in ConfsOf(m, render) <==> id in m && m[id].tech.Ipsec?
  {
  }

  ghost predicate Submap(a: map<string, string>, b: map<string, string>) {
    forall id :: id in a ==> id in b && a[id] == b[id]
  }

  // ----- the machine and the agent

  /** The machine: the agent's files, swanctl's files and what it has loaded, nft sets and routes. */
  class Host {
    var stateFiles: Specs
    var confs: map<string, string>
    var loaded: map<string, string>
    var peers: set<nat>
    var nets: set<Net>
    var routes: set<Net>

    constructor ()
      ensures stateFiles == map[] && confs == map[] && loaded == map[]
      ensures Now() == Tables({}, {}, {})
    {
      stateFiles, confs, loaded := map[], map[], map[];
      peers, nets, routes := {}, {}, {};
    }

    ghost function Now(): Tables
      reads this
    {
      Tables(peers, nets, routes)
    }

    /** One `nft add element` for all networks: the set has `flags interval` and refuses overlaps. */
    method NftAddNets(added: seq<Net>)
      requires NoClash(nets + Elements(added))
      modifies this`nets
      ensures nets == old(nets) + Elements(added)
    {
      nets := nets + Elements(added);
    }
  }

  class NetzAgent {
    const host: Host
    const render: Spec -> string
    /** Networks the machine has itself. */
    var hostNets: seq<Net>
    /** A map with its keys in the order of their insertion. */
    var specs: Specs
    var order: seq<string>

    /** Reads the state files back; `names` is the directory, files that do not pass are skipped. */
    constructor (host: Host, render: Spec -> string, names: seq<string>)
      requires Distinct(names) && Elements(names) == host.stateFiles.Keys
      ensures this.host == host && this.render == render
      ensures forall id :: id in specs <==> id in host.stateFiles && Passes(host.stateFiles[id], id)
      ensures forall id :: id in specs ==> specs[id] == host.stateFiles[id]
      ensures DiskGood(host, render) ==> specs == host.stateFiles && Valid()
    {
      hide SpecAllowed, Compatible, ConfsOf, Demand, Distinct;
      var found, listed := ReadSpecs(host.stateFiles, names);
      this.host, this.render, hostNets := host, render, [];
      specs, order := found, listed;
    }

    /** Files and tables hold nothing the specifications do not demand, and the files all of it. */
    ghost predicate Valid()
      reads this, host
    {
      && Consistent(specs) && Distinct(order) && Elements(order) == specs.Keys
      && host.stateFiles == specs
      && host.confs == ConfsOf(specs, render) && Submap(host.loaded, host.confs)
      && Within(host.Now(), Demand(specs))
    }

    /** Tables, routes and loaded connections are exactly what the specifications demand. */
    ghost predicate Reconciled()
      reads this, host
    {
      host.Now() == Demand(specs) && host.loaded == host.confs
    }

    /** `conflicts` */
    method Conflicts(spec: Spec) returns (clash: Option<string>)
      requires Valid()
      ensures clash.None? <==> !HostClash(spec, hostNets) && Fits(specs, spec)
      ensures clash == Some("nets_host") <==> HostClash(spec, hostNets)
      ensures clash == Some("peer_taken") ==>
                exists id :: id in specs && id != spec.id && specs[id].peerIp == spec.peerIp
      ensures clash == Some("nets_overlap") ==>
                exists id :: id in specs && id != spec.id && specs[id].peerIp != spec.peerIp
                             && !Compatible(specs[id], spec)
    {
      hide RangesOverlap, SpecAllowed, NetAllowed;
      for i := 0 to |spec.nets|
        invariant forall a, k :: 0 <= a < i && 0 <= k < |hostNets| ==> !RangesOverlap(hostNets[k], spec.nets[a])
      {
        var taken := Overlaps(spec.nets[i], hostNets);
        if taken {
          return Some("nets_host");
        }
      }
      for o := 0 to |order|
        invariant forall k :: 0 <= k < o && order[k] != spec.id ==> Compatible(specs[order[k]], spec)
      {
        assert order[o] in Elements(order);
        var other := specs[order[o]];
        if other.id != spec.id {
          if other.peerIp == spec.peerIp {
            return Some("peer_taken");
          }
          for a := 0 to |other.nets|
            invariant forall i, j :: 0 <= i < a && 0 <= j < |spec.nets| ==> !RangesOverlap(other.nets[i], spec.nets[j])
          {
            for b := 0 to |spec.nets|
              invariant forall j :: 0 <= j < b ==> !RangesOverlap(other.nets[a], spec.nets[j])
            {
              if RangesOverlap(other.nets[a], spec.nets[b]) {
                assert !Compatible(other, spec);
                return Some("nets_overlap");
              }
            }
          }
        }
      }
      forall id | id in specs && id != spec.id
        ensures Compatible(specs[id], spec)
      {
        assert id in Elements(order);
        assert id in order;
      }
      return None;
    }

    method DeleteRoutes(gone: seq<Net>, kept: seq<Net>)
      modifies host`routes
      ensures host.routes == old(host.routes) - (Elements(gone) - Elements(kept))
    {
      for k := 0 to |gone|
        invariant host.routes == old(host.routes) - (Elements(gone[..k]) - Elements(kept))
      {
        if gone[k] !in kept {
          host.routes := host.routes - {gone[k]};
        }
        ElementsStep(gone, k);
      }
      assert gone[..|gone|] == gone;
    }

    method ReplaceRoutes(nets: seq<Net>)
      modifies host`routes
      ensures host.routes == old(host.routes) + Elements(nets)
    {
      for k := 0 to |nets|
        invariant host.routes == old(host.routes) + Elements(nets[..k])
      {
        host.routes := host.routes + {nets[k]};
        ElementsStep(nets, k);
      }
      assert nets[..|nets|] == nets;
    }

    method NftDeleteNets(gone: seq<Net>, kept: seq<Net>)
      modifies host`nets
      ensures host.nets == old(host.nets) - (Elements(gone) - Elements(kept))
    {
      for k := 0 to |gone|
        invariant host.nets == old(host.nets) - (Elements(gone[..k]) - Elements(kept))
      {
        if gone[k] !in kept {
          host.nets := host.nets - {gone[k]};
        }
        ElementsStep(gone, k);
      }
      assert gone[..|gone|] == gone;
    }

    /** `applyRuntime`: routes and firewall sets of one tunnel, those of its earlier form taken out. */
    method ApplyRuntime(spec: Spec, prev: Option<Spec>)
      requires prev.Some? ==> SameTech(prev.value, spec)
      requires NoClash(Swapped(host.Now(), prev, spec).nets)
      modifies host`peers, host`nets, host`routes
      ensures host.Now() == Swapped(old(host.Now()), prev, spec)
    {
      hide NoClash, Elements;
      NoElements<Net>();
      var gone := if prev.Some? then prev.value.nets else [];
      if spec.tech.Wireguard? {
        DeleteRoutes(gone, spec.nets);
        ReplaceRoutes(spec.nets);
      }
      if prev.Some? && prev.value.peerIp != spec.peerIp {
        host.peers := host.peers - {prev.value.peerIp};
      }
      NftDeleteNets(gone, spec.nets);
      host.peers := host.peers + {spec.peerIp};
      assert host.nets + Elements(spec.nets) == Swapped(old(host.Now()), prev, spec).nets;
      host.NftAddNets(spec.nets);
    }

    /** `teardown`: everything of one tunnel taken out again. */
    method Teardown(spec: Spec)
      modifies host`peers, host`nets, host`routes, host`confs, host`loaded
      ensures host.Now() == Minus(old(host.Now()), Share(spec))
      ensures spec.tech.Wireguard? ==> host.confs == old(host.confs) && host.loaded == old(host.loaded)
      ensures spec.tech.Ipsec? ==> host.confs == old(host.confs) - {spec.id} && host.loaded == host.confs
    {
      NoElements<Net>();
      if spec.tech.Wireguard? {
        DeleteRoutes(spec.nets, []);
      } else {
        host.confs := host.confs - {spec.id};
        host.loaded := host.confs;
      }
      host.peers := host.peers - {spec.peerIp};
      NftDeleteNets(spec.nets, []);
    }

    /** `start`: after a restart of the process or of the machine, whatever is left of the tables. */
    method Start(found: seq<Net>)
      requires Valid()
      modifies this`hostNets, host
      ensures Valid() && Reconciled() && hostNets == found
    {
      hide Consistent, Demand, Share, ConfsOf, Swapped, NoClash;
      hostNets := found;
      for i := 0 to |order|
        invariant Valid() && hostNets == found
        invariant forall k :: 0 <= k < i ==> order[k] in specs && Within(Share(specs[order[k]]), host.Now())
      {
        assert order[i] in Elements(order);
        AddOwnShare(specs, order[i], host.Now());
        ApplyRuntime(specs[order[i]], None);
      }
      forall id | id in specs
        ensures Within(Share(specs[id]), host.Now())
      {
        assert id in Elements(order);
      }
      CoveredIsDemand(specs, host.Now());
      if exists k :: 0 <= k < |order| && order[k] in specs && specs[order[k]].tech.Ipsec? {
        host.loaded := host.confs;
      } else {
        forall id | id in specs
          ensures specs[id].tech.Wireguard?
        {
          assert id in Elements(order);
        }
        NoConfs(specs, render);
        assert host.loaded == map[];
      }
    }

    /** `apply`: sets the specification of one tunnel. */
    method Apply(spec: Spec) returns (r: Result<bool, string>)
      requires Valid()
      modifies this`specs, this`order, host
      ensures Valid() && (old(Reconciled()) ==> Reconciled())
      ensures r.Ok? <==> SpecAllowed(spec) && !HostClash(spec, hostNets) && old(Fits(specs, spec))
      ensures !PeerAllowed(spec.peerIp) ==> r == Err("spec_peer")
      ensures PeerAllowed(spec.peerIp) && !NetsAllowed(spec.nets) ==> r == Err("spec_nets")
      ensures SpecAllowed(spec) && HostClash(spec, hostNets) ==> r == Err("nets_host")
      ensures r.Err? ==> specs == old(specs) && host.Now() == old(host.Now()) && host.loaded == old(host.loaded)
      ensures r.Ok? ==> specs == old(specs)[spec.id := spec] && (r.value <==> old(Before(specs, spec.id)) != Some(spec))
      ensures r.Ok? ==>
                && host.Now() == Swapped(old(host.Now()), old(Before(specs, spec.id)), spec)
                && Within(Share(spec), host.Now())
      ensures old(host.loaded == host.confs) ==> host.loaded == host.confs
    {
      hide Consistent, Demand, Share, ConfsOf, NoClash, NetsAllowed, PeerAllowed, HostClash, Fits;
      if !PeerAllowed(spec.peerIp) {
        return Err("spec_peer");
      }
      var netsOk := AgentNetsAllowed(spec.nets);
      if !netsOk {
        return Err("spec_nets");
      }
      var clash := Conflicts(spec);
      if clash.Some? {
        return Err(clash.value);
      }
      ghost var before := specs;
      SwapFollowsDemand(specs, spec, host.Now());
      ConfsReplaced(specs, spec, render);
      var prev := if spec.id in specs then Some(specs[spec.id]) else None;
      if prev.Some? {
        KnowsItsId(specs, spec.id);
      }
      var changed := prev != Some(spec);
      if changed {
        host.stateFiles := host.stateFiles[spec.id := spec];
        if spec.id !in specs {
          ListedOnce(order, spec.id);
          order := order + [spec.id];
        }
        specs := specs[spec.id := spec];
      }
      assert specs == before[spec.id := spec] && host.stateFiles == specs;
      Install(spec, prev);
      return Ok(changed);
    }

    /** The second half of `apply`: the earlier form out, the new one in. */
    method Install(spec: Spec, prev: Option<Spec>)
      requires prev.Some? ==> prev.value.id == spec.id
      requires spec.id in host.confs <==> prev.Some? && prev.value.tech.Ipsec?
      requires NoClash(Swapped(host.Now(), prev, spec).nets)
      modifies host`peers, host`nets, host`routes, host`confs, host`loaded
      ensures host.Now() == Swapped(old(host.Now()), prev, spec)
      ensures host.confs == ConfsAfter(old(host.confs), spec, render)
      ensures host.loaded == host.confs || (host.loaded == old(host.loaded) && host.confs == old(host.confs))
    {
      hide NoClash, Share;
      if prev.Some? && !SameTech(prev.value, spec) {
        Teardown(prev.value);
      }
      ApplyRuntime(spec, if prev.Some? && SameTech(prev.value, spec) then prev else None);
      if spec.tech.Ipsec? {
        var conf := render(spec);
        if spec.id !in host.confs || host.confs[spec.id] != conf {
          host.confs := host.confs[spec.id := conf];
          host.loaded := host.confs;
        }
      }
      assert host.confs == ConfsAfter(old(host.confs), spec, render);
    }

    /** `remove`: an unknown id leaves everything as it is. */
    method Remove(id: string) returns (removed: bool)
      requires Valid()
      modifies this`specs, this`order, host
      ensures Valid() && (old(Reconciled()) ==> Reconciled())
      ensures removed <==> id in old(specs)
      ensures specs == old(specs) - {id}
      ensures host.Now() == if removed then Minus(old(host.Now()), Share(old(specs)[id])) else old(host.Now())
      ensures old(host.loaded == host.confs) ==> host.loaded == host.confs
    {
      hide Consistent, Demand, Share, ConfsOf;
      if id !in specs {
        assert specs - {id} == specs;
        return false;
      }
      DemandWithout(specs, id);
      StaysConsistent(specs, id);
      ConfsWithout(specs, id, render);
      KnowsItsId(specs, id);
      Teardown(specs[id]);
      assert host.confs == old(host.confs) - {id};
      host.stateFiles := host.stateFiles - {id};
      specs := specs - {id};
      order := Without(order, id);
      return true;
    }
  }

  /** What an agent finds on disk when the one before it left in good order. */
  ghost predicate DiskGood(host: Host, render: Spec -> string)
    reads host
  {
    && Consistent(host.stateFiles) && host.confs == ConfsOf(host.stateFiles, render) && Submap(host.loaded, host.confs)
    && Within(host.Now(), Demand(host.stateFiles))
  }

  lemma AddOwnShare(m: Specs, id: string, t: Tables)
    requires Consistent(m) && id in m && Within(t, Demand(m))
    ensures var t' := Swapped(t, None, m[id]);
            Within(t, t') && Within(t', Demand(m)) && Within(Share(m[id]), t') && NoClash(t'.nets)
  {
    hide Consistent, Demand, Share;
    ShareIsDemanded(m, id);
    DemandedNets(m);
    NoClashBelow(Swapped(t, None, m[id]).nets, Demand(m).nets);
  }

  lemma CoveredIsDemand(m: Specs, t: Tables)
    requires Within(t, Demand(m)) && forall id :: id in m ==> Within(Share(m[id]), t)
    ensures t == Demand(m)
  {
  }

  lemma NoConfs(m: Specs, render: Spec -> string)
    requires forall id :: id in m ==> m[id].tech.Wireguard?
    ensures ConfsOf(m, render) == map[]
  {
  }

  lemma StaysConsistent(m: Specs, id: string)
    requires Consistent(m)
    ensures Consistent(m - {id})
  {
  }

  lemma KnowsItsId(m: Specs, id: string)
    requires Consistent(m) && id in m
    ensures m[id].id == id
  {
  }

  lemma ListedOnce(order: seq<string>, id: string)
    requires Distinct(order) && id !in Elements(order)
    ensures Distinct(order + [id]) && Elements(order + [id]) == Elements(order) + {id}
  {
  }

  function Without(order: seq<string>, id: string): (r: seq<string>)
    ensures Elements(r) == Elements(order) - {id}
    ensures Distinct(order) ==> Distinct(r)
  {
    if |order| == 0 then []
    else
      var rest := Without(order[1..], id);
      Joined([order[0]], order[1..]);
      Joined([order[0]], rest);
      FirstIsNew(order, rest);
      if order[0] == id then rest else [order[0]] + rest
  }

  lemma FirstIsNew(order: seq<string>, rest: seq<string>)
    requires |order| > 0 && Elements(rest) <= Elements(order[1..])
    ensures Distinct(order) ==> Distinct(order[1..])
    ensures Distinct(order) && Distinct(rest) ==> Distinct([order[0]] + rest)
  {
    forall k | 0 <= k < |rest| && Distinct(order)
      ensures rest[k] != order[0]
    {
      assert rest[k] in Elements(rest);
    }
  }

  lemma Joined(a: seq<string>, b: seq<string>)
    ensures Elements(a + b) == Elements(a) + Elements(b)
  {
  }

  lemma NoElements<T>()
    ensures Elements<T>([]) == {}
  {
  }

  predicate Passes(spec: Spec, name: string) {
    SpecAllowed(spec) && spec.id == name
  }

  /** The constructor's loop over the directory. */
  method ReadSpecs(files: Specs, names: seq<string>) returns (found: Specs, order: seq<string>)
    requires Distinct(names) && Elements(names) == files.Keys
    ensures forall id :: id in found <==> id in files && Passes(files[id], id)
    ensures forall id :: id in found <==>
              id in files && files[id].id == id && PeerAllowed(files[id].peerIp) && NetsAllowed(files[id].nets)
    ensures forall id :: id in found ==> found[id] == files[id]
    ensures Distinct(order) && Elements(order) == found.Keys
  {
    hide PeerAllowed, NetsAllowed;
    found, order := map[], [];
    for i := 0 to |names|
      invariant forall id :: id in found <==> id in names[..i] && id in files && Passes(files[id], id)
      invariant forall id :: id in found ==> found[id] == files[id]
      invariant Distinct(order) && Elements(order) == found.Keys
    {
      assert names[i] in Elements(names);
      var spec := files[names[i]];
      assert names[..i + 1] == names[..i] + [names[i]];
      assert names[i] !in names[..i];
      if Passes(spec, names[i]) {
        ListedOnce(order, names[i]);
        found, order := found[names[i] := spec], order + [names[i]];
      }
    }
    forall id | id in files
      ensures id in names[..|names|]
    {
      assert id in Elements(names) && names[..|names|] == names;
    }
  }

  lemma ElementsStep(nets: seq<Net>, k: nat)
    requires k < |nets|
    ensures Elements(nets[..k + 1]) == Elements(nets[..k]) + {nets[k]}
    ensures nets[..|nets|] == nets && nets[..0] == []
  {
  }
}
