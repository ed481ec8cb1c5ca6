/**
 External commands that fail (netz-agent/agent.ts:222-352). The agent stores the new
 specification first, then runs its commands: a failing one it insists on ends the attempt,
 a failing deletion is passed over. Applying the same specification again adds what is missing
 but deletes nothing, since the earlier form is forgotten. Here: what stays behind, exactly; for
 tunnels that never change it is nothing.
 */
module TunnelFaults {
  import opened Basics
  import opened Networks
  import opened Tunnels

  // ----- tables as one set of entries

  datatype Entry = PeerEntry(ip: nat) | NetEntry(net: Net) | RouteEntry(net: Net)

  ghost function Flat(t: Tables): set<Entry> {
    (set p | p in t.peers :: PeerEntry(p))
    + (set n | n in t.nets :: NetEntry(n))
    + (set n | n in t.routes :: RouteEntry(n))
  }

  ghost function EntriesOf(spec: Spec): set<Entry> {
    Flat(Share(spec))
  }

  lemma FlatSwapped(t: Tables, prev: Option<Spec>, spec: Spec)
    ensures Flat(Swapped(t, prev, spec))
         == (if prev.Some? then Flat(t) - EntriesOf(prev.value) else Flat(t)) + EntriesOf(spec)
  {
    hide Share;
  }

  /** Which entries a specification has. */
  lemma EntriesAre(spec: Spec, e: Entry)
    ensures e in EntriesOf(spec) <==>
              match e
              case PeerEntry(p) => p == spec.peerIp
              case NetEntry(n) => n in spec.nets
              case RouteEntry(n) => spec.tech.Wireguard? && n in spec.nets
  {
  }

  // ----- the commands

  datatype Command = Add(entries: set<Entry>) | Delete(entry: Entry) | Other
  /** One call; the agent gives up when a call it must have fails. */
  datatype Call = Call(what: Command, must: bool)

  function DeleteRoutes(gone: seq<Net>, kept: seq<Net>): seq<Call> {
    if |gone| == 0 then []
    else (if gone[0] in kept then [] else [Call(Delete(RouteEntry(gone[0])), false)]) + DeleteRoutes(gone[1..], kept)
  }

  function DeleteNets(gone: seq<Net>, kept: seq<Net>): seq<Call> {
    if |gone| == 0 then []
    else (if gone[0] in kept then [] else [Call(Delete(NetEntry(gone[0])), false)]) + DeleteNets(gone[1..], kept)
  }

  function ReplaceRoutes(nets: seq<Net>): seq<Call> {
    if |nets| == 0 then [] else [Call(Add({RouteEntry(nets[0])}), true)] + ReplaceRoutes(nets[1..])
  }

  function NetEntries(nets: seq<Net>): set<Entry> {
    set n | n in nets :: NetEntry(n)
  }

  /** The calls of `applyRuntime`, in order. */
  function RuntimeCalls(spec: Spec, prev: Option<Spec>): seq<Call> {
    var gone := if prev.Some? then prev.value.nets else [];
    (if spec.tech.Wireguard?
     then [Call(Other, false), Call(Other, true)] + DeleteRoutes(gone, spec.nets) + ReplaceRoutes(spec.nets)
     else [])
    + (if prev.Some? && prev.value.peerIp != spec.peerIp
       then [Call(Delete(PeerEntry(prev.value.peerIp)), false)]
       else [])
    + DeleteNets(gone, spec.nets)
    + [Call(Add({PeerEntry(spec.peerIp)}), true), Call(Add(NetEntries(spec.nets)), true)]
  }

  /** The calls of `teardown`; an IPsec tunnel first has its connections reloaded. */
  function TeardownCalls(spec: Spec): seq<Call> {
    (if spec.tech.Wireguard? then [Call(Other, false)] + DeleteRoutes(spec.nets, [])
     else [Call(Other, true), Call(Other, false)])
    + [Call(Delete(PeerEntry(spec.peerIp)), false)] + DeleteNets(spec.nets, [])
  }

  /** The calls of `apply` that concern the tables. */
  function ApplyCalls(spec: Spec, prev: Option<Spec>): seq<Call> {
    if prev.Some? && !SameTech(prev.value, spec) then TeardownCalls(prev.value) + RuntimeCalls(spec, None)
    else RuntimeCalls(spec, prev)
  }

  function Effect(t: set<Entry>, what: Command): set<Entry> {
    match what
    case Add(entries) => t + entries
    case Delete(entry) => t - {entry}
    case Other => t
  }

  /** The tables after the calls, when `ok` says which of them work. */
  function Exec(t: set<Entry>, calls: seq<Call>, ok: seq<bool>): set<Entry>
    requires |ok| == |calls|
    decreases |calls|
  {
    if |calls| == 0 then t
    else if ok[0] then Exec(Effect(t, calls[0].what), calls[1..], ok[1..])
    else if calls[0].must then t
    else Exec(t, calls[1..], ok[1..])
  }

  /** Call `i` was reached and worked. */
  predicate Done(calls: seq<Call>, ok: seq<bool>, i: nat)
    requires |ok| == |calls|
  {
    i < |calls| && ok[i] && forall j :: 0 <= j < i ==> ok[j] || !calls[j].must
  }

  ghost predicate Deleted(calls: seq<Call>, ok: seq<bool>, e: Entry)
    requires |ok| == |calls|
  {
    exists i :: 0 <= i < |calls| && Done(calls, ok, i) && calls[i].what == Delete(e)
  }

  ghost predicate AddsOnly(calls: seq<Call>, s: set<Entry>) {
    forall i :: 0 <= i < |calls| && calls[i].what.Add? ==> calls[i].what.entries <= s
  }

  ghost predicate DeletesOnly(calls: seq<Call>, s: set<Entry>) {
    forall i :: 0 <= i < |calls| && calls[i].what.Delete? ==> calls[i].what.entry in s
  }

  /** What is not added stays exactly when it is not deleted. */
  lemma {:induction false} ExecKeeps(t: set<Entry>, calls: seq<Call>, ok: seq<bool>, s: set<Entry>, e: Entry)
    requires |ok| == |calls| && AddsOnly(calls, s) && e !in s
    ensures e in Exec(t, calls, ok) <==> e in t && !Deleted(calls, ok, e)
    decreases |calls|
  {
    if |calls| > 0 {
      var rest, ok' := calls[1..], ok[1..];
      assert AddsOnly(rest, s);
      DeletedStep(calls, ok, e);
      if ok[0] {
        ExecKeeps(Effect(t, calls[0].what), rest, ok', s, e);
      } else if !calls[0].must {
        ExecKeeps(t, rest, ok', s, e);
      }
    }
  }

  lemma DeletedStep(calls: seq<Call>, ok: seq<bool>, e: Entry)
    requires |ok| == |calls| > 0
    ensures Deleted(calls, ok, e) <==>
              || (ok[0] && calls[0].what == Delete(e))
              || ((ok[0] || !calls[0].must) && Deleted(calls[1..], ok[1..], e))
  {
    var rest, ok' := calls[1..], ok[1..];
    if ok[0] && calls[0].what == Delete(e) {
      assert Done(calls, ok, 0);
    }
    if (ok[0] || !calls[0].must) && Deleted(rest, ok', e) {
      var i :| 0 <= i < |rest| && Done(rest, ok', i) && rest[i].what == Delete(e);
      assert forall j :: 0 < j < i + 1 ==> ok[j] == ok'[j - 1] && calls[j] == rest[j - 1];
      assert Done(calls, ok, i + 1) && calls[i + 1].what == Delete(e);
    }
    if Deleted(calls, ok, e) {
      var i :| 0 <= i < |calls| && Done(calls, ok, i) && calls[i].what == Delete(e);
      if i > 0 {
        assert forall j :: 0 <= j < i - 1 ==> ok'[j] == ok[j + 1] && rest[j] == calls[j + 1];
        assert Done(rest, ok', i - 1) && rest[i - 1].what == Delete(e);
      }
    }
  }

  /** Nothing comes in but what is added. */
  lemma {:induction false} ExecWithin(t: set<Entry>, calls: seq<Call>, ok: seq<bool>, s: set<Entry>)
    requires |ok| == |calls| && AddsOnly(calls, s)
    ensures Exec(t, calls, ok) <= t + s
    decreases |calls|
  {
    if |calls| > 0 {
      assert AddsOnly(calls[1..], s);
      ExecWithin(if ok[0] then Effect(t, calls[0].what) else t, calls[1..], ok[1..], s);
    }
  }

  // ----- what the calls of `apply` add and delete

  lemma {:induction false} RouteCalls(gone: seq<Net>, kept: seq<Net>)
    ensures forall i :: 0 <= i < |DeleteRoutes(gone, kept)| ==>
              var call := DeleteRoutes(gone, kept)[i];
              !call.must && call.what.Delete? && call.what.entry.RouteEntry?
              && call.what.entry.net in gone && call.what.entry.net !in kept
    ensures forall n :: n in gone && n !in kept ==> Call(Delete(RouteEntry(n)), false) in DeleteRoutes(gone, kept)
  {
    if |gone| > 0 {
      RouteCalls(gone[1..], kept);
    }
  }

  lemma {:induction false} NetCalls(gone: seq<Net>, kept: seq<Net>)
    ensures forall i :: 0 <= i < |DeleteNets(gone, kept)| ==>
              var call := DeleteNets(gone, kept)[i];
              !call.must && call.what.Delete? && call.what.entry.NetEntry?
              && call.what.entry.net in gone && call.what.entry.net !in kept
    ensures forall n :: n in gone && n !in kept ==> Call(Delete(NetEntry(n)), false) in DeleteNets(gone, kept)
  {
    if |gone| > 0 {
      NetCalls(gone[1..], kept);
    }
  }

  lemma {:induction false} ReplaceCalls(nets: seq<Net>)
    ensures forall i :: 0 <= i < |ReplaceRoutes(nets)| ==>
              var call := ReplaceRoutes(nets)[i];
              call.must && exists n :: n in nets && call.what == Add({RouteEntry(n)})
    ensures forall n :: n in nets ==> Call(Add({RouteEntry(n)}), true) in ReplaceRoutes(nets)
  {
    if |nets| > 0 {
      ReplaceCalls(nets[1..]);
    }
  }

  /** A call of `applyRuntime` is one of these. */
  lemma RuntimeCallIs(spec: Spec, prev: Option<Spec>, call: Call)
    requires prev.Some? ==> SameTech(prev.value, spec)
    requires call in RuntimeCalls(spec, prev)
    ensures call.what.Add? ==> call.what.entries <= EntriesOf(spec)
    ensures call.what.Delete? ==>
              && prev.Some? && !call.must
              && call.what.entry in EntriesOf(prev.value) && call.what.entry !in EntriesOf(spec)
  {
    var gone := if prev.Some? then prev.value.nets else [];
    RouteCalls(gone, spec.nets);
    NetCalls(gone, spec.nets);
    ReplaceCalls(spec.nets);
    forall e
      ensures e in EntriesOf(spec) <==>
                match e
                case PeerEntry(p) => p == spec.peerIp
                case NetEntry(n) => n in spec.nets
                case RouteEntry(n) => spec.tech.Wireguard? && n in spec.nets
    {
      EntriesAre(spec, e);
    }
    if call.what.Delete? {
      if prev.Some? {
        EntriesAre(prev.value, call.what.entry);
      }
    }
  }

  lemma TeardownCallIs(spec: Spec, call: Call)
    requires call in TeardownCalls(spec)
    ensures !call.what.Add?
    ensures call.what.Delete? ==> call.what.entry in EntriesOf(spec) && !call.must
  {
    RouteCalls(spec.nets, []);
    NetCalls(spec.nets, []);
    if call.what.Delete? {
      EntriesAre(spec, call.what.entry);
    }
  }

  /** The calls of `apply` add entries of the new form, and delete entries of the earlier one. */
  lemma ApplyCallsAre(spec: Spec, prev: Option<Spec>)
    ensures AddsOnly(ApplyCalls(spec, prev), EntriesOf(spec))
    ensures DeletesOnly(ApplyCalls(spec, prev), if prev.Some? then EntriesOf(prev.value) else {})
  {
    hide RuntimeCalls, TeardownCalls, EntriesOf;
    var calls := ApplyCalls(spec, prev);
    forall i | 0 <= i < |calls|
      ensures calls[i].what.Add? ==> calls[i].what.entries <= EntriesOf(spec)
      ensures calls[i].what.Delete? ==> prev.Some? && calls[i].what.entry in EntriesOf(prev.value)
    {
      if prev.Some? && !SameTech(prev.value, spec) {
        if calls[i] in TeardownCalls(prev.value) {
          TeardownCallIs(prev.value, calls[i]);
        } else {
          assert calls[i] in RuntimeCalls(spec, None);
          RuntimeCallIs(spec, None, calls[i]);
        }
      } else {
        RuntimeCallIs(spec, prev, calls[i]);
      }
    }
  }

  // ----- what stays behind

  /** Entries of the earlier form that the new one does not have. */
  ghost function StaleEntries(prev: Option<Spec>, spec: Spec): set<Entry> {
    if prev.Some? then EntriesOf(prev.value) - EntriesOf(spec) else {}
  }

  function AllOk(n: nat): seq<bool> {
    seq(n, _ => true)
  }

  lemma ExecAdds(t: set<Entry>, calls: seq<Call>, s: set<Entry>)
    requires AddsOnly(calls, s) && NeverDeletes(calls, t + s)
    requires forall e :: e in s ==> exists i :: 0 <= i < |calls| && calls[i].what.Add? && e in calls[i].what.entries
    ensures Exec(t, calls, AllOk(|calls|)) == t + s
  {
    forall e | e in s
      ensures e in Exec(t, calls, AllOk(|calls|))
    {
      var i :| 0 <= i < |calls| && calls[i].what.Add? && e in calls[i].what.entries;
      ExecAddsOne(t, calls, e, i);
    }
    forall e | e in t
      ensures e in Exec(t, calls, AllOk(|calls|))
    {
      ExecGrows(t, calls, e);
    }
    ExecWithin(t, calls, AllOk(|calls|), s);
  }

  ghost predicate NeverDeletes(calls: seq<Call>, s: set<Entry>) {
    forall i :: 0 <= i < |calls| && calls[i].what.Delete? ==> calls[i].what.entry !in s
  }

  ghost predicate Spares(calls: seq<Call>, e: Entry) {
    forall i :: 0 <= i < |calls| ==> calls[i].what != Delete(e)
  }

  lemma {:induction false} ExecGrows(t: set<Entry>, calls: seq<Call>, e: Entry)
    requires e in t && Spares(calls, e)
    ensures e in Exec(t, calls, AllOk(|calls|))
    decreases |calls|
  {
    if |calls| > 0 {
      assert AllOk(|calls|)[1..] == AllOk(|calls| - 1);
      ExecGrows(Effect(t, calls[0].what), calls[1..], e);
    }
  }

  lemma {:induction false} ExecAddsOne(t: set<Entry>, calls: seq<Call>, e: Entry, i: nat)
    requires i < |calls| && calls[i].what.Add? && e in calls[i].what.entries && Spares(calls, e)
    ensures e in Exec(t, calls, AllOk(|calls|))
    decreases |calls|
  {
    assert AllOk(|calls|)[1..] == AllOk(|calls| - 1);
    if i == 0 {
      ExecGrows(Effect(t, calls[0].what), calls[1..], e);
    } else {
      ExecAddsOne(Effect(t, calls[0].what), calls[1..], e, i - 1);
    }
  }

  /** Applying a specification again adds its entries and deletes nothing. */
  lemma ApplyAgain(t: set<Entry>, spec: Spec)
    ensures var calls := ApplyCalls(spec, Some(spec));
            Exec(t, calls, AllOk(|calls|)) == t + EntriesOf(spec)
  {
    hide Exec, EntriesOf;
    var calls := ApplyCalls(spec, Some(spec));
    ApplyCallsAre(spec, Some(spec));
    NothingDeleted(spec);
    forall e | e in EntriesOf(spec)
      ensures exists i :: 0 <= i < |calls| && calls[i].what.Add? && e in calls[i].what.entries
    {
      var call := AddCall(spec, Some(spec), e);
      var i :| 0 <= i < |calls| && calls[i] == call;
    }
    ExecAdds(t, calls, EntriesOf(spec));
  }

  lemma NothingDeleted(spec: Spec)
    ensures forall i :: 0 <= i < |ApplyCalls(spec, Some(spec))| ==> !ApplyCalls(spec, Some(spec))[i].what.Delete?
  {
    hide RuntimeCalls;
    var calls := ApplyCalls(spec, Some(spec));
    forall i | 0 <= i < |calls|
      ensures !calls[i].what.Delete?
    {
      RuntimeCallIs(spec, Some(spec), calls[i]);
    }
  }

  /** Every entry of the new form has its call. */
  lemma AddCall(spec: Spec, prev: Option<Spec>, e: Entry) returns (call: Call)
    requires e in EntriesOf(spec) && (prev.Some? ==> SameTech(prev.value, spec))
    ensures call in RuntimeCalls(spec, prev) && call.what.Add? && e in call.what.entries
  {
    EntriesAre(spec, e);
    ReplaceCalls(spec.nets);
    call := match e
      case PeerEntry(p) => Call(Add({PeerEntry(spec.peerIp)}), true)
      case NetEntry(n) => Call(Add(NetEntries(spec.nets)), true)
      case RouteEntry(n) => Call(Add({RouteEntry(n)}), true);
  }

  /**
   After an attempt with failing calls, applying the same specification again with everything
   working, however often, leaves what is demanded and exactly those entries of the earlier
   form whose deletion did not happen. So the tables are right if and only if every stale entry
   was deleted before the first failing call the agent insists on.
   */
  lemma ResidueExactly(m: Specs, spec: Spec, ok: seq<bool>, n: nat)
    requires Consistent(m) && n > 0
    requires |ok| == |ApplyCalls(spec, Before(m, spec.id))|
    ensures var prev := Before(m, spec.id);
            var calls := ApplyCalls(spec, prev);
            var demand := Flat(Demand(m[spec.id := spec]));
            var t := Retried(Exec(Flat(Demand(m)), calls, ok), spec, n);
            var residue := set e | e in StaleEntries(prev, spec) && e in Flat(Demand(m)) && !Deleted(calls, ok, e);
            && t == demand + residue
            && demand !! residue
            && (t == demand <==> forall e :: e in StaleEntries(prev, spec) ==> Deleted(calls, ok, e))
  {
    hide ApplyCalls, Exec, Consistent, Deleted, Share, Demand, Retried;
    var prev := Before(m, spec.id);
    var calls := ApplyCalls(spec, prev);
    var before, s := Flat(Demand(m)), EntriesOf(spec);
    var demand := Flat(Demand(m[spec.id := spec]));
    var t1 := Exec(before, calls, ok);
    ApplyCallsAre(spec, prev);
    ManyTimes(t1, spec, n);
    DemandReplaced(m, spec);
    FlatSwapped(Demand(m), prev, spec);
    KnownEntries(m, spec.id);
    assert demand == (if prev.Some? then before - EntriesOf(prev.value) else before) + s;
    forall e | e !in s
      ensures e in t1 <==> e in before && !Deleted(calls, ok, e)
      ensures Deleted(calls, ok, e) ==> prev.Some? && e in EntriesOf(prev.value)
    {
      ExecKeeps(before, calls, ok, s, e);
      DeletedIsOld(spec, prev, ok, e);
    }
    ExecWithin(before, calls, ok, s);
  }

  /**
   A tunnel that never changes, as the application writes it, heals: whichever calls of an
   attempt failed, the next one that works leaves exactly what is demanded.
   */
  lemma FailureHeals(m: Specs, spec: Spec, ok: seq<bool>, n: nat)
    requires Consistent(m) && n > 0 && (spec.id in m ==> m[spec.id] == spec)
    requires |ok| == |ApplyCalls(spec, Before(m, spec.id))|
    ensures Retried(Exec(Flat(Demand(m)), ApplyCalls(spec, Before(m, spec.id)), ok), spec, n)
         == Flat(Demand(m[spec.id := spec]))
  {
    hide ApplyCalls, Exec, Consistent, Deleted, EntriesOf, Demand, Flat, Retried;
    ResidueExactly(m, spec, ok, n);
  }

  /** The same specification applied `n` more times, everything working. */
  ghost function Retried(t: set<Entry>, spec: Spec, n: nat): set<Entry>
    decreases n
  {
    if n == 0 then t
    else
      var calls := ApplyCalls(spec, Some(spec));
      Retried(Exec(t, calls, AllOk(|calls|)), spec, n - 1)
  }

  lemma {:induction false} ManyTimes(t: set<Entry>, spec: Spec, n: nat)
    ensures Retried(t, spec, n) == if n == 0 then t else t + EntriesOf(spec)
    decreases n
  {
    hide Exec, ApplyCalls, EntriesOf;
    if n > 0 {
      var calls := ApplyCalls(spec, Some(spec));
      ApplyAgain(t, spec);
      ManyTimes(Exec(t, calls, AllOk(|calls|)), spec, n - 1);
    }
  }

  lemma DeletedIsOld(spec: Spec, prev: Option<Spec>, ok: seq<bool>, e: Entry)
    requires |ok| == |ApplyCalls(spec, prev)|
    ensures Deleted(ApplyCalls(spec, prev), ok, e) ==> prev.Some? && e in EntriesOf(prev.value)
  {
    hide ApplyCalls, EntriesOf;
    ApplyCallsAre(spec, prev);
  }

  /** What the agent's tunnel has is in what all demand. */
  lemma KnownEntries(m: Specs, id: string)
    ensures id in m ==> EntriesOf(m[id]) <= Flat(Demand(m))
  {
    hide Share, Demand;
    if id in m {
      ShareIsDemanded(m, id);
    }
  }

  // ----- when everything works

  /** Every stale entry has a call that deletes it. */
  lemma StaleHasCall(spec: Spec, prev: Spec, e: Entry) returns (i: nat)
    requires e in StaleEntries(Some(prev), spec)
    ensures i < |ApplyCalls(spec, Some(prev))| && ApplyCalls(spec, Some(prev))[i].what == Delete(e)
  {
    EntriesAre(prev, e);
    EntriesAre(spec, e);
    var kept := if SameTech(prev, spec) then spec.nets else [];
    RouteCalls(prev.nets, kept);
    NetCalls(prev.nets, kept);
    var calls := ApplyCalls(spec, Some(prev));
    var call := match e
      case PeerEntry(p) => Call(Delete(PeerEntry(prev.peerIp)), false)
      case NetEntry(n) => Call(Delete(NetEntry(n)), false)
      case RouteEntry(n) => Call(Delete(RouteEntry(n)), false);
    assert call in calls;
    i :| 0 <= i < |calls| && calls[i] == call;
  }

  lemma {:induction false} ExecSplit(t: set<Entry>, a: seq<Call>, b: seq<Call>)
    ensures Exec(t, a + b, AllOk(|a + b|)) == Exec(Exec(t, a, AllOk(|a|)), b, AllOk(|b|))
    decreases |a|
  {
    if |a| == 0 {
      assert a + b == b;
    } else {
      assert (a + b)[1..] == a[1..] + b;
      assert AllOk(|a + b|)[1..] == AllOk(|a[1..] + b|) && AllOk(|a|)[1..] == AllOk(|a[1..]|);
      ExecSplit(Effect(t, a[0].what), a[1..], b);
    }
  }

  /** When every call works, the new form is in the tables. */
  lemma NewFormIn(t: set<Entry>, spec: Spec, prev: Option<Spec>, e: Entry)
    requires e in EntriesOf(spec)
    ensures e in Exec(t, ApplyCalls(spec, prev), AllOk(|ApplyCalls(spec, prev)|))
  {
    hide Exec, RuntimeCalls, TeardownCalls, EntriesOf;
    if prev.Some? && !SameTech(prev.value, spec) {
      var a := TeardownCalls(prev.value);
      ExecSplit(t, a, RuntimeCalls(spec, None));
      RuntimeAdds(Exec(t, a, AllOk(|a|)), spec, None, e);
    } else {
      RuntimeAdds(t, spec, prev, e);
    }
  }

  lemma RuntimeAdds(t: set<Entry>, spec: Spec, prev: Option<Spec>, e: Entry)
    requires e in EntriesOf(spec) && (prev.Some? ==> SameTech(prev.value, spec))
    ensures e in Exec(t, RuntimeCalls(spec, prev), AllOk(|RuntimeCalls(spec, prev)|))
  {
    hide Exec, RuntimeCalls, EntriesOf;
    var calls := RuntimeCalls(spec, prev);
    var call := AddCall(spec, prev, e);
    var i :| 0 <= i < |calls| && calls[i] == call;
    forall k | 0 <= k < |calls|
      ensures calls[k].what != Delete(e)
    {
      RuntimeCallIs(spec, prev, calls[k]);
    }
    ExecAddsOne(t, calls, e, i);
  }

  /** The calls, all working, do what the agent's methods are proved to do: swap the shares. */
  lemma AllWork(t: Tables, spec: Spec, prev: Option<Spec>)
    ensures var calls := ApplyCalls(spec, prev);
            Exec(Flat(t), calls, AllOk(|calls|)) == Flat(Swapped(t, prev, spec))
  {
    hide Exec, ApplyCalls, EntriesOf, Deleted, Swapped, Flat;
    var calls := ApplyCalls(spec, prev);
    var ok, s := AllOk(|calls|), EntriesOf(spec);
    ApplyCallsAre(spec, prev);
    FlatSwapped(t, prev, spec);
    ExecWithin(Flat(t), calls, ok, s);
    forall e
      ensures e in Exec(Flat(t), calls, ok) <==> e in Flat(Swapped(t, prev, spec))
    {
      if e in s {
        NewFormIn(Flat(t), spec, prev, e);
      } else {
        ExecKeeps(Flat(t), calls, ok, s, e);
        DeletedIsOld(spec, prev, ok, e);
        if prev.Some? && e in EntriesOf(prev.value) {
          var i := StaleHasCall(spec, prev.value, e);
          CallDone(calls, i, e);
        }
      }
    }
  }

  lemma CallDone(calls: seq<Call>, i: nat, e: Entry)
    requires i < |calls| && calls[i].what == Delete(e)
    ensures Deleted(calls, AllOk(|calls|), e)
  {
    assert Done(calls, AllOk(|calls|), i);
  }
}
