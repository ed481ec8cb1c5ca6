/**
 IPv4 networks as the tunnel agent judges them (lib/net/ip.ts, lib/site-tunnels/rules.ts):
 when two networks overlap, when one lies within another, and which lists of networks and
 which peers a tunnel may name.
 */
module Networks {
  import opened Basics

  const ADDRESSES: nat := 0x1_0000_0000
  const MAX_SITE_NETS: nat := 8
  const MIN_NET_PREFIX: nat := 16

  /** A network as written: base address and prefix length. */
  datatype Net = Net(base: nat, prefix: nat)

  function Ip(a: nat, b: nat, c: nat, d: nat): nat {
    ((a * 256 + b) * 256 + c) * 256 + d
  }

  function Pow2(n: nat): (r: nat)
    ensures r > 0
  {
    if n == 0 then 1 else 2 * Pow2(n - 1)
  }

  /** How many addresses a network of this prefix has. */
  function Span(prefix: nat): (r: nat)
    ensures r > 0
  {
    Pow2(if prefix <= 32 then 32 - prefix else 0)
  }

  /** Written with its host bits zero, as `parseCidr` would print it. */
  predicate Canonical(n: Net) {
    n.prefix <= 32 && n.base < ADDRESSES && n.base % Span(n.prefix) == 0
  }

  /** `ipInRange` */
  predicate Contains(n: Net, x: nat) {
    x - x % Span(n.prefix) == n.base
  }

  /** `rangesOverlap`: equal once both are cut to the shorter prefix. */
  predicate RangesOverlap(a: Net, b: Net) {
    var span := Span(if a.prefix <= b.prefix then a.prefix else b.prefix);
    a.base / span == b.base / span
  }

  /** `rangeWithin` */
  predicate RangeWithin(inner: Net, outer: Net) {
    inner.prefix >= outer.prefix && RangesOverlap(inner, outer)
  }

  // ----- what overlapping means for addresses

  lemma {:induction false} PowSplit(p: nat, q: nat)
    requires q <= p
    ensures Pow2(p) == Pow2(q) * Pow2(p - q)
  {
    if q < p {
      PowSplit(p - 1, q);
      assert Pow2(p - q) == 2 * Pow2(p - 1 - q);
    }
  }

  lemma QuotientUnique(x: nat, m: nat, q: nat)
    requires m > 0 && m * q <= x < m * (q + 1)
    ensures x / m == q
  {
    var d := x / m;
    assert m * d <= x < m * (d + 1);
    if d + 1 <= q {
      Scale(m, d + 1, q);
    } else if q + 1 <= d {
      Scale(m, q + 1, d);
    }
  }

  /** Cutting twice is cutting by the product. */
  lemma DivDiv(x: nat, m: nat, k: nat)
    requires m > 0 && k > 0
    ensures m * k > 0 && x / (m * k) == x / m / k
  {
    var d := x / m;
    var q := d / k;
    Bracket(x, m);
    Bracket(d, k);
    Scale(m, k * q, d);
    Scale(m, d + 1, k * (q + 1));
    Associate(m, k, q);
    Associate(m, k, q + 1);
    Scale(m, 1, k);
    QuotientUnique(x, m * k, q);
  }

  lemma Associate(a: int, b: int, c: int)
    ensures a * (b * c) == a * b * c
  {
  }

  lemma Bracket(x: nat, m: nat)
    requires m > 0
    ensures m * (x / m) <= x < m * (x / m + 1)
  {
  }

  lemma Coarser(x: nat, y: nat, fine: nat, coarse: nat)
    requires coarse <= fine <= 32 && x / Span(fine) == y / Span(fine)
    ensures x / Span(coarse) == y / Span(coarse)
  {
    PowSplit(32 - coarse, 32 - fine);
    DivDiv(x, Span(fine), Pow2(fine - coarse));
    DivDiv(y, Span(fine), Pow2(fine - coarse));
  }

  /** An address lies in a network when both agree in the prefix. */
  lemma ContainsIsPrefix(n: Net, x: nat)
    requires Canonical(n)
    ensures Contains(n, x) <==> x / Span(n.prefix) == n.base / Span(n.prefix)
  {
    var m := Span(n.prefix);
    assert x - x % m == m * (x / m) && n.base == m * (n.base / m);
    if Contains(n, x) {
      QuotientUnique(x, m, n.base / m);
    }
  }

  /** Two networks overlap exactly when some address lies in both. */
  lemma OverlapIsShared(a: Net, b: Net)
    requires Canonical(a) && Canonical(b)
    ensures RangesOverlap(a, b) <==> exists x: nat :: Contains(a, x) && Contains(b, x)
    decreases b.prefix < a.prefix
  {
    if b.prefix < a.prefix {
      OverlapIsShared(b, a);
    } else {
      if RangesOverlap(a, b) {
        ContainsIsPrefix(a, b.base);
        ContainsIsPrefix(b, b.base);
        assert Contains(a, b.base) && Contains(b, b.base);
      }
      forall x: nat | Contains(a, x) && Contains(b, x)
        ensures RangesOverlap(a, b)
      {
        ContainsIsPrefix(a, x);
        ContainsIsPrefix(b, x);
        Coarser(x, b.base, b.prefix, a.prefix);
      }
    }
  }

  /** When a network lies within another, so do all its addresses. */
  lemma WithinIsContained(inner: Net, outer: Net, x: nat)
    requires Canonical(inner) && Canonical(outer) && RangeWithin(inner, outer) && Contains(inner, x)
    ensures Contains(outer, x)
  {
    ContainsIsPrefix(inner, x);
    ContainsIsPrefix(outer, x);
    Coarser(x, inner.base, inner.prefix, outer.prefix);
  }

  lemma OverlapSymmetric(a: Net, b: Net)
    ensures RangesOverlap(a, b) <==> RangesOverlap(b, a)
  {
  }

  // ----- which networks and peers a tunnel may name

  const PRIVATE_V4: seq<Net> := [Net(Ip(10, 0, 0, 0), 8), Net(Ip(172, 16, 0, 0), 12), Net(Ip(192, 168, 0, 0), 16)]

  /** The networks of the service itself: nodes, administration, service address. */
  const RESERVED: seq<Net> := [Net(Ip(10, 8, 0, 0), 24), Net(Ip(10, 9, 0, 0), 24), Net(Ip(10, 21, 0, 0), 24)]

  const NON_PUBLIC_V4: seq<Net> := [
    Net(Ip(0, 0, 0, 0), 8), Net(Ip(10, 0, 0, 0), 8), Net(Ip(100, 64, 0, 0), 10), Net(Ip(127, 0, 0, 0), 8),
    Net(Ip(169, 254, 0, 0), 16), Net(Ip(172, 16, 0, 0), 12), Net(Ip(192, 0, 0, 0), 24), Net(Ip(192, 0, 2, 0), 24),
    Net(Ip(192, 88, 99, 0), 24), Net(Ip(192, 168, 0, 0), 16), Net(Ip(198, 18, 0, 0), 15),
    Net(Ip(198, 51, 100, 0), 24), Net(Ip(203, 0, 113, 0), 24), Net(Ip(224, 0, 0, 0), 4), Net(Ip(240, 0, 0, 0), 4)]

  predicate NetAllowed(n: Net) {
    && Canonical(n) && n.prefix >= MIN_NET_PREFIX
    && (exists i :: 0 <= i < |PRIVATE_V4| && RangeWithin(n, PRIVATE_V4[i]))
    && (forall i :: 0 <= i < |RESERVED| ==> !RangesOverlap(n, RESERVED[i]))
  }

  /** The networks do not overlap one another. */
  predicate Apart(nets: seq<Net>) {
    forall i, j :: 0 <= i < j < |nets| ==> !RangesOverlap(nets[i], nets[j])
  }

  predicate NetsAllowed(nets: seq<Net>) {
    && 0 < |nets| <= MAX_SITE_NETS
    && (forall i :: 0 <= i < |nets| ==> NetAllowed(nets[i]))
    && Apart(nets)
  }

  predicate PeerAllowed(ip: nat) {
    ip < ADDRESSES && forall i :: 0 <= i < |NON_PUBLIC_V4| ==> !RangeWithin(Net(ip, 32), NON_PUBLIC_V4[i])
  }

  method Overlaps(n: Net, others: seq<Net>) returns (r: bool)
    ensures r <==> exists k :: 0 <= k < |others| && RangesOverlap(others[k], n)
  {
    for i := 0 to |others|
      invariant forall k :: 0 <= k < i ==> !RangesOverlap(others[k], n)
    {
      if RangesOverlap(others[i], n) {
        return true;
      }
    }
    return false;
  }

  /** `agentNetsAllowed` */
  method AgentNetsAllowed(nets: seq<Net>) returns (ok: bool)
    ensures ok <==> NetsAllowed(nets)
  {
    hide RangesOverlap, NetAllowed;
    if |nets| == 0 || |nets| > MAX_SITE_NETS {
      return false;
    }
    var ranges := [];
    for k := 0 to |nets|
      invariant ranges == nets[..k]
      invariant forall i :: 0 <= i < k ==> NetAllowed(nets[i])
      invariant Apart(nets[..k])
    {
      if !NetAllowed(nets[k]) {
        return false;
      }
      var taken := Overlaps(nets[k], ranges);
      if taken {
        return false;
      }
      assert nets[..k + 1] == nets[..k] + [nets[k]];
      ranges := ranges + [nets[k]];
    }
    assert nets[..|nets|] == nets;
    return true;
  }

  /** Every address of an accepted network is private and none belongs to the service. */
  lemma AllowedAddresses(n: Net, x: nat)
    requires NetAllowed(n) && Contains(n, x)
    ensures exists i :: 0 <= i < |PRIVATE_V4| && Contains(PRIVATE_V4[i], x)
    ensures forall i :: 0 <= i < |RESERVED| ==> !Contains(RESERVED[i], x)
  {
    hide RangesOverlap, Contains, RangeWithin;
    KnownCanonical();
    var i :| 0 <= i < |PRIVATE_V4| && RangeWithin(n, PRIVATE_V4[i]);
    WithinIsContained(n, PRIVATE_V4[i], x);
    forall j | 0 <= j < |RESERVED|
      ensures !Contains(RESERVED[j], x)
    {
      OverlapIsShared(n, RESERVED[j]);
    }
  }

  lemma KnownCanonical()
    ensures forall i :: 0 <= i < |PRIVATE_V4| ==> Canonical(PRIVATE_V4[i])
    ensures forall i :: 0 <= i < |RESERVED| ==> Canonical(RESERVED[i])
  {
    assert Pow2(8) == 256;
    PowSplit(16, 8);
    PowSplit(24, 16);
    PowSplit(20, 16);
    assert Pow2(4) == 16;
  }

  // ----- the same in octets

  /** The private ranges of RFC 1918. */
  predicate PrivateOctets(a: nat, b: nat) {
    a == 10 || (a == 172 && 16 <= b <= 31) || (a == 192 && b == 168)
  }

  /** Addresses that are not reachable from everywhere: the IANA special-purpose registry. */
  predicate SpecialOctets(a: nat, b: nat, c: nat) {
    || a == 0 || a == 10 || a == 127 || a >= 224
    || (a == 100 && 64 <= b <= 127)
    || (a == 169 && b == 254)
    || (a == 172 && 16 <= b <= 31)
    || (a == 192 && b == 0 && (c == 0 || c == 2))
    || (a == 192 && b == 88 && c == 99)
    || (a == 192 && b == 168)
    || (a == 198 && (b == 18 || b == 19))
    || (a == 198 && b == 51 && c == 100)
    || (a == 203 && b == 0 && c == 113)
  }

  lemma Spans()
    ensures Span(4) == 0x1000_0000 && Span(8) == 0x100_0000 && Span(10) == 0x40_0000 && Span(12) == 0x10_0000
    ensures Span(15) == 0x2_0000 && Span(16) == 0x1_0000 && Span(24) == 0x100 && Span(32) == 1
  {
    assert Pow2(8) == 256;
    PowSplit(16, 8);
    PowSplit(17, 16);
    PowSplit(20, 16);
    PowSplit(22, 16);
    PowSplit(24, 16);
    PowSplit(28, 24);
    assert Pow2(4) == 16 && Pow2(6) == 64;
  }

  /** An address cut to its first bits. */
  lemma Quotients(a: nat, b: nat, c: nat, d: nat)
    requires a < 256 && b < 256 && c < 256 && d < 256
    ensures Ip(a, b, c, d) / 0x1000_0000 == a / 16 && Ip(a, b, c, d) / 0x100_0000 == a
    ensures Ip(a, b, c, d) / 0x40_0000 == 4 * a + b / 64 && Ip(a, b, c, d) / 0x10_0000 == 16 * a + b / 16
    ensures Ip(a, b, c, d) / 0x2_0000 == 128 * a + b / 2 && Ip(a, b, c, d) / 0x1_0000 == 256 * a + b
    ensures Ip(a, b, c, d) / 0x100 == 65536 * a + 256 * b + c
  {
  }

  /** A single address lies within a network when both begin with the same bits. */
  lemma PeerWithin(ip: nat, n: Net)
    requires n.prefix <= 32
    ensures RangeWithin(Net(ip, 32), n) <==> ip / Span(n.prefix) == n.base / Span(n.prefix)
  {
  }

  lemma OctetRanges(a: nat, b: nat, c: nat, d: nat)
    requires a < 256 && b < 256 && c < 256 && d < 256
    ensures var ip := Net(Ip(a, b, c, d), 32);
            && (RangeWithin(ip, NON_PUBLIC_V4[0]) <==> a == 0)
            && (RangeWithin(ip, NON_PUBLIC_V4[1]) <==> a == 10)
            && (RangeWithin(ip, NON_PUBLIC_V4[3]) <==> a == 127)
            && (RangeWithin(ip, NON_PUBLIC_V4[13]) <==> 224 <= a <= 239)
            && (RangeWithin(ip, NON_PUBLIC_V4[14]) <==> a >= 240)
  {
    hide RangeWithin, Span, Ip;
    Spans();
    Quotients(a, b, c, d);
    Quotients(0, 0, 0, 0);
    Quotients(10, 0, 0, 0);
    Quotients(127, 0, 0, 0);
    Quotients(224, 0, 0, 0);
    Quotients(240, 0, 0, 0);
    var ip := Ip(a, b, c, d);
    PeerWithin(ip, NON_PUBLIC_V4[0]);
    PeerWithin(ip, NON_PUBLIC_V4[1]);
    PeerWithin(ip, NON_PUBLIC_V4[3]);
    PeerWithin(ip, NON_PUBLIC_V4[13]);
    PeerWithin(ip, NON_PUBLIC_V4[14]);
  }

  /** The first ten, twelve and fifteen bits. */
  lemma FirstBits(a: nat, b: nat)
    requires a < 256 && b < 256
    ensures 4 * a + b / 64 == 401 <==> a == 100 && 64 <= b <= 127
    ensures 16 * a + b / 16 == 2753 <==> a == 172 && 16 <= b <= 31
    ensures 128 * a + b / 2 == 25353 <==> a == 198 && (b == 18 || b == 19)
  {
  }

  lemma WideRanges(a: nat, b: nat, c: nat, d: nat)
    requires a < 256 && b < 256 && c < 256 && d < 256
    ensures var ip := Net(Ip(a, b, c, d), 32);
            && (RangeWithin(ip, NON_PUBLIC_V4[2]) <==> a == 100 && 64 <= b <= 127)
            && (RangeWithin(ip, NON_PUBLIC_V4[5]) <==> a == 172 && 16 <= b <= 31)
            && (RangeWithin(ip, NON_PUBLIC_V4[10]) <==> a == 198 && (b == 18 || b == 19))
  {
    hide RangeWithin, Span, Ip;
    Spans();
    Quotients(a, b, c, d);
    Quotients(100, 64, 0, 0);
    Quotients(172, 16, 0, 0);
    Quotients(198, 18, 0, 0);
    FirstBits(a, b);
    var ip := Ip(a, b, c, d);
    PeerWithin(ip, NON_PUBLIC_V4[2]);
    PeerWithin(ip, NON_PUBLIC_V4[5]);
    PeerWithin(ip, NON_PUBLIC_V4[10]);
  }

  lemma NarrowRanges(a: nat, b: nat, c: nat, d: nat)
    requires a < 256 && b < 256 && c < 256 && d < 256
    ensures var ip := Net(Ip(a, b, c, d), 32);
            && (RangeWithin(ip, NON_PUBLIC_V4[4]) <==> a == 169 && b == 254)
            && (RangeWithin(ip, NON_PUBLIC_V4[6]) <==> a == 192 && b == 0 && c == 0)
            && (RangeWithin(ip, NON_PUBLIC_V4[7]) <==> a == 192 && b == 0 && c == 2)
            && (RangeWithin(ip, NON_PUBLIC_V4[8]) <==> a == 192 && b == 88 && c == 99)
            && (RangeWithin(ip, NON_PUBLIC_V4[9]) <==> a == 192 && b == 168)
            && (RangeWithin(ip, NON_PUBLIC_V4[11]) <==> a == 198 && b == 51 && c == 100)
            && (RangeWithin(ip, NON_PUBLIC_V4[12]) <==> a == 203 && b == 0 && c == 113)
  {
    hide RangeWithin, Span, Ip;
    Spans();
    Quotients(a, b, c, d);
    Quotients(169, 254, 0, 0);
    Quotients(192, 0, 0, 0);
    Quotients(192, 0, 2, 0);
    Quotients(192, 88, 99, 0);
    Quotients(192, 168, 0, 0);
    Quotients(198, 51, 100, 0);
    Quotients(203, 0, 113, 0);
    var ip := Ip(a, b, c, d);
    PeerWithin(ip, NON_PUBLIC_V4[4]);
    PeerWithin(ip, NON_PUBLIC_V4[6]);
    PeerWithin(ip, NON_PUBLIC_V4[7]);
    PeerWithin(ip, NON_PUBLIC_V4[8]);
    PeerWithin(ip, NON_PUBLIC_V4[9]);
    PeerWithin(ip, NON_PUBLIC_V4[11]);
    PeerWithin(ip, NON_PUBLIC_V4[12]);
  }

  /**
   A peer is allowed if and only if it lies in none of the fifteen ranges that are not public,
   written out by their octets.
   */
  lemma PeerAllowedExactly(a: nat, b: nat, c: nat, d: nat)
    requires a < 256 && b < 256 && c < 256 && d < 256
    ensures PeerAllowed(Ip(a, b, c, d)) <==> !SpecialOctets(a, b, c)
  {
    hide RangeWithin;
    OctetRanges(a, b, c, d);
    WideRanges(a, b, c, d);
    NarrowRanges(a, b, c, d);
    var ip := Net(Ip(a, b, c, d), 32);
    assert PeerAllowed(Ip(a, b, c, d)) <==> forall i :: 0 <= i < 15 ==> !RangeWithin(ip, NON_PUBLIC_V4[i]);
  }

  /** Every address is made of its octets. */
  lemma Octets(x: nat)
    requires x < ADDRESSES
    ensures x / 0x100_0000 < 256
    ensures x == Ip(x / 0x100_0000, x / 0x1_0000 % 256, x / 0x100 % 256, x % 256)
  {
    var y, z := x / 256, x / 0x1_0000;
    assert x == 256 * y + x % 256 && y == 256 * z + x / 0x100 % 256;
  }

  predicate PrivateAddress(x: nat) {
    PrivateOctets(x / 0x100_0000, x / 0x1_0000 % 256)
  }

  /** In one of the service's own networks: 10.8.0.*, 10.9.0.* and 10.21.0.*. */
  predicate ServiceAddress(x: nat) {
    var b := x / 0x1_0000 % 256;
    x / 0x100_0000 == 10 && (b == 8 || b == 9 || b == 21) && x / 0x100 % 256 == 0
  }

  lemma PrivateExactly(x: nat)
    ensures (exists i :: 0 <= i < |PRIVATE_V4| && Contains(PRIVATE_V4[i], x)) <==> PrivateAddress(x)
  {
    hide Span, Contains, Canonical, Ip;
    Spans();
    Quotients(10, 0, 0, 0);
    Quotients(172, 16, 0, 0);
    Quotients(192, 168, 0, 0);
    KnownCanonical();
    ContainsIsPrefix(PRIVATE_V4[0], x);
    ContainsIsPrefix(PRIVATE_V4[1], x);
    ContainsIsPrefix(PRIVATE_V4[2], x);
    TopBits(x);
  }

  lemma ServiceExactly(x: nat)
    ensures (exists i :: 0 <= i < |RESERVED| && Contains(RESERVED[i], x)) <==> ServiceAddress(x)
  {
    hide Span, Contains, Canonical, Ip;
    Spans();
    Quotients(10, 8, 0, 0);
    Quotients(10, 9, 0, 0);
    Quotients(10, 21, 0, 0);
    KnownCanonical();
    ContainsIsPrefix(RESERVED[0], x);
    ContainsIsPrefix(RESERVED[1], x);
    ContainsIsPrefix(RESERVED[2], x);
    TopBits(x);
  }

  /** The first 12, 16 and 24 bits of an address, by its octets. */
  lemma TopBits(x: nat)
    ensures x / 0x10_0000 == 16 * (x / 0x100_0000) + x / 0x1_0000 % 256 / 16
    ensures x / 0x1_0000 == 256 * (x / 0x100_0000) + x / 0x1_0000 % 256
    ensures x / 0x100 == 256 * (x / 0x1_0000) + x / 0x100 % 256
  {
    var y, z := x / 0x100, x / 0x1_0000;
    assert y / 256 == z && z / 16 == x / 0x10_0000 && z / 256 == x / 0x100_0000;
    Halves(z);
  }

  lemma Halves(z: nat)
    ensures z / 16 == 16 * (z / 256) + z % 256 / 16
  {
    var q, rest := z / 256, z % 256;
    assert z == 16 * (16 * q) + rest;
  }

  /**
   A network is accepted if and only if it is written with its host bits zero, from /16 on, and
   all its addresses are private and none belongs to the service.
   */
  lemma NetAllowedExactly(n: Net)
    ensures NetAllowed(n) <==>
              && 16 <= n.prefix <= 32 && n.base < ADDRESSES && n.base % Span(n.prefix) == 0
              && forall x: nat :: Contains(n, x) ==> PrivateAddress(x) && !ServiceAddress(x)
  {
    hide Contains, PrivateAddress, ServiceAddress, RangesOverlap;
    if Canonical(n) && n.prefix >= 16 {
      forall x: nat | NetAllowed(n) && Contains(n, x)
        ensures PrivateAddress(x) && !ServiceAddress(x)
      {
        AllowedAddresses(n, x);
        PrivateExactly(x);
        ServiceExactly(x);
      }
      if forall x: nat :: Contains(n, x) ==> PrivateAddress(x) && !ServiceAddress(x) {
        ContainsBase(n);
        WithinPrivate(n);
        OutsideService(n);
      }
    }
  }

  /** One to eight accepted networks, and no address in two of them. */
  lemma NetsAllowedExactly(nets: seq<Net>)
    ensures NetsAllowed(nets) <==>
              && 1 <= |nets| <= 8 && (forall i :: 0 <= i < |nets| ==> NetAllowed(nets[i]))
              && forall i, j, x: nat :: 0 <= i < j < |nets| && Contains(nets[i], x) ==> !Contains(nets[j], x)
  {
    hide Contains, RangesOverlap, RangeWithin;
    forall i, j | 0 <= i < j < |nets| && NetAllowed(nets[i]) && NetAllowed(nets[j])
      ensures RangesOverlap(nets[i], nets[j]) <==> exists x: nat :: Contains(nets[i], x) && Contains(nets[j], x)
    {
      OverlapIsShared(nets[i], nets[j]);
    }
  }

  lemma ContainsBase(n: Net)
    requires Canonical(n)
    ensures Contains(n, n.base)
  {
  }

  lemma WithinPrivate(n: Net)
    requires Canonical(n) && n.prefix >= 16 && PrivateAddress(n.base)
    ensures exists i :: 0 <= i < |PRIVATE_V4| && RangeWithin(n, PRIVATE_V4[i])
  {
    hide Contains, PrivateAddress, Span;
    PrivateExactly(n.base);
    KnownCanonical();
    var i :| 0 <= i < |PRIVATE_V4| && Contains(PRIVATE_V4[i], n.base);
    ContainsIsPrefix(PRIVATE_V4[i], n.base);
    assert RangeWithin(n, PRIVATE_V4[i]);
  }

  lemma OutsideService(n: Net)
    requires Canonical(n) && forall x: nat :: Contains(n, x) ==> !ServiceAddress(x)
    ensures forall i :: 0 <= i < |RESERVED| ==> !RangesOverlap(n, RESERVED[i])
  {
    hide Contains, ServiceAddress, RangesOverlap;
    KnownCanonical();
    forall i | 0 <= i < |RESERVED|
      ensures !RangesOverlap(n, RESERVED[i])
    {
      OverlapIsShared(n, RESERVED[i]);
      forall x: nat | Contains(n, x)
        ensures !Contains(RESERVED[i], x)
      {
        ServiceExactly(x);
      }
    }
  }

  /** No peer lies in a network of any tunnel. */
  lemma PeersOutside(peer: nat, n: Net)
    requires PeerAllowed(peer) && NetAllowed(n)
    ensures !Contains(n, peer)
  {
    hide NetAllowed;
    if Contains(n, peer) {
      hide PeerAllowed, Contains, Ip;
      BelowAll(peer);
      NetAllowedExactly(n);
      Octets(peer);
      PeerAllowedExactly(peer / 0x100_0000, peer / 0x1_0000 % 256, peer / 0x100 % 256, peer % 256);
    }
  }

  lemma BelowAll(peer: nat)
    requires PeerAllowed(peer)
    ensures peer < ADDRESSES
  {
  }
}
