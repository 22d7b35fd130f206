/**
 * Address blocks in prefix notation (section 3.1 of RFC 4632; section 2.3 of RFC 4291 for IPv6)
 * and the whitelist decision of Config.cpp, which compares masked addresses for equality.
 */
module Cidr {
  import opened Arithmetic

  function Pow2(n: nat): (p: nat)
    ensures p > 0
  {
    if n == 0 then 1 else 2 * Pow2(n - 1)
  }

  datatype Family = V4 | V6 {
    function Width(): nat {
      if V4? then 32 else 128
    }
  }

  datatype Address = Address(family: Family, value: nat) {
    predicate Fits() {
      value < Pow2(family.Width())
    }
  }

  datatype Network = Network(address: Address, prefix: nat) {
    predicate Fits() {
      address.Fits() && prefix <= address.family.Width()
    }

    /** The number of addresses of the block. */
    function Size(): nat
      requires Fits()
    {
      Pow2(address.family.Width() - prefix)
    }

    /** The block as an interval of addresses. */
    predicate Contains(a: Address)
      requires Fits()
    {
      a.family == address.family && address.value <= a.value < address.value + Size()
    }
  }

  /** The netmask: all ones shifted left by the host bits, cut to the width. */
  function Netmask(width: nat, prefix: nat): nat
    requires prefix <= width
  {
    (Pow2(width) - 1) * Pow2(width - prefix) % Pow2(width)
  }

  /** network(...).canonical(): the host bits cleared. */
  function CanonicalOf(a: Address, prefix: nat): Network
    requires prefix <= a.family.Width()
  {
    Network(Address(a.family, BitAnd(a.value, Netmask(a.family.Width(), prefix))), prefix)
  }

  /** What add_whitelist_entry stores: no host bit is set. */
  predicate Canonical(net: Network) {
    net.Fits() && CanonicalOf(net.address, net.prefix) == net
  }

  predicate Block(net: Network, family: Family) {
    net.address.family == family && Canonical(net)
  }

  predicate Blocks(nets: seq<Network>, family: Family) {
    forall i :: 0 <= i < |nets| ==> Block(nets[i], family)
  }

  datatype Whitelist = Whitelist(v4: seq<Network>, v6: seq<Network>) {
    predicate Valid() {
      Blocks(v4, V4) && Blocks(v6, V6)
    }

    function Of(family: Family): seq<Network> {
      if family.V4? then v4 else v6
    }
  }

  predicate Matches(net: Network, a: Address)
    requires net.address.family == a.family && net.Fits()
  {
    CanonicalOf(a, net.prefix) == net
  }

  // ----- Arithmetic of block sizes -----

  lemma AtLeast(k: int, d: nat)
    ensures k >= 1 ==> k * d >= d
    ensures k <= -1 ==> k * d + d <= 0
  {
    if k >= 1 {
      assert k * d == d + (k - 1) * d;
    } else if k <= -1 {
      assert k * d == (k + 1) * d - d;
    }
  }

  /** Rounding down to a multiple of d gives q * d exactly for the d numbers from q * d on. */
  lemma FloorIs(x: nat, d: nat, q: nat)
    requires d > 0
    ensures x / d * d == q * d <==> q * d <= x < q * d + d
  {
    assert x == x / d * d + x % d;
    if q * d <= x < q * d + d {
      DivisionIsUnique(x, d, q, x - q * d);
    }
  }

  lemma RoundedDown(x: nat, d: nat)
    requires d > 0
    ensures x / d * d % d == 0 && x / d * d <= x
  {
    assert x == x / d * d + x % d;
    DivisionIsUnique(x / d * d, d, x / d, 0);
  }

  lemma MultipleIs(x: nat, d: nat)
    requires d > 0
    ensures x / d * d == x <==> x % d == 0
  {
    assert x == x / d * d + x % d;
  }

  lemma DoubledProduct(x: nat, y: nat)
    ensures 2 * (x * y) == 2 * x * y
  {
  }

  lemma Pow2Adds(m: nat, n: nat)
    ensures Pow2(m + n) == Pow2(m) * Pow2(n)
  {
    if m > 0 {
      Pow2Adds(m - 1, n);
      assert Pow2(m + n) == 2 * Pow2(m - 1 + n) && Pow2(m) == 2 * Pow2(m - 1);
      DoubledProduct(Pow2(m - 1), Pow2(n));
    }
  }

  lemma ShiftedOnes(n: nat, high: nat, low: nat)
    requires high > 0 && low > 0 && n == high * low
    ensures n > 0 && (n - 1) * low % n == (high - 1) * low
  {
    assert (high - 1) * low == n - low;
    AtLeast(high, low);
    assert (n - 1) * low == n * low - low;
    assert (low - 1) * n == low * n - n;
    DivisionIsUnique((n - 1) * low, n, low - 1, n - low);
  }

  /** Only the prefix bits of the netmask are set. */
  lemma NetmaskIs(width: nat, prefix: nat)
    requires prefix <= width
    ensures Netmask(width, prefix) == (Pow2(prefix) - 1) * Pow2(width - prefix)
  {
    Pow2Adds(prefix, width - prefix);
    hide Pow2;
    ShiftedOnes(Pow2(width), Pow2(prefix), Pow2(width - prefix));
  }

  // ----- Masks clear low digits -----

  lemma {:induction false} AllOnesKeeps(n: nat, x: nat)
    requires x < Pow2(n)
    ensures BitAnd(x, Pow2(n) - 1) == x
  {
    hide BitAnd;
    if n == 0 {
      BitAndUnfold(x, 0);
    } else {
      AllOnesKeeps(n - 1, x / 2);
      BitAndStep(x, Pow2(n - 1) - 1);
    }
  }

  lemma Doubles(high: nat, half: nat)
    requires high > 0
    ensures (high - 1) * (2 * half) == 2 * ((high - 1) * half)
  {
  }

  /** Rounding half of x down to a multiple of half the block. */
  lemma HalfRounds(x: nat, half: nat)
    requires half > 0
    ensures 2 * (x / 2 / half * half) == x / (2 * half) * (2 * half)
  {
    var q, r := x / 2 / half, x / 2 % half;
    assert x / 2 == q * half + r;
    assert q * (2 * half) == 2 * (q * half);
    DivisionIsUnique(x, 2 * half, q, 2 * r + x % 2);
  }

  /** Clearing the low bits rounds down to a multiple of the block size. */
  lemma {:induction false} MaskRoundsDown(prefix: nat, host: nat, mask: nat, x: nat)
    requires x < Pow2(prefix + host) && mask == (Pow2(prefix) - 1) * Pow2(host)
    ensures BitAnd(x, mask) == x / Pow2(host) * Pow2(host)
  {
    hide BitAnd;
    if host == 0 {
      AllOnesKeeps(prefix, x);
    } else {
      var half := Pow2(host - 1);
      var low := (Pow2(prefix) - 1) * half;
      MaskRoundsDown(prefix, host - 1, low, x / 2);
      BitAndStep(x, low);
      Doubles(Pow2(prefix), half);
      HalfRounds(x, half);
    }
  }

  /** The masked address is the largest multiple of the block size that does not exceed it. */
  lemma CanonicalRoundsDown(a: Address, prefix: nat)
    requires a.Fits() && prefix <= a.family.Width()
    ensures var size := Pow2(a.family.Width() - prefix);
            CanonicalOf(a, prefix).address.value == a.value / size * size
  {
    var width := a.family.Width();
    NetmaskIs(width, prefix);
    MaskRoundsDown(prefix, width - prefix, Netmask(width, prefix), a.value);
  }

  // ----- Decisions are about intervals -----

  lemma CanonicalIsMultiple(net: Network)
    requires net.Fits()
    ensures Canonical(net) <==> net.address.value % net.Size() == 0
  {
    hide CanonicalOf;
    CanonicalRoundsDown(net.address, net.prefix);
    CanonicalShape(net.address, net.prefix);
    MultipleIs(net.address.value, net.Size());
  }

  lemma CanonicalShape(a: Address, prefix: nat)
    requires prefix <= a.family.Width()
    ensures CanonicalOf(a, prefix).prefix == prefix && CanonicalOf(a, prefix).address.family == a.family
  {
  }

  /** An address matches a stored network exactly when it lies in the network's interval. */
  lemma MatchesIsMembership(net: Network, a: Address)
    requires Canonical(net) && a.Fits() && a.family == net.address.family
    ensures Matches(net, a) <==> net.Contains(a)
  {
    hide CanonicalOf;
    CanonicalRoundsDown(a, net.prefix);
    CanonicalRoundsDown(net.address, net.prefix);
    CanonicalShape(a, net.prefix);
    var d := net.Size();
    var q := net.address.value / d;
    FloorIs(a.value, d, q);
  }

  // ----- The whitelist -----

  predicate AnyMatches(nets: seq<Network>, a: Address)
    requires Blocks(nets, a.family)
  {
    nets != [] && (Matches(nets[0], a) || AnyMatches(nets[1..], a))
  }

  /** is_ip_allowed. */
  predicate IsAllowed(list: Whitelist, a: Address)
    requires list.Valid()
  {
    (list.v4 == [] && list.v6 == []) || AnyMatches(list.Of(a.family), a)
  }

  ghost predicate InSome(nets: seq<Network>, a: Address)
    requires Blocks(nets, a.family)
  {
    exists i :: 0 <= i < |nets| && nets[i].Contains(a)
  }

  lemma {:induction false} AnyMatchesIsMembership(nets: seq<Network>, a: Address)
    requires Blocks(nets, a.family) && a.Fits()
    ensures AnyMatches(nets, a) <==> InSome(nets, a)
  {
    if nets != [] {
      assert Block(nets[0], a.family);
      AnyMatchesIsMembership(nets[1..], a);
      MatchesIsMembership(nets[0], a);
      hide Matches, Canonical, Network.Contains;
      if InSome(nets[1..], a) {
        var i :| 0 <= i < |nets| - 1 && nets[1..][i].Contains(a);
        assert nets[i + 1].Contains(a);
      }
      if InSome(nets, a) {
        var i :| 0 <= i < |nets| && nets[i].Contains(a);
        assert i > 0 ==> nets[1..][i - 1].Contains(a);
      }
    }
  }

  /** The decision refines intervals, for every prefix length from 0 to the full width. */
  lemma AllowedIsMembership(list: Whitelist, a: Address)
    requires list.Valid() && a.Fits()
    ensures IsAllowed(list, a) <==> (list.v4 == [] && list.v6 == []) || InSome(list.Of(a.family), a)
  {
    AnyMatchesIsMembership(list.Of(a.family), a);
  }

  /** canonical() gives a canonical network, so a network with host bits set would admit nobody. */
  lemma StrayNetworkMatchesNobody(net: Network, a: Address)
    requires net.Fits() && a.Fits() && a.family == net.address.family && !Canonical(net)
    ensures !Matches(net, a)
  {
    hide CanonicalOf;
    CanonicalRoundsDown(a, net.prefix);
    CanonicalShape(a, net.prefix);
    CanonicalIsMultiple(net);
    var d := net.Size();
    RoundedDown(a.value, d);
  }

  // ----- Blocks are nested or disjoint -----

  /** The test a mask gives for one block lying inside another. */
  predicate Inside(inner: Network, outer: Network)
    requires inner.Fits() && outer.Fits()
  {
    inner.address.family == outer.address.family && outer.prefix <= inner.prefix && outer.Contains(inner.address)
  }

  lemma MultiplesApart(x: nat, y: nat, d: nat)
    requires d > 0 && x % d == 0 && y % d == 0 && x < y
    ensures x + d <= y
  {
    var m, n := x / d, y / d;
    assert x == m * d && y == n * d;
    assert (n - m) * d == n * d - m * d;
    AtLeast(n - m, d);
  }

  lemma FactorDivides(x: nat, k: nat, d: nat)
    requires d > 0 && k > 0 && x % (k * d) == 0
    ensures x % d == 0 && (x + k * d) % d == 0 && d <= k * d
  {
    var n := k * d;
    var q := x / n;
    assert x == q * n;
    assert q * n == q * k * d;
    DivisionIsUnique(x, d, q * k, 0);
    assert (q * k + k) * d == q * k * d + k * d;
    DivisionIsUnique(x + n, d, q * k + k, 0);
    AtLeast(k, d);
  }

  lemma InsideMultiples(inner: Network, outer: Network)
    requires Canonical(inner) && Canonical(outer) && inner.address.family == outer.address.family
    requires outer.prefix <= inner.prefix
    ensures inner.Size() <= outer.Size()
    ensures inner.address.value % inner.Size() == 0 && outer.address.value % inner.Size() == 0
    ensures (outer.address.value + outer.Size()) % inner.Size() == 0
  {
    hide CanonicalOf, Address.Fits, Pow2;
    CanonicalIsMultiple(inner);
    CanonicalIsMultiple(outer);
    Pow2Adds(inner.prefix - outer.prefix, inner.address.family.Width() - inner.prefix);
    FactorDivides(outer.address.value, Pow2(inner.prefix - outer.prefix), inner.Size());
  }

  /** A block whose first address lies in a larger block lies in it entirely. */
  lemma InsideIsInclusion(inner: Network, outer: Network, a: Address)
    requires Canonical(inner) && Canonical(outer) && Inside(inner, outer) && inner.Contains(a)
    ensures outer.Contains(a)
  {
    hide CanonicalOf, Address.Fits;
    InsideMultiples(inner, outer);
    MultiplesApart(inner.address.value, outer.address.value + outer.Size(), inner.Size());
  }

  lemma SharedMeansNested(m: Network, n: Network, a: Address)
    requires Canonical(m) && Canonical(n) && m.Contains(a) && n.Contains(a)
    ensures Inside(m, n) || Inside(n, m)
  {
    hide CanonicalOf, Address.Fits;
    if n.prefix <= m.prefix {
      SharedStart(m, n, a);
    } else {
      SharedStart(n, m, a);
    }
  }

  /** Two blocks share an address exactly when one lies inside the other. */
  lemma NestedOrDisjoint(m: Network, n: Network)
    requires Canonical(m) && Canonical(n)
    ensures (exists a: Address :: m.Contains(a) && n.Contains(a)) <==> Inside(m, n) || Inside(n, m)
  {
    if a: Address :| m.Contains(a) && n.Contains(a) {
      SharedMeansNested(m, n, a);
    }
    assert m.Contains(m.address) && n.Contains(n.address);
  }

  lemma SharedStart(inner: Network, outer: Network, a: Address)
    requires Canonical(inner) && Canonical(outer) && outer.prefix <= inner.prefix
    requires inner.Contains(a) && outer.Contains(a)
    ensures Inside(inner, outer)
  {
    hide CanonicalOf, Address.Fits;
    InsideMultiples(inner, outer);
    var x, y := inner.address.value, outer.address.value;
    if x < y {
      MultiplesApart(x, y, inner.Size());
    }
  }

  // ----- Redundant entries -----

  function Without(nets: seq<Network>, i: nat): seq<Network>
    requires i < |nets|
  {
    nets[..i] + nets[i + 1..]
  }

  /** An entry that lies inside another one of the list can be dropped: no decision changes. */
  lemma RedundantEntry(list: Whitelist, family: Family, i: nat, j: nat, a: Address)
    requires list.Valid() && a.Fits()
    requires i < |list.Of(family)| && j < |list.Of(family)| && i != j
    requires Inside(list.Of(family)[i], list.Of(family)[j])
    ensures var rest := Without(list.Of(family), i);
            var fewer := if family.V4? then Whitelist(rest, list.v6) else Whitelist(list.v4, rest);
            fewer.Valid() && (IsAllowed(fewer, a) <==> IsAllowed(list, a))
  {
    hide Block, Inside, Network.Contains, AnyMatches, InSome;
    var nets := list.Of(family);
    var rest := Without(nets, i);
    var fewer := if family.V4? then Whitelist(rest, list.v6) else Whitelist(list.v4, rest);
    WithoutKeeps(nets, i);
    assert Blocks(rest, family);
    AllowedIsMembership(list, a);
    AllowedIsMembership(fewer, a);
    if a.family == family {
      SameMembers(nets, i, j, a);
    }
  }

  lemma WithoutKeeps(nets: seq<Network>, i: nat)
    requires i < |nets|
    ensures |Without(nets, i)| == |nets| - 1
    ensures forall k :: 0 <= k < |nets| - 1 ==> Without(nets, i)[k] == nets[if k < i then k else k + 1]
  {
  }

  lemma WithoutHas(nets: seq<Network>, i: nat, k: nat)
    requires i < |nets| && k < |nets| && k != i
    ensures |Without(nets, i)| == |nets| - 1 && Without(nets, i)[if k < i then k else k - 1] == nets[k]
  {
  }

  lemma SameMembers(nets: seq<Network>, i: nat, j: nat, a: Address)
    requires Blocks(nets, a.family)
    requires i < |nets| && j < |nets| && i != j
    requires Block(nets[i], a.family) && Block(nets[j], a.family) && Inside(nets[i], nets[j])
    ensures Blocks(Without(nets, i), a.family)
    ensures InSome(Without(nets, i), a) <==> InSome(nets, a)
  {
    WithoutKeeps(nets, i);
    if InSome(nets, a) {
      var k :| 0 <= k < |nets| && nets[k].Contains(a);
      if k == i {
        InsideIsInclusion(nets[i], nets[j], a);
        k := j;
      }
      MemberKept(nets, i, k, a);
    }
    hide Block, Inside, Network.Contains, Without;
    var rest := Without(nets, i);
    if InSome(rest, a) {
      var k :| 0 <= k < |rest| && rest[k].Contains(a);
      assert nets[if k < i then k else k + 1].Contains(a);
    }
  }

  lemma MemberKept(nets: seq<Network>, i: nat, k: nat, a: Address)
    requires i < |nets| && k < |nets| && k != i
    requires Blocks(nets, a.family) && Blocks(Without(nets, i), a.family) && nets[k].Contains(a)
    ensures InSome(Without(nets, i), a)
  {
    WithoutHas(nets, i, k);
  }
}
