/**
 * Prefix masks over machine words: ECS scope zeroing (src/core/resolver/forward.rs,
 * `scope_zero_subnet`) and IPv4 CIDR membership (src/core/filter/mod.rs, `Ipv4Cidr::contains`).
 *
 * A word is its bits, most significant first, so 32- and 128-bit addresses are treated at once.
 */
module AddressMask {
  import opened Prelude

  type Word = seq<bool>

  function Repeat(b: bool, n: nat): (w: Word)
    ensures |w| == n && forall i :: 0 <= i < n ==> w[i] == b
  {
    seq(n, _ => b)
  }

  /** The unsigned number a word stands for. */
  function Value(w: Word): nat {
    if w == [] then 0
    else 2 * Value(w[..|w| - 1]) + (if w[|w| - 1] then 1 else 0)
  }

  function Pow2(n: nat): (p: nat)
    ensures p >= 1
  {
    if n == 0 then 1 else 2 * Pow2(n - 1)
  }

  function And(a: Word, b: Word): (r: Word)
    requires |a| == |b|
    ensures |r| == |a| && forall i :: 0 <= i < |a| ==> r[i] == (a[i] && b[i])
  {
    seq(|a|, i requires 0 <= i < |a| => a[i] && b[i])
  }

  /** `w << k` at the word's own width. */
  function ShiftLeft(w: Word, k: nat): Word
    requires k <= |w|
  {
    w[k..] + Repeat(false, k)
  }

  function Mask(width: nat, prefix: nat): (m: Word)
    ensures |m| == width
  {
    if prefix == 0 then Repeat(false, width)
    else if prefix >= width then Repeat(true, width)
    else ShiftLeft(Repeat(true, width), width - prefix)
  }

  function ScopeZero(addr: Word, prefix: nat): Word {
    And(addr, Mask(|addr|, prefix))
  }

  /** The mask keeps the first `prefix` bits and clears the rest. */
  lemma ScopeZeroBits(addr: Word, prefix: nat)
    ensures var p := Min(prefix, |addr|);
      ScopeZero(addr, prefix) == addr[..p] + Repeat(false, |addr| - p)
  {
  }

  lemma Doubling(v: nat, p: nat)
    ensures v * (2 * p) == 2 * (v * p)
  {
  }

  lemma ValueSnoc(w: Word, bit: bool)
    ensures Value(w + [bit]) == 2 * Value(w) + (if bit then 1 else 0)
  {
  }

  lemma {:induction false} ValueConcat(a: Word, b: Word)
    ensures Value(a + b) == Value(a) * Pow2(|b|) + Value(b)
  {
    if b == [] {
      assert a + b == a;
    } else {
      var n := |b| - 1;
      var front, bit := b[..n], b[n];
      ValueConcat(a, front);
      assert b == front + [bit] && a + b == (a + front) + [bit];
      ValueSnoc(a + front, bit);
      ValueSnoc(front, bit);
      Doubling(Value(a), Pow2(n));
    }
  }

  lemma {:induction false} ValueBound(w: Word)
    ensures Value(w) < Pow2(|w|)
  {
    if w != [] {
      ValueBound(w[..|w| - 1]);
    }
  }

  lemma {:induction false} ValueOfZeros(n: nat)
    ensures Value(Repeat(false, n)) == 0
  {
    if n > 0 {
      assert Repeat(false, n)[..n - 1] == Repeat(false, n - 1);
      ValueOfZeros(n - 1);
    }
  }

  lemma {:induction false} ValueInjective(a: Word, b: Word)
    requires |a| == |b| && Value(a) == Value(b)
    ensures a == b
  {
    if a != [] {
      var n := |a| - 1;
      ValueInjective(a[..n], b[..n]);
      assert a == a[..n] + [a[n]] && b == b[..n] + [b[n]];
    }
  }

  lemma MultipleBelow(m: nat, high: nat, low: nat, unit: nat)
    requires low < unit && m * unit <= high * unit + low
    ensures m * unit <= high * unit
  {
    if m > high {
      MulMonotone(high + 1, m, unit);
    } else {
      MulMonotone(m, high, unit);
    }
  }

  lemma MulMonotone(a: nat, b: nat, unit: nat)
    requires a <= b
    ensures a * unit <= b * unit
  {
  }

  lemma ClearedValue(high: Word, n: nat)
    ensures Value(high + Repeat(false, n)) == Value(high) * Pow2(n)
  {
    ValueConcat(high, Repeat(false, n));
    ValueOfZeros(n);
  }

  /** `z` is the largest multiple of `unit` not above `v`, as far as the multiple `m * unit` can tell. */
  predicate RoundsDown(z: nat, v: nat, unit: nat, m: nat) {
    z <= v < z + unit && (m * unit <= v ==> m * unit <= z)
  }

  lemma RoundDown(high: nat, low: nat, unit: nat, m: nat)
    requires low < unit
    ensures RoundsDown(high * unit, high * unit + low, unit, m)
  {
    if m * unit <= high * unit + low {
      MultipleBelow(m, high, low, unit);
    }
  }

  lemma ClearingRoundsDown(high: Word, low: Word, m: nat)
    ensures Value(high + Repeat(false, |low|)) == Value(high) * Pow2(|low|)
    ensures RoundsDown(Value(high + Repeat(false, |low|)), Value(high + low), Pow2(|low|), m)
  {
    ClearedValue(high, |low|);
    ValueConcat(high, low);
    ValueBound(low);
    RoundDown(Value(high), Value(low), Pow2(|low|), m);
  }

  lemma ScopeZeroSplit(addr: Word, prefix: nat) returns (high: Word, low: Word)
    ensures addr == high + low && |high| == Min(prefix, |addr|)
    ensures ScopeZero(addr, prefix) == high + Repeat(false, |low|)
  {
    ScopeZeroBits(addr, prefix);
    high, low := addr[..Min(prefix, |addr|)], addr[Min(prefix, |addr|)..];
  }

  /**
   * Scope zeroing rounds down: the result is a multiple of 2^(width - prefix), not above the address,
   * and no larger multiple `m * 2^(width - prefix)` is.
   */
  lemma ScopeZeroRoundsDown(addr: Word, prefix: nat, m: nat) returns (quotient: nat)
    ensures Value(ScopeZero(addr, prefix)) == quotient * Pow2(|addr| - Min(prefix, |addr|))
    ensures RoundsDown(Value(ScopeZero(addr, prefix)), Value(addr), Pow2(|addr| - Min(prefix, |addr|)), m)
  {
    var high, low := ScopeZeroSplit(addr, prefix);
    quotient := Value(high);
    assert |low| == |addr| - Min(prefix, |addr|);
    ClearingRoundsDown(high, low, m);
  }

  /** Zeroing twice is zeroing once to the shorter prefix; with equal prefixes, idempotence. */
  lemma ScopeZeroComposes(addr: Word, p: nat, q: nat)
    ensures ScopeZero(ScopeZero(addr, p), q) == ScopeZero(addr, Min(p, q))
  {
  }

  // ----- Addresses and blocks -----

  type V4 = a: Word | |a| == 32 witness Repeat(false, 32)
  type V6 = a: Word | |a| == 128 witness Repeat(false, 128)

  datatype IpAddr = Ipv4(v4: V4) | Ipv6(v6: V6)

  function ScopeZeroSubnet(addr: IpAddr, sourcePrefix: nat): (IpAddr, nat) {
    match addr
    case Ipv4(v4) => (Ipv4(And(v4, Mask(32, sourcePrefix))), sourcePrefix)
    case Ipv6(v6) => (Ipv6(And(v6, Mask(128, sourcePrefix))), sourcePrefix)
  }

  /** The bits of an address, most significant first, and its family. */
  function Bits(addr: IpAddr): Word {
    match addr
    case Ipv4(v4) => v4
    case Ipv6(v6) => v6
  }

  /**
   * A subnet keeps its family, its prefix and the bits the prefix covers, and clears the others; subnets are
   * canonical, so doing it again changes nothing.
   */
  lemma ScopeZeroSubnetExactly(addr: IpAddr, sourcePrefix: nat)
    ensures var (zeroed, prefix) := ScopeZeroSubnet(addr, sourcePrefix);
      && prefix == sourcePrefix
      && (zeroed.Ipv4? <==> addr.Ipv4?)
      && |Bits(zeroed)| == |Bits(addr)|
      && (forall i :: 0 <= i < |Bits(addr)| ==> Bits(zeroed)[i] == (i < sourcePrefix && Bits(addr)[i]))
      && ScopeZeroSubnet(zeroed, prefix) == (zeroed, prefix)
  {
    match addr
    case Ipv4(v4) =>
      ScopeZeroComposes(v4, sourcePrefix, sourcePrefix);
      ScopeZeroBits(v4, sourcePrefix);
    case Ipv6(v6) =>
      ScopeZeroComposes(v6, sourcePrefix, sourcePrefix);
      ScopeZeroBits(v6, sourcePrefix);
  }

  datatype Ipv4Cidr = Ipv4Cidr(addr: V4, prefix: nat)
  {
    predicate Contains(ip: V4) {
      if prefix == 0 then true
      else if prefix >= 32 then addr == ip
      else
        var mask := ShiftLeft(Repeat(true, 32), 32 - prefix);
        And(addr, mask) == And(ip, mask)
    }
  }

  /** Membership is equality after scope zeroing, as numbers. */
  lemma ContainsIsScopeEquality(net: Ipv4Cidr, ip: V4)
    ensures net.Contains(ip) <==> Value(ScopeZero(net.addr, net.prefix)) == Value(ScopeZero(ip, net.prefix))
  {
    ContainsIsMaskEquality(net, ip);
    if Value(ScopeZero(net.addr, net.prefix)) == Value(ScopeZero(ip, net.prefix)) {
      ValueInjective(ScopeZero(net.addr, net.prefix), ScopeZero(ip, net.prefix));
    }
  }

  /** Membership bit by bit: the address agrees with the block on the bits the prefix covers. */
  lemma ContainsExactly(net: Ipv4Cidr, ip: V4)
    ensures net.Contains(ip) <==> forall i :: 0 <= i < 32 && i < net.prefix ==> net.addr[i] == ip[i]
  {
    ContainsIsMaskEquality(net, ip);
    ScopeZeroBits(net.addr, net.prefix);
    ScopeZeroBits(ip, net.prefix);
    var p := Min(net.prefix, 32);
    SameLeadingBits(net.addr, ip, p);
  }

  lemma SameLeadingBits(a: V4, b: V4, p: nat)
    requires p <= 32
    ensures a[..p] + Repeat(false, 32 - p) == b[..p] + Repeat(false, 32 - p) <==> forall i :: 0 <= i < p ==> a[i] == b[i]
  {
    var x, y := a[..p] + Repeat(false, 32 - p), b[..p] + Repeat(false, 32 - p);
    if x == y {
      forall i | 0 <= i < p ensures a[i] == b[i] {
        assert x[i] == a[i] && y[i] == b[i];
      }
    }
  }

  lemma ContainsIsMaskEquality(net: Ipv4Cidr, ip: V4)
    ensures net.Contains(ip) <==> ScopeZero(net.addr, net.prefix) == ScopeZero(ip, net.prefix)
  {
    if net.prefix == 0 {
      ScopeZeroBits(net.addr, 0);
      ScopeZeroBits(ip, 0);
    } else if net.prefix >= 32 {
      ScopeZeroWhole(net.addr, net.prefix);
      ScopeZeroWhole(ip, net.prefix);
    }
  }

  lemma ScopeZeroWhole(addr: Word, prefix: nat)
    requires prefix >= |addr|
    ensures ScopeZero(addr, prefix) == addr
  {
    ScopeZeroBits(addr, prefix);
    assert addr[..|addr|] == addr;
  }

  /** Two blocks that share an address are nested: the one with the longer prefix lies inside the other. */
  lemma NestedOrDisjoint(a: Ipv4Cidr, b: Ipv4Cidr, shared: V4, ip: V4)
    requires a.Contains(shared) && b.Contains(shared) && a.prefix <= b.prefix
    ensures b.Contains(ip) ==> a.Contains(ip)
  {
  }
}
