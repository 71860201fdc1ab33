// Enumeration of the hosts of an IPv4 subnet by the ARP scanner (scanner.go).
module Subnet {
  import opened Bytes

  // ----- big-endian byte strings as numbers -----

  function Value(s: seq<Byte>): nat {
    if s == [] then 0 else Value(s[..|s| - 1]) * 256 + s[|s| - 1]
  }

  /** 256 to the length. */
  function Modulus(n: nat): nat {
    if n == 0 then 1 else Modulus(n - 1) * 256
  }

  /** One more in the last byte, carrying to the left and off the front. */
  function Incremented(s: seq<Byte>): seq<Byte> {
    if s == [] then []
    else
      var n := |s| - 1;
      if s[n] < 255 then s[..n] + [s[n] + 1] else Incremented(s[..n]) + [0]
  }

  /** The carry stops at the last byte that is not 255; the bytes after it become zero. */
  lemma {:induction false} CarryStops(s: seq<Byte>, i: int)
    requires -1 <= i < |s| && forall j :: i < j < |s| ==> s[j] == 255
    requires i >= 0 ==> s[i] < 255
    ensures |Incremented(s)| == |s|
    ensures forall j :: 0 <= j < |s| ==> Incremented(s)[j] == if j < i then s[j] else if j == i then s[i] + 1 else 0
  {
    if s != [] && i < |s| - 1 {
      CarryStops(s[..|s| - 1], i);
    }
  }

  /** inc, on the byte slice itself. */
  method Inc(ip: array<Byte>)
    modifies ip
    ensures ip[..] == Incremented(old(ip[..]))
  {
    var i := ip.Length - 1;
    ghost var was := ip[..];
    while i >= 0
      invariant -1 <= i < ip.Length
      invariant forall j :: 0 <= j <= i ==> ip[j] == was[j]
      invariant forall j :: i < j < ip.Length ==> was[j] == 255 && ip[j] == 0
    {
      if ip[i] != 255 {
        CarryStops(was, i);
        ip[i] := ip[i] + 1;
        return;
      }
      ip[i] := 0;
      i := i - 1;
    }
    CarryStops(was, -1);
  }

  lemma {:induction false} ValueRange(s: seq<Byte>)
    ensures 0 <= Value(s) < Modulus(|s|)
  {
    if s != [] {
      ValueRange(s[..|s| - 1]);
    }
  }

  /** inc is +1 modulo 256 to the number of bytes: modulo 2^32 on an IPv4 address. */
  lemma {:induction false} IncrementedIsSuccessor(s: seq<Byte>)
    ensures |Incremented(s)| == |s|
    ensures Value(Incremented(s)) == if Value(s) + 1 == Modulus(|s|) then 0 else Value(s) + 1
    ensures Modulus(4) == 0x1_0000_0000
  {
    assert Modulus(1) == 256 && Modulus(2) == 65536 && Modulus(3) == 0x100_0000;
    if s != [] {
      var n := |s| - 1;
      IncrementedIsSuccessor(s[..n]);
      ValueRange(s[..n]);
      if s[n] < 255 {
        assert (s[..n] + [s[n] + 1])[..n] == s[..n];
      } else {
        assert (Incremented(s[..n]) + [0])[..n] == Incremented(s[..n]);
      }
    }
  }

  // ----- the subnet -----

  /** An IPv4 prefix as net.ParseCIDR yields it. */
  datatype Subnet = Subnet(ip: Address, ones: nat)

  function PowerOfTwo(n: nat): nat {
    if n == 0 then 1 else 2 * PowerOfTwo(n - 1)
  }

  /** Number of addresses that share the prefix. */
  function BlockSize(s: Subnet): nat
    requires s.ones <= 32
  {
    PowerOfTwo(32 - s.ones)
  }

  lemma {:induction false} PowerPositive(n: nat)
    ensures PowerOfTwo(n) >= 1
  {
    if n > 0 {
      PowerPositive(n - 1);
    }
  }

  predicate Prefix(s: Subnet)
    requires s.ones <= 32
  {
    PowerPositive(32 - s.ones);
    Value(s.ip) % BlockSize(s) == 0
  }

  /** IPNet.Contains: the masked parts agree. */
  predicate Contains(s: Subnet, ip: seq<Byte>)
    requires s.ones <= 32
  {
    PowerPositive(32 - s.ones);
    Value(ip) / BlockSize(s) == Value(s.ip) / BlockSize(s)
  }

  lemma SameQuotient(a: nat, base: nat, block: nat)
    requires block >= 1 && base % block == 0
    ensures a / block == base / block <==> base <= a < base + block
  {
    var q, r := a / block, a % block;
    var k := base / block;
    assert a == block * q + r && base == block * k;
    if q < k {
      assert block * (q + 1) <= block * k;
    } else if q > k {
      assert block * (k + 1) <= block * q;
    }
  }

  lemma ContainsIsInterval(s: Subnet, ip: seq<Byte>)
    requires s.ones <= 32 && Prefix(s)
    ensures Contains(s, ip) <==> Value(s.ip) <= Value(ip) < Value(s.ip) + BlockSize(s)
  {
    PowerPositive(32 - s.ones);
    SameQuotient(Value(ip), Value(s.ip), BlockSize(s));
  }

  lemma {:induction false} PowerMonotone(m: nat, n: nat)
    requires m <= n
    ensures PowerOfTwo(m) <= PowerOfTwo(n)
  {
    if m < n {
      PowerMonotone(m, n - 1);
    }
  }

  /** A proper prefix covers at most half of the address space and does not reach beyond its end. */
  lemma BlockFits(s: Subnet)
    requires 1 <= s.ones <= 32 && Prefix(s)
    ensures 1 <= BlockSize(s) <= 0x8000_0000
    ensures Value(s.ip) + BlockSize(s) <= 0x1_0000_0000
  {
    PowerPositive(32 - s.ones);
    PowerMonotone(32 - s.ones, 31);
    assert PowerOfTwo(31) == 0x8000_0000 by {
      PowerOf31();
    }
    ValueRange(s.ip);
    IncrementedIsSuccessor(s.ip);
    var rest := BlockDivides(32 - s.ones);
    BlocksTile(Value(s.ip), BlockSize(s), rest);
  }

  lemma PowerOf31()
    ensures PowerOfTwo(31) == 0x8000_0000 && PowerOfTwo(32) == 0x1_0000_0000
  {
    assert PowerOfTwo(8) == 256;
    assert PowerOfTwo(16) == 65536;
    assert PowerOfTwo(24) == 0x100_0000;
  }

  lemma BlockDivides(n: nat) returns (rest: nat)
    requires n <= 32
    ensures PowerOfTwo(n) * rest == 0x1_0000_0000
  {
    rest := PowerOfTwo(32 - n);
    PowerDivides(n, 32);
    PowerOf31();
  }

  /** A multiple of a block below 2^32 leaves room for the whole block. */
  lemma BlocksTile(base: nat, block: nat, rest: nat)
    requires block >= 1 && base % block == 0 && block * rest == 0x1_0000_0000 && base < 0x1_0000_0000
    ensures base + block <= 0x1_0000_0000
  {
    DivExact(base, block);
    Tiling(block, base / block, rest, base, 0x1_0000_0000);
  }

  lemma DivExact(a: nat, block: nat)
    requires block >= 1 && a % block == 0
    ensures a == block * (a / block)
  {
  }

  lemma Tiling(block: nat, k: nat, m: nat, base: nat, total: nat)
    requires base == block * k && total == block * m && base < total
    ensures base + block <= total
  {
    TimesMonotone(block, m, k);
    TimesMonotone(block, k + 1, m);
  }

  lemma TimesMonotone(block: nat, a: nat, b: nat)
    ensures a <= b ==> block * a <= block * b
  {
  }

  lemma {:induction false} PowerDivides(m: nat, n: nat)
    requires m <= n
    ensures PowerOfTwo(n) == PowerOfTwo(m) * PowerOfTwo(n - m)
  {
    if m < n {
      PowerDivides(m, n - 1);
      assert PowerOfTwo(n - m) == 2 * PowerOfTwo(n - 1 - m);
    }
  }

  // ----- the walk -----

  /** The address after `n` increments. */
  function Walked(ip: seq<Byte>, n: nat): seq<Byte> {
    if n == 0 then ip else Incremented(Walked(ip, n - 1))
  }

  lemma ModSuccessor(x: int, n: nat, v: int)
    requires v == (x + n) % 0x1_0000_0000
    ensures (x + n + 1) % 0x1_0000_0000 == if v + 1 == 0x1_0000_0000 then 0 else v + 1
  {
  }

  lemma {:induction false} WalkedValue(ip: Address, n: nat)
    ensures |Walked(ip, n)| == 4 && Value(Walked(ip, n)) == (Value(ip) + n) % 0x1_0000_0000
  {
    IncrementedIsSuccessor(ip);
    ValueRange(ip);
    if n > 0 {
      WalkedValue(ip, n - 1);
      IncrementedIsSuccessor(Walked(ip, n - 1));
      ModSuccessor(Value(ip), n - 1, Value(Walked(ip, n - 1)));
    }
  }

  /** Up to the size of the subnet, the walk is inside until it has passed all of its addresses. */
  lemma InsideIff(s: Subnet, n: nat)
    requires 1 <= s.ones <= 32 && Prefix(s) && n <= BlockSize(s)
    ensures |Walked(s.ip, n)| == 4 && (Contains(s, Walked(s.ip, n)) <==> n < BlockSize(s))
    ensures n < BlockSize(s) ==> Value(Walked(s.ip, n)) == Value(s.ip) + n
  {
    BlockFits(s);
    WalkedValue(s.ip, n);
    ContainsIsInterval(s, Walked(s.ip, n));
    WrapsAfter(Value(s.ip), n, BlockSize(s));
  }

  /** Within a block that fits below 2^32, the sum wraps only at the very end, and then past the block. */
  lemma WrapsAfter(base: nat, n: nat, block: nat)
    requires n <= block && base + block <= 0x1_0000_0000 && 1 <= block <= 0x8000_0000
    ensures n < block ==> (base + n) % 0x1_0000_0000 == base + n
    ensures n == block ==> var v := (base + n) % 0x1_0000_0000; v == base + n || (v == 0 < base)
  {
  }

  /** One step of the walk: the address it is at, and whether it is still inside afterwards. */
  lemma OneStep(s: Subnet, n: nat, ip: seq<Byte>)
    requires 1 <= s.ones <= 32 && Prefix(s) && n < BlockSize(s) && ip == Walked(s.ip, n)
    ensures |ip| == 4 && Value(ip) == Value(s.ip) + n
    ensures Incremented(ip) == Walked(s.ip, n + 1) && |Incremented(ip)| == 4
    ensures Contains(s, Incremented(ip)) <==> n + 1 < BlockSize(s)
  {
    InsideIff(s, n);
    InsideIff(s, n + 1);
  }

  /** The prefix of length 0 contains every address. */
  lemma EverythingContained(s: Subnet, ip: Address)
    requires s.ones == 0 && Prefix(s)
    ensures Contains(s, ip)
  {
    PowerOf31();
    ValueRange(ip);
    ValueRange(s.ip);
    IncrementedIsSuccessor(ip);
    ContainsIsInterval(s, ip);
  }

  /** The loop of subnetIPs ends, on some address outside the subnet, exactly for prefixes of length 1 or more;
      for 0.0.0.0/0 its guard holds after any number of increments. */
  lemma WalkEndsIff(s: Subnet)
    requires s.ones <= 32 && Prefix(s)
    ensures (exists n: nat :: n >= 1 && !Contains(s, Walked(s.ip, n))) <==> s.ones >= 1
  {
    if s.ones >= 1 {
      BlockFits(s);
      InsideIff(s, BlockSize(s));
    } else {
      forall n: nat
        ensures Contains(s, Walked(s.ip, n))
      {
        WalkedValue(s.ip, n);
        EverythingContained(s, Walked(s.ip, n));
      }
    }
  }

  /** What subnetIPs returns: every address after the network address but, if there are several, the last. */
  function HostCount(s: Subnet): nat
    requires s.ones <= 32 && BlockSize(s) >= 1
  {
    if BlockSize(s) - 1 > 1 then BlockSize(s) - 2 else BlockSize(s) - 1
  }

  /** The hosts of a prefix of length 1 to 32, in ascending order. For lengths up to 30 these are exactly
      the addresses strictly between network and broadcast. */
  method SubnetIPs(s: Subnet) returns (ips: seq<Address>)
    requires 1 <= s.ones <= 32 && Prefix(s)
    ensures BlockSize(s) >= 1 && |ips| == HostCount(s)
    ensures forall i :: 0 <= i < |ips| ==> Value(ips[i]) == Value(s.ip) + 1 + i
  {
    BlockFits(s);
    ips := [];
    var ip := new Byte[4](i requires 0 <= i < 4 => s.ip[i]);
    assert ip[..] == s.ip;
    OneStep(s, 0, s.ip);
    Inc(ip);
    var inside := Contains(s, ip[..]);
    while inside
      invariant |ips| < BlockSize(s) && ip[..] == Walked(s.ip, |ips| + 1)
      invariant inside <==> |ips| + 1 < BlockSize(s)
      invariant forall i :: 0 <= i < |ips| ==> Value(ips[i]) == Value(s.ip) + 1 + i
      decreases BlockSize(s) - |ips|
    {
      OneStep(s, |ips| + 1, ip[..]);
      ips := ips + [ip[..]];
      Inc(ip);
      inside := Contains(s, ip[..]);
    }
    if |ips| > 1 {
      ips := ips[..|ips| - 1];
    }
  }

  /** With at least two host bits: exactly 2^(32-n) - 2 of them, and no other address. */
  lemma HostsAreExact(s: Subnet, ips: seq<Address>, a: int)
    requires 1 <= s.ones <= 30 && Prefix(s) && BlockSize(s) >= 1 && |ips| == HostCount(s)
    requires forall i :: 0 <= i < |ips| ==> Value(ips[i]) == Value(s.ip) + 1 + i
    ensures |ips| == PowerOfTwo(32 - s.ones) - 2
    ensures (exists i :: 0 <= i < |ips| && Value(ips[i]) == a) <==> Value(s.ip) < a < Value(s.ip) + BlockSize(s) - 1
  {
    PowerMonotone(2, 32 - s.ones);
    if Value(s.ip) < a < Value(s.ip) + BlockSize(s) - 1 {
      var i := a - Value(s.ip) - 1;
      assert Value(ips[i]) == a;
    }
  }
}
