/** Routing decisions: address ranges, domain suffixes, address blocks, and the order in which they decide. */
module Routing {
  import opened Bytes
  import opened Options

  datatype Action = Proxy | Direct | Block

  // --- sort.Search ---

  /** The least index at which a monotone predicate holds. */
  method Search(n: nat, f: nat -> bool) returns (i: nat)
    requires forall a, b :: 0 <= a <= b < n && f(a) ==> f(b)
    ensures i <= n
    ensures forall k :: 0 <= k < i ==> !f(k)
    ensures forall k :: i <= k < n ==> f(k)
  {
    var lo, hi := 0, n;
    while lo < hi
      invariant 0 <= lo <= hi <= n
      invariant forall k :: 0 <= k < lo ==> !f(k)
      invariant forall k :: hi <= k < n ==> f(k)
    {
      var mid := lo + (hi - lo) / 2;
      if !f(mid) {
        lo := mid + 1;
      } else {
        hi := mid;
      }
    }
    i := lo;
  }

  // --- China address ranges ---

  datatype Range = Range(start: int, end: int)

  /** Ranges that are in order and do not meet. */
  predicate Sorted(ranges: seq<Range>) {
    && (forall i :: 0 <= i < |ranges| ==> ranges[i].start <= ranges[i].end)
    && (forall i, j :: 0 <= i < j < |ranges| ==> ranges[i].end < ranges[j].start)
  }

  predicate Member(ranges: seq<Range>, x: int) {
    exists i :: 0 <= i < |ranges| && ranges[i].start <= x <= ranges[i].end
  }

  /** Only the first range that ends at or behind `x` can hold it. */
  lemma FirstReaching(ranges: seq<Range>, x: int, idx: nat)
    requires Sorted(ranges) && idx <= |ranges|
    requires forall k :: 0 <= k < idx ==> ranges[k].end < x
    requires forall k :: idx <= k < |ranges| ==> ranges[k].end >= x
    ensures Member(ranges, x) <==> idx < |ranges| && ranges[idx].start <= x
  {
    if Member(ranges, x) {
      var i :| 0 <= i < |ranges| && ranges[i].start <= x <= ranges[i].end;
      assert idx <= i;
      assert idx < i ==> ranges[idx].end < ranges[i].start;
    }
  }

  /** IsChinaIPv4 over a table of ranges: the binary search decides membership in the union of the ranges. */
  method SearchV4(ranges: seq<Range>, ip: int) returns (found: bool)
    requires Sorted(ranges)
    ensures found <==> Member(ranges, ip)
  {
    var reaches := (k: nat) => k < |ranges| && ranges[k].end >= ip;
    assert forall a, b :: 0 <= a <= b < |ranges| && reaches(a) ==> reaches(b);
    var idx := Search(|ranges|, reaches);
    forall k | 0 <= k < |ranges| ensures ranges[k].end >= ip <==> idx <= k {
      assert reaches(k) <==> idx <= k;
    }
    FirstReaching(ranges, ip, idx);
    found := idx < |ranges| && ranges[idx].start <= ip;
  }

  /** A 128-bit address in two words. */
  datatype Words = Words(hi: int, lo: int) {
    predicate Ok() {
      0 <= hi < 0x1_0000_0000_0000_0000 && 0 <= lo < 0x1_0000_0000_0000_0000
    }

    function Value(): int {
      hi * 0x1_0000_0000_0000_0000 + lo
    }
  }

  datatype WideRange = WideRange(start: Words, end: Words)

  predicate WideOk(ranges: seq<WideRange>) {
    forall i :: 0 <= i < |ranges| ==> ranges[i].start.Ok() && ranges[i].end.Ok()
  }

  /** The ranges of 128-bit numbers that the two-word table stands for. */
  function Narrow(ranges: seq<WideRange>): (r: seq<Range>)
    ensures |r| == |ranges|
    ensures forall i :: 0 <= i < |r| ==> r[i] == Range(ranges[i].start.Value(), ranges[i].end.Value())
  {
    seq(|ranges|, i requires 0 <= i < |ranges| => Range(ranges[i].start.Value(), ranges[i].end.Value()))
  }

  /** The word-by-word comparison in the search predicate. */
  predicate AtLeast(a: Words, b: Words) {
    a.hi > b.hi || (a.hi == b.hi && a.lo >= b.lo)
  }

  lemma WordOrder(a: Words, b: Words)
    requires a.Ok() && b.Ok()
    ensures AtLeast(a, b) <==> a.Value() >= b.Value()
  {
  }

  /** IsChinaIPv6 over a table of two-word ranges. */
  method SearchV6(ranges: seq<WideRange>, ip: Words) returns (found: bool)
    requires WideOk(ranges) && ip.Ok() && Sorted(Narrow(ranges))
    ensures found <==> Member(Narrow(ranges), ip.Value())
  {
    ghost var rs, x := Narrow(ranges), ip.Value();
    var reaches := (k: nat) => k < |ranges| && AtLeast(ranges[k].end, ip);
    forall k: nat | k < |ranges| ensures reaches(k) <==> rs[k].end >= x {
      WordOrder(ranges[k].end, ip);
    }
    forall a: nat, b: nat | a <= b < |ranges| && reaches(a) ensures reaches(b) {
      assert a < b ==> rs[a].end < rs[b].start <= rs[b].end;
    }
    var idx := Search(|ranges|, reaches);
    forall k | 0 <= k < |ranges| ensures rs[k].end >= x <==> idx <= k {
      assert reaches(k) <==> idx <= k;
    }
    FirstReaching(rs, x, idx);
    if idx < |ranges| {
      WordOrder(ip, ranges[idx].start);
    }
    found := idx < |ranges| && AtLeast(ip, ranges[idx].start);
  }

  // --- addresses ---

  /** A `net.IP`: four or sixteen bytes when it is an address at all. */
  type IP = seq<byte>

  const V4_IN_V6: seq<byte> := [0, 0, 0, 0, 0, 0, 0, 0, 0, 0, 0xFF, 0xFF]

  /** `To4`: the IPv4 form, if there is one. */
  function To4(ip: IP): Option<IP> {
    if |ip| == 4 then Some(ip)
    else if |ip| == 16 && ip[..12] == V4_IN_V6 then Some(ip[12..])
    else None
  }

  /** The form in which addresses are compared. */
  function Normal(ip: IP): IP {
    if To4(ip).Some? then To4(ip).value else ip
  }

  function Value(bs: seq<byte>): nat {
    if bs == [] then 0 else Value(bs[..|bs| - 1]) * 256 + bs[|bs| - 1]
  }

  function Pow2(n: nat): (r: nat)
    ensures r > 0
  {
    if n == 0 then 1 else 2 * Pow2(n - 1)
  }

  /** A parsed address block; a single address is a block of full width. */
  datatype Cidr = Cidr(base: IP, bits: nat) {
    /** The prefix length for the normal form of the network number, of which only the last four bytes count if it is an
        IPv4 number in IPv6 form. */
    function Prefix(): nat {
      if |base| == |Normal(base)| then bits else if bits < 96 then 0 else bits - 96
    }

    predicate Contains(ip: IP) {
      var x, n := Normal(ip), Normal(base);
      |x| == |n| && Prefix() <= 8 * |n| &&
      Value(x) / Pow2(8 * |n| - Prefix()) == Value(n) / Pow2(8 * |n| - Prefix())
    }
  }

  /** An IPv4 block written in IPv6 form is the same block. */
  lemma MappedBlock(v4: IP, bits: nat, ip: IP)
    requires |v4| == 4
    ensures Cidr(V4_IN_V6 + v4, 96 + bits).Contains(ip) <==> Cidr(v4, bits).Contains(ip)
  {
    assert (V4_IN_V6 + v4)[..12] == V4_IN_V6 && (V4_IN_V6 + v4)[12..] == v4;
  }

  /** With fewer than 96 bits it holds every IPv4 address and no other: no bit of the last four bytes is masked. */
  lemma WideMappedBlock(v4: IP, bits: nat, ip: IP)
    requires |v4| == 4 && bits < 96
    ensures Cidr(V4_IN_V6 + v4, bits).Contains(ip) <==> To4(ip).Some?
  {
    var c := Cidr(V4_IN_V6 + v4, bits);
    assert Normal(c.base) == v4 by {
      assert c.base[..12] == V4_IN_V6 && c.base[12..] == v4;
    }
    if |Normal(ip)| == 4 {
      NoPrefix(Normal(ip), v4);
    }
  }

  lemma NoPrefix(x: seq<byte>, y: seq<byte>)
    requires |x| == |y|
    ensures Value(x) / Pow2(8 * |y|) == Value(y) / Pow2(8 * |y|)
  {
    ValueBelow(x);
    ValueBelow(y);
    SmallQuotient(Value(x), Pow2(8 * |y|));
    SmallQuotient(Value(y), Pow2(8 * |y|));
  }

  lemma ValueBelow(bs: seq<byte>)
    ensures Value(bs) < Pow2(8 * |bs|)
  {
    ValueConcat([], bs);
  }

  lemma SmallQuotient(v: nat, d: nat)
    requires v < d
    ensures v / d == 0
  {
  }

  /** IsPrivateIP, branch by branch. */
  predicate IsPrivate(ip: IP) {
    match To4(ip)
    case Some(v4) =>
      || v4[0] == 127
      || (v4[0] == 169 && v4[1] == 254)
      || (v4[0] == 224 && v4[1] == 0 && v4[2] == 0)
      || v4[0] == 10 || (v4[0] == 172 && 16 <= v4[1] < 32) || (v4[0] == 192 && v4[1] == 168)
      || v4 == [0, 0, 0, 0]
      || (v4[0] == 100 && 64 <= v4[1] < 128)
      || v4 == [255, 255, 255, 255]
    case None =>
      |ip| == 16 &&
      (|| Value(ip) == 1
       || (ip[0] == 0xFE && 0x80 <= ip[1] < 0xC0)
       || (ip[0] == 0xFF && ip[1] % 16 == 2)
       || ip[0] == 0xFC || ip[0] == 0xFD
       || Value(ip) == 0)
  }

  /** The private, loop-back, link-local and special IPv4 blocks as ranges of 32-bit numbers. */
  predicate PrivateRange(v: int) {
    || v == 0
    || 0x0A00_0000 <= v <= 0x0AFF_FFFF || 0x6440_0000 <= v <= 0x647F_FFFF || 0x7F00_0000 <= v <= 0x7FFF_FFFF
    || 0xA9FE_0000 <= v <= 0xA9FE_FFFF || 0xAC10_0000 <= v <= 0xAC1F_FFFF || 0xC0A8_0000 <= v <= 0xC0A8_FFFF
    || 0xE000_0000 <= v <= 0xE000_00FF
    || v == 0xFFFF_FFFF
  }

  lemma Value4(ip: IP)
    requires |ip| == 4
    ensures Value(ip) == 0x100_0000 * ip[0] as int + 0x1_0000 * ip[1] as int + 0x100 * ip[2] as int + ip[3] as int
  {
    assert Value(ip[..1]) == ip[0] by { assert ip[..1][..0] == []; }
    assert Value(ip[..2]) == Value(ip[..1]) * 256 + ip[1] by { assert ip[..2][..1] == ip[..1]; }
    assert Value(ip[..3]) == Value(ip[..2]) * 256 + ip[2] by { assert ip[..3][..2] == ip[..2]; }
  }

  /** The byte tests describe exactly the listed blocks. */
  lemma PrivateIsListed(ip: IP)
    requires |ip| == 4
    ensures IsPrivate(ip) <==> PrivateRange(Value(ip))
  {
    Value4(ip);
  }

  /** An IPv4 address, as four bytes or behind ten zero bytes and two of all ones. */
  lemma MappedExactly(ip: IP)
    ensures
      To4(ip).Some? <==>
      |ip| == 4 || (|ip| == 16 && ip[10] == 0xFF && ip[11] == 0xFF && forall i :: 0 <= i < 10 ==> ip[i] == 0)
    ensures To4(ip).Some? ==> To4(ip).value == if |ip| == 4 then ip else ip[12..]
  {
    if |ip| == 16 {
      var h := ip[..12];
      assert h[10] == ip[10] && h[11] == ip[11] && forall i :: 0 <= i < 10 ==> h[i] == ip[i];
      if h == V4_IN_V6 {
        assert V4_IN_V6[10] == 0xFF && V4_IN_V6[11] == 0xFF && forall i :: 0 <= i < 10 ==> V4_IN_V6[i] == 0;
      }
    }
  }

  /** The private, loop-back, link-local and special addresses: IPv4 by number; of IPv6 the unspecified and the
      loop-back address, and by its first two bytes link-local unicast, link-local multicast and unique local ones. */
  predicate ListedPrivate(ip: IP) {
    match To4(ip)
    case Some(v4) => PrivateRange(Value(v4))
    case None =>
      |ip| == 16 &&
      (var top := 256 * ip[0] as int + ip[1] as int;
       || ((forall i :: 0 <= i < 15 ==> ip[i] == 0) && ip[15] <= 1)
       || 0xFE80 <= top <= 0xFEBF
       || (0xFF00 <= top <= 0xFFFF && top % 16 == 2)
       || 0xFC00 <= top <= 0xFDFF)
  }

  lemma {:induction false} ValueZero(bs: seq<byte>)
    ensures Value(bs) == 0 <==> forall i :: 0 <= i < |bs| ==> bs[i] == 0
    decreases |bs|
  {
    if bs != [] {
      ValueZero(bs[..|bs| - 1]);
    }
  }

  lemma ValueSmall(ip: IP)
    requires |ip| == 16
    ensures Value(ip) <= 1 <==> (forall i :: 0 <= i < 15 ==> ip[i] == 0) && ip[15] <= 1
  {
    ValueZero(ip[..15]);
  }

  /** IsPrivateIP holds exactly for the listed addresses. */
  lemma PrivateExactly(ip: IP)
    ensures IsPrivate(ip) <==> ListedPrivate(ip)
  {
    match To4(ip)
    case Some(v4) =>
      PrivateIsListed(v4);
      assert To4(v4) == Some(v4);
    case None =>
      if |ip| == 16 {
        ValueSmall(ip);
      }
  }

  lemma {:induction false} PowAdd(n: nat)
    ensures Pow2(n + 8) == 256 * Pow2(n)
  {
    assert Pow2(n + 4) == 2 * Pow2(n + 3) == 4 * Pow2(n + 2) == 8 * Pow2(n + 1) == 16 * Pow2(n);
    assert Pow2(n + 8) == 2 * Pow2(n + 7) == 4 * Pow2(n + 6) == 8 * Pow2(n + 5) == 16 * Pow2(n + 4);
  }

  lemma {:induction false} ValueConcat(a: seq<byte>, b: seq<byte>)
    ensures Value(a + b) == Value(a) * Pow2(8 * |b|) + Value(b)
    ensures Value(b) < Pow2(8 * |b|)
    decreases |b|
  {
    if b == [] {
      assert a + b == a;
    } else {
      var b', x := b[..|b| - 1], b[|b| - 1];
      ValueConcat(a, b');
      PowAdd(8 * |b'|);
      assert (a + b)[..|a + b| - 1] == a + b';
      var p := Pow2(8 * |b'|);
      assert (Value(a) * p + Value(b')) * 256 + x == Value(a) * (256 * p) + (Value(b') * 256 + x) by {
        Distribute(Value(a), p, Value(b'), x);
      }
    }
  }

  lemma Distribute(v: nat, p: nat, w: nat, x: nat)
    ensures (v * p + w) * 256 + x == v * (256 * p) + (w * 256 + x)
  {
    assert v * (256 * p) == 256 * (v * p);
  }

  lemma Multiple(t: int, d: nat)
    ensures t >= 1 ==> t * d >= d
    ensures t <= -1 ==> t * d + d <= 0
  {
    if t >= 1 {
      assert (t - 1) * d >= 0;
    } else if t <= -1 {
      assert (-1 - t) * d >= 0;
    }
  }

  lemma SameQuotient(v: nat, w: nat, d: nat)
    requires d > 0
    ensures v / d == w / d <==> w - w % d <= v < w - w % d + d
  {
    var p, q := v / d, w / d;
    assert v == p * d + v % d && w == q * d + w % d;
    assert (p - q) * d == p * d - q * d;
    Multiple(p - q, d);
  }

  /** A block is an aligned range: the addresses of the same width from the network number with its free bits cleared
      on, as many as the free bits can tell apart. */
  lemma BlockIsRange(c: Cidr, ip: IP)
    ensures
      var x, n, p := Normal(ip), Normal(c.base), c.Prefix();
      c.Contains(ip) <==>
      && |x| == |n| && p <= 8 * |n|
      && var size := Pow2(8 * |n| - p);
         Value(n) - Value(n) % size <= Value(x) < Value(n) - Value(n) % size + size
  {
    var x, n, p := Normal(ip), Normal(c.base), c.Prefix();
    if |x| == |n| && p <= 8 * |n| {
      SameQuotient(Value(x), Value(n), Pow2(8 * |n| - p));
    }
  }

  lemma Pow64()
    ensures Pow2(64) == 0x1_0000_0000_0000_0000
  {
    PowAdd(0);
    PowAdd(8);
    PowAdd(16);
    PowAdd(24);
    PowAdd(32);
    PowAdd(40);
    PowAdd(48);
    PowAdd(56);
  }

  /** The two words of a sixteen-byte address. */
  function Split(ip: IP): (w: Words)
    requires |ip| == 16
  {
    Words(Value(ip[..8]), Value(ip[8..]))
  }

  lemma SplitValue(ip: IP)
    requires |ip| == 16
    ensures Split(ip).Ok() && Split(ip).Value() == Value(ip)
  {
    ValueConcat(ip[..8], ip[8..]);
    ValueConcat([], ip[..8]);
    Pow64();
    assert ip == ip[..8] + ip[8..];
  }
}
