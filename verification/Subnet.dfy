/** Prefix arithmetic of src/net/subnet.cc: host generation, host counts and the subnet test. */
module Subnet {
  import opened Wrappers
  import opened Text
  import opened Ipv4

  function Pow2(k: nat): (r: nat)
    ensures r >= 1
    ensures k >= 2 ==> r >= 4
  {
    if k == 0 then 1 else 2 * Pow2(k - 1)
  }

  /** The number of addresses under a prefix. */
  function Size(prefix: nat): (r: nat)
    requires prefix <= MAX_PREFIX
    ensures r >= 1
  {
    Pow2(MAX_PREFIX - prefix)
  }

  /** The first address of the block of `prefix` that holds `a`. */
  function Floor(a: nat, prefix: nat): (r: nat)
    requires prefix <= MAX_PREFIX
    ensures r <= a < r + Size(prefix)
  {
    ModBounds(a, Size(prefix));
    a - a % Size(prefix)
  }

  ghost predicate Contains(c: Cidr, a: nat)
    requires c.Valid()
  {
    Floor(c.addr, c.prefix) <= a < Floor(c.addr, c.prefix) + Size(c.prefix)
  }

  /** `is_subnet_of`: only a longer prefix can be inside, and then the networks must agree. */
  predicate IsSubnetOf(c: Cidr, other: Cidr)
    requires c.Valid() && other.Valid()
  {
    other.prefix < c.prefix && Floor(c.addr, other.prefix) == Floor(other.addr, other.prefix)
  }

  /** `getMaxHosts`; None is the exception for a /32. A /0 shifts by 32, which is left out. */
  function MaxHosts(c: Cidr): (r: Option<nat>)
    requires c.Valid() && c.prefix >= 1
  {
    if MAX_PREFIX <= c.prefix then None else Some(Size(c.prefix))
  }

  /** `generateIpImpl`: 32-bit addition to the address as given, not to its network. */
  function HostAddress(c: Cidr, index: nat): (r: nat)
    requires c.Valid()
    ensures r < ADDRESSES
  {
    if c.prefix == MAX_PREFIX then c.addr else (c.addr + index) % ADDRESSES
  }

  /** `generateIp`; index 0 is refused with an exception. */
  function GenerateIp(c: Cidr, index: nat): (r: string)
    requires c.Valid() && index >= 1
  {
    RenderCidr(Cidr(HostAddress(c, index), c.prefix))
  }

  /** A generated host's text: the address as given plus the index, in 32 bits, and the prefix. */
  lemma HostSpelling(c: Cidr, index: nat)
    requires c.Valid() && 1 <= index < 0x1_0000_0000
    ensures c.prefix < 32 && c.addr + index < 0x1_0000_0000 ==>
      GenerateIp(c, index) == RenderQuad(c.addr + index) + "/" + Dec(c.prefix)
    ensures c.prefix < 32 && c.addr + index >= 0x1_0000_0000 ==>
      GenerateIp(c, index) == RenderQuad(c.addr + index - 0x1_0000_0000) + "/" + Dec(c.prefix)
    ensures c.prefix == 32 ==> GenerateIp(c, index) == RenderQuad(c.addr) + "/32"
  {
    hide RenderQuad, Dec;
    assert Dec(32) == "32" by { DecSpelling(32); DecSpelling(3); DecSpelling(2); }
  }

  /** `extractAddr`: the network's text up to the slash. */
  function ExtractAddr(c: Cidr): string
    requires c.Valid()
  {
    var s := RenderCidr(c);
    s[..IndexOf(s, '/')]
  }

  lemma ExtractedAddr(c: Cidr)
    requires c.Valid()
    ensures ExtractAddr(c) == RenderQuad(c.addr)
  {
    hide RenderQuad, Dec;
    QuadHasNoSlash(c.addr);
    IndexOfPrefix(RenderQuad(c.addr), Dec(c.prefix), '/');
  }

  // ---------------------------------------------------------------- arithmetic

  lemma ModBounds(a: nat, n: nat)
    requires n > 0
    ensures 0 <= a % n <= a && a % n < n
    ensures a == n * (a / n) + a % n && 0 <= a / n
  {
  }

  lemma DivModUnique(x: nat, n: nat, q: nat, s: nat)
    requires n > 0 && s < n && x == n * q + s
    ensures x / n == q && x % n == s
  {
    var d := x / n - q;
    assert n * d + (x % n) - s == 0 by {
      assert x == n * (x / n) + x % n;
      assert n * d == n * (x / n) - n * q;
    }
    assert d > 0 ==> n * d >= n;
    assert d < 0 ==> n * d <= -(n as int);
  }

  lemma {:induction false} Pow2Sum(a: nat, b: nat)
    ensures Pow2(a + b) == Pow2(a) * Pow2(b)
  {
    if a > 0 {
      Pow2Sum(a - 1, b);
      MulDouble(Pow2(a - 1), Pow2(b));
    }
  }

  lemma MulDouble(x: nat, y: nat)
    ensures (2 * x) * y == 2 * (x * y)
  {
  }

  lemma {:induction false} Pow2Grows(a: nat, b: nat)
    requires a < b
    ensures 2 * Pow2(a) <= Pow2(b)
  {
    if a + 1 < b { Pow2Grows(a, b - 1); }
  }

  /** A block of n addresses lies inside the block of n * k addresses around it. */
  lemma BlocksNest(x: nat, n: nat, k: nat)
    requires n > 0 && k > 0 && n * k > 0
    ensures x - x % (n * k) <= x - x % n
    ensures x - x % n + n <= x - x % (n * k) + n * k
  {
    var m := n * k;
    ModBounds(x, m);
    var q, r := x / m, x % m;
    ModBounds(r, n);
    var t, s := r / n, r % n;
    BlockInBlock(n, k, q, t);
    assert x == n * (k * q + t) + s;
    DivModUnique(x, n, k * q + t, s);
    MulOrder(n, t, k);
  }

  lemma BlockInBlock(n: nat, k: nat, q: nat, t: nat)
    ensures n * (k * q + t) == n * k * q + n * t
  {
    assert n * (k * q + t) == n * (k * q) + n * t;
  }

  lemma MulOrder(n: nat, t: nat, k: nat)
    requires n * t < n * k
    ensures n * t + n <= n * k
  {
    assert t >= k ==> n * t >= n * k;
    assert n * (t + 1) <= n * k;
  }

  lemma FloorsNest(a: nat, long: nat, short: nat)
    requires short <= long <= MAX_PREFIX
    ensures Floor(a, short) <= Floor(a, long)
    ensures Floor(a, long) + Size(long) <= Floor(a, short) + Size(short)
  {
    Pow2Sum(MAX_PREFIX - long, long - short);
    BlocksNest(a, Size(long), Pow2(long - short));
  }

  /** Two addresses in one block have the same floor. */
  lemma SameBlock(a: nat, b: nat, prefix: nat)
    requires prefix <= MAX_PREFIX && Floor(b, prefix) <= a < Floor(b, prefix) + Size(prefix)
    ensures Floor(a, prefix) == Floor(b, prefix)
  {
    SameQuotient(a, b, Size(prefix));
  }

  lemma SameQuotient(a: nat, b: nat, n: nat)
    requires n > 0 && b - b % n <= a < b - b % n + n
    ensures a - a % n == b - b % n
  {
    ModBounds(b, n);
    DivModUnique(a, n, b / n, a - (b - b % n));
  }

  // ---------------------------------------------------------------- results

  /** The test is exactly strict containment of address ranges. */
  lemma SubnetOfExact(c: Cidr, d: Cidr)
    requires c.Valid() && d.Valid()
    ensures IsSubnetOf(c, d) <==>
            && (forall a: nat :: Contains(c, a) ==> Contains(d, a))
            && (exists a: nat :: Contains(d, a) && !Contains(c, a))
  {
    hide Contains, IsSubnetOf;
    if IsSubnetOf(c, d) { SubnetIsInside(c, d); }
    if (forall a: nat :: Contains(c, a) ==> Contains(d, a)) && (exists a: nat :: Contains(d, a) && !Contains(c, a)) {
      InsideIsSubnet(c, d);
    }
  }

  /** A network holds the addresses whose leading bits are those of its own. */
  lemma ContainsExact(c: Cidr, a: nat)
    requires c.Valid()
    ensures Contains(c, a) <==> a / Pow2(32 - c.prefix) == c.addr / Pow2(32 - c.prefix)
  {
    hide Pow2;
    var n := Pow2(32 - c.prefix);
    ModBounds(a, n);
    ModBounds(c.addr, n);
    if Contains(c, a) {
      DivModUnique(a, n, c.addr / n, a - n * (c.addr / n));
    }
  }

  /** The subnet test on leading bits. */
  lemma SubnetOfLeadingBits(c: Cidr, d: Cidr)
    requires c.Valid() && d.Valid()
    ensures IsSubnetOf(c, d) <==>
            d.prefix < c.prefix && c.addr / Pow2(32 - d.prefix) == d.addr / Pow2(32 - d.prefix)
  {
    hide Pow2;
    var n := Pow2(32 - d.prefix);
    ModBounds(c.addr, n);
    ModBounds(d.addr, n);
    if c.addr - c.addr % n == d.addr - d.addr % n {
      DivModUnique(c.addr, n, d.addr / n, c.addr - n * (d.addr / n));
    }
  }

  lemma Pow2Spelling(k: nat)
    ensures Pow2(0) == 1 && Pow2(8) == 256 && Pow2(16) == 0x1_0000
    ensures Pow2(24) == 0x100_0000 && Pow2(32) == 0x1_0000_0000
    ensures Pow2(k + 1) == Pow2(k) + Pow2(k)
  {
    assert Pow2(4) == 16 && Pow2(8) == 256 by { Pow2Sum(4, 4); }
    assert Pow2(16) == 0x1_0000 by { Pow2Sum(8, 8); }
    Pow2Sum(16, 8);
    Pow2Is32();
  }

  lemma SubnetIsInside(c: Cidr, d: Cidr)
    requires c.Valid() && d.Valid() && IsSubnetOf(c, d)
    ensures forall a: nat :: Contains(c, a) ==> Contains(d, a)
    ensures exists a: nat :: Contains(d, a) && !Contains(c, a)
  {
    hide Floor, Pow2;
    var fd := Floor(d.addr, d.prefix);
    FloorsNest(c.addr, c.prefix, d.prefix);
    Pow2Grows(MAX_PREFIX - c.prefix, MAX_PREFIX - d.prefix);
    assert Contains(d, fd) && Contains(d, fd + Size(d.prefix) - 1);
  }

  lemma InsideIsSubnet(c: Cidr, d: Cidr)
    requires c.Valid() && d.Valid()
    requires forall a: nat :: Contains(c, a) ==> Contains(d, a)
    requires exists a: nat :: Contains(d, a) && !Contains(c, a)
    ensures IsSubnetOf(c, d)
  {
    hide Floor, Pow2;
    var fc, fd := Floor(c.addr, c.prefix), Floor(d.addr, d.prefix);
    assert Contains(c, fc) && Contains(c, fc + Size(c.prefix) - 1) && Contains(c, c.addr);
    assert Size(c.prefix) <= Size(d.prefix);
    if c.prefix < d.prefix {
      Pow2Grows(MAX_PREFIX - d.prefix, MAX_PREFIX - c.prefix);
      assert false;
    }
    assert c.prefix == d.prefix ==> fc == fd;
    SameBlock(c.addr, d.addr, d.prefix);
  }

  lemma SubnetOfIsStrictOrder(c: Cidr, d: Cidr, e: Cidr)
    requires c.Valid() && d.Valid() && e.Valid()
    ensures !IsSubnetOf(c, c)
    ensures IsSubnetOf(c, d) && IsSubnetOf(d, e) ==> IsSubnetOf(c, e)
  {
    if IsSubnetOf(c, d) && IsSubnetOf(d, e) {
      FloorsNest(c.addr, d.prefix, e.prefix);
      FloorsNest(d.addr, d.prefix, e.prefix);
      SameBlock(c.addr, d.addr, e.prefix);
    }
  }

  /** The last `k` bits of `a` are zero. */
  predicate ZeroBits(a: nat, k: nat) {
    k == 0 || (a % 2 == 0 && ZeroBits(a / 2, k - 1))
  }

  /** A network a node can be given: host bits zero and room for two hosts at least. */
  predicate NodeNetwork(c: Cidr) {
    c.Valid() && 1 <= c.prefix <= 30 && ZeroBits(c.addr, MAX_PREFIX - c.prefix)
  }

  lemma {:induction false} ZeroBitsExact(a: nat, k: nat)
    ensures ZeroBits(a, k) <==> a % Pow2(k) == 0
  {
    if k > 0 {
      ZeroBitsExact(a / 2, k - 1);
      HalfDivides(a, Pow2(k - 1));
    }
  }

  lemma HalfDivides(a: nat, n: nat)
    requires n > 0
    ensures a % (2 * n) == 0 <==> a % 2 == 0 && (a / 2) % n == 0
  {
    if a % (2 * n) == 0 {
      ModBounds(a, 2 * n);
      var q := a / (2 * n);
      MulDouble(n, q);
      DivModUnique(a / 2, n, q, 0);
    }
    if a % 2 == 0 && (a / 2) % n == 0 {
      ModBounds(a / 2, n);
      var q := a / 2 / n;
      MulDouble(n, q);
      DivModUnique(a, 2 * n, q, 0);
    }
  }

  /** Host bits are zero exactly when the address is its own network's. */
  lemma NetworkIsFloor(c: Cidr)
    requires c.Valid() && 1 <= c.prefix <= 30
    ensures NodeNetwork(c) <==> Floor(c.addr, c.prefix) == c.addr
  {
    ZeroBitsExact(c.addr, MAX_PREFIX - c.prefix);
  }

  /** The top block ends at 2^32, so no host index overflows 32 bits; every index the allocator
      tries is a host of the network, neither its network nor its broadcast address. */
  lemma HostInside(c: Cidr, index: nat)
    requires NodeNetwork(c) && 1 <= index <= Size(c.prefix) - 2
    ensures HostAddress(c, index) == c.addr + index < c.addr + Size(c.prefix) - 1
    ensures c.addr + Size(c.prefix) <= ADDRESSES
    ensures Contains(c, HostAddress(c, index))
    ensures IsSubnetOf(Cidr(HostAddress(c, index), 31), c)
  {
    hide Floor, Pow2, ZeroBits;
    EndsBelowTop(c);
    DivModUnique(c.addr + index, ADDRESSES, 0, c.addr + index);
    SameBlock(c.addr + index, c.addr, c.prefix);
  }

  /** A node's network starts at its own address and ends within 32 bits. */
  lemma EndsBelowTop(c: Cidr)
    requires NodeNetwork(c)
    ensures Floor(c.addr, c.prefix) == c.addr && c.addr + Size(c.prefix) <= ADDRESSES
  {
    hide Floor, Pow2, ZeroBits;
    NetworkIsFloor(c);
    FloorsNest(c.addr, c.prefix, 0);
    WholeSpace(c.addr);
  }

  lemma WholeSpace(a: nat)
    requires a < ADDRESSES
    ensures Size(0) == ADDRESSES && Floor(a, 0) == 0
  {
    hide Pow2;
    Pow2Is32();
    DivModUnique(a, ADDRESSES, 0, a);
  }

  lemma Pow2Is32()
    ensures Pow2(32) == ADDRESSES
  {
    assert Pow2(4) == 16 && Pow2(8) == 256 by { Pow2Sum(4, 4); }
    assert Pow2(16) == 0x1_0000 by { Pow2Sum(8, 8); }
    Pow2Sum(16, 16);
  }

  /** Generated addresses stay inside every network the node's own network is inside of. */
  lemma HostSubnetOf(c: Cidr, index: nat, other: Cidr)
    requires NodeNetwork(c) && 1 <= index <= Size(c.prefix) - 2
    requires other.Valid() && IsSubnetOf(c, other)
    ensures IsSubnetOf(Cidr(HostAddress(c, index), c.prefix), other)
  {
    HostInside(c, index);
    NetworkIsFloor(c);
    FloorsNest(c.addr, c.prefix, other.prefix);
    SameBlock(c.addr + index, c.addr, other.prefix);
  }

  /** Different host indices render as different texts. */
  lemma GenerateIpInjective(c: Cidr, i: nat, j: nat)
    requires NodeNetwork(c) && 1 <= i <= Size(c.prefix) - 2 && 1 <= j <= Size(c.prefix) - 2
    requires GenerateIp(c, i) == GenerateIp(c, j)
    ensures i == j
  {
    HostInside(c, i);
    HostInside(c, j);
    SameTextSameHost(c, c, i, j);
  }

  /** The text of a host determines its address. */
  lemma SameTextSameHost(c: Cidr, d: Cidr, i: nat, j: nat)
    requires c.Valid() && d.Valid() && i >= 1 && j >= 1
    requires GenerateIp(c, i) == GenerateIp(d, j)
    ensures HostAddress(c, i) == HostAddress(d, j)
  {
    RenderCidrInjective(Cidr(HostAddress(c, i), c.prefix), Cidr(HostAddress(d, j), d.prefix));
  }

  ghost predicate Disjoint(c: Cidr, d: Cidr)
    requires c.Valid() && d.Valid()
  {
    forall a: nat :: !(Contains(c, a) && Contains(d, a))
  }

  /** Hosts of networks that do not overlap have different texts. */
  lemma DisjointNetworksDisjointHosts(c: Cidr, d: Cidr, i: nat, j: nat)
    requires NodeNetwork(c) && 1 <= i <= Size(c.prefix) - 2
    requires NodeNetwork(d) && 1 <= j <= Size(d.prefix) - 2
    requires Disjoint(c, d)
    ensures GenerateIp(c, i) != GenerateIp(d, j)
  {
    HostInside(c, i);
    HostInside(d, j);
    if GenerateIp(c, i) == GenerateIp(d, j) {
      SameTextSameHost(c, d, i, j);
      assert false;
    }
  }
}
