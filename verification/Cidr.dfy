/** IP addresses, CIDR blocks and the arithmetic that makes two blocks nested or disjoint. */
module Cidr {

  datatype Family = V4 | V6

  function Width(f: Family): nat {
    if f == V4 then 32 else 128
  }

  function Pow2(n: nat): (r: nat)
    ensures r > 0
  {
    if n == 0 then 1 else 2 * Pow2(n - 1)
  }

  datatype Ip = Ip(family: Family, value: nat)

  /** A network: the masked address and the prefix length. */
  datatype Subnet = Subnet(family: Family, base: nat, len: nat)

  /** How many addresses a block with this prefix length holds; a longer prefix than the address is
      has no host part. */
  function BlockSize(f: Family, len: nat): (r: nat)
    ensures r > 0
  {
    if len <= Width(f) then Pow2(Width(f) - len) else 1
  }

  /** The address with its host part cleared. */
  function Mask(value: nat, size: nat): nat
    requires size > 0
  {
    value / size * size
  }

  /** The network of `net.ParseCIDR` for an address and a prefix length. */
  function SubnetOf(ip: Ip, len: nat): Subnet {
    Subnet(ip.family, Mask(ip.value, BlockSize(ip.family, len)), len)
  }

  predicate Contains(n: Subnet, ip: Ip) {
    n.family == ip.family && Mask(ip.value, BlockSize(n.family, n.len)) == n.base
  }

  lemma DivUnique(x: nat, d: nat, q: nat, r: nat)
    requires d > 0 && x == q * d + r && r < d
    ensures x / d == q
  {
    var y := x / d;
    assert x == y * d + x % d;
    MulGap(q, y, d);
    MulGap(y, q, d);
  }

  lemma MulGap(a: nat, b: nat, d: nat)
    ensures a < b ==> a * d + d <= b * d
  {
    if a < b {
      assert (a + 1) * d <= b * d;
    }
  }

  lemma MulSum(x: nat, y: nat, p: nat)
    ensures (x + y) * p == x * p + y * p
  {
  }

  lemma MulAssoc(b: nat, q: nat, p: nat)
    ensures b * q * p == b * (p * q)
  {
  }

  lemma MulPositive(p: nat, q: nat)
    requires p > 0 && q > 0
    ensures p * q > 0
  {
  }

  /** Splitting off `p` and then `q` is splitting off their product. */
  lemma TwoRemainders(x: nat, p: nat, q: nat, b: nat, s: nat, r: nat)
    requires p > 0 && q > 0 && s < q && r < p
    requires x == (b * q + s) * p + r
    ensures p * q > 0 && x / (p * q) == b
  {
    MulPositive(p, q);
    MulSum(b * q, s, p);
    MulAssoc(b, q, p);
    MulGap(s, q, p);
    DivUnique(x, p * q, b, s * p + r);
  }

  lemma DivDiv(x: nat, p: nat, q: nat)
    requires p > 0 && q > 0 && p * q > 0
    ensures x / (p * q) == x / p / q
  {
    var a, r := x / p, x % p;
    var b, s := a / q, a % q;
    assert x == a * p + r;
    assert a == b * q + s;
    TwoRemainders(x, p, q, b, s, r);
  }

  lemma {:induction false} Pow2Split(m: nat, n: nat)
    requires m <= n
    ensures Pow2(n) == Pow2(m) * Pow2(n - m)
  {
    if m > 0 {
      Pow2Split(m - 1, n - 1);
    }
  }

  /** A shorter prefix makes a block a whole number of times as large. */
  lemma BlockSizeDivides(f: Family, short: nat, long: nat) returns (q: nat)
    requires short <= long
    ensures q > 0 && BlockSize(f, short) == BlockSize(f, long) * q
  {
    var w := Width(f);
    if long <= w {
      Pow2Split(w - long, w - short);
      q := Pow2(long - short);
    } else {
      q := BlockSize(f, short);
    }
  }

  lemma MaskEqualsDiv(x: nat, y: nat, size: nat)
    requires size > 0
    ensures Mask(x, size) == Mask(y, size) <==> x / size == y / size
  {
    MulGap(x / size, y / size, size);
    MulGap(y / size, x / size, size);
  }

  /** Blocks that share an address are nested: the longer prefix lies inside the shorter. */
  lemma NestedOrDisjoint(wide: Subnet, narrow: Subnet, shared: Ip, x: Ip)
    requires wide.len <= narrow.len
    requires Contains(wide, shared) && Contains(narrow, shared) && Contains(narrow, x)
    ensures Contains(wide, x)
  {
    var f := wide.family;
    var pn, pw := BlockSize(f, narrow.len), BlockSize(f, wide.len);
    var q := BlockSizeDivides(f, wide.len, narrow.len);
    MaskEqualsDiv(x.value, shared.value, pn);
    DivDiv(x.value, pn, q);
    DivDiv(shared.value, pn, q);
    MaskEqualsDiv(x.value, shared.value, pw);
  }

  // ----- halves -----

  predicate IsBlock(n: Subnet) {
    Mask(n.base, BlockSize(n.family, n.len)) == n.base
  }

  lemma MulIsBlock(q: nat, size: nat)
    requires size > 0
    ensures q * size / size == q
  {
    DivUnique(q * size, size, q, 0);
  }

  lemma MaskTwice(x: nat, size: nat)
    requires size > 0
    ensures Mask(Mask(x, size), size) == Mask(x, size)
  {
    MulIsBlock(x / size, size);
  }

  lemma SubnetIsBlock(ip: Ip, len: nat)
    ensures IsBlock(SubnetOf(ip, len)) && Contains(SubnetOf(ip, len), ip)
  {
    MaskTwice(ip.value, BlockSize(ip.family, len));
  }

  /** The addresses of a block are a range. */
  lemma BlockIsRange(n: Subnet, ip: Ip)
    requires IsBlock(n)
    ensures Contains(n, ip) <==>
            n.family == ip.family && n.base <= ip.value < n.base + BlockSize(n.family, n.len)
  {
    var size := BlockSize(n.family, n.len);
    var q := n.base / size;
    assert ip.value == ip.value / size * size + ip.value % size;
    if n.base <= ip.value < n.base + size {
      DivUnique(ip.value, size, q, ip.value - n.base);
    }
  }

  function LowerHalf(n: Subnet): Subnet {
    Subnet(n.family, n.base, n.len + 1)
  }

  function UpperHalf(n: Subnet): Subnet {
    Subnet(n.family, n.base + BlockSize(n.family, n.len + 1), n.len + 1)
  }

  lemma TwoHalves(base: nat, half: nat)
    requires half > 0 && Mask(base, 2 * half) == base
    ensures Mask(base, half) == base && Mask(base + half, half) == base + half
  {
    var q := base / (2 * half);
    MulAssoc(2, q, half);
    MulAssoc(q, 2, half);
    assert base == (2 * q) * half;
    MulSum(2 * q, 1, half);
    MulIsBlock(2 * q, half);
    MulIsBlock(2 * q + 1, half);
  }

  lemma HalvesAreBlocks(n: Subnet)
    requires IsBlock(n) && n.len < Width(n.family)
    ensures BlockSize(n.family, n.len) == 2 * BlockSize(n.family, n.len + 1)
    ensures IsBlock(LowerHalf(n)) && IsBlock(UpperHalf(n))
  {
    TwoHalves(n.base, BlockSize(n.family, n.len + 1));
  }

  /** A block is its two halves. */
  lemma BlockIsItsHalves(n: Subnet, ip: Ip)
    requires IsBlock(n) && n.len < Width(n.family)
    ensures Contains(n, ip) <==> Contains(LowerHalf(n), ip) || Contains(UpperHalf(n), ip)
  {
    HalvesAreBlocks(n);
    BlockIsRange(n, ip);
    BlockIsRange(LowerHalf(n), ip);
    BlockIsRange(UpperHalf(n), ip);
  }

  /** The narrowest blocks: 32 bits of an IPv4 address and 128 of an IPv6 address leave that address
      alone, and one bit less leaves the two that differ in the last bit. */
  lemma NarrowestBlocks(ip: Ip, x: Ip)
    ensures var bits := if ip.family == V4 then 32 else 128;
            (Contains(SubnetOf(ip, bits), x) <==> x == ip)
            && (Contains(SubnetOf(ip, bits - 1), x) <==> x.family == ip.family && x.value / 2 == ip.value / 2)
  {
    var bits := if ip.family == V4 then 32 else 128;
    assert Pow2(1) == 2 * Pow2(0);
    assert BlockSize(ip.family, bits) == 1 && BlockSize(ip.family, bits - 1) == 2;
    MaskEqualsDiv(x.value, ip.value, 1);
    MaskEqualsDiv(x.value, ip.value, 2);
  }
}
