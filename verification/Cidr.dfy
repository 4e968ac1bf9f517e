// IP networks as prefix blocks (section 3.1 of RFC 4632).
module Cidr {

  datatype Version = V4 | V6

  datatype Address = Address(version: Version, bits: nat)

  /** A block in network form: the base has no bits beyond the prefix. */
  datatype Network = Network(version: Version, base: nat, len: nat)

  function Width(v: Version): nat {
    if v == V4 then 32 else 128
  }

  function Pow2(n: nat): (p: nat)
    ensures p > 0
  {
    if n == 0 then 1 else 2 * Pow2(n - 1)
  }

  predicate WellFormed(n: Network) {
    n.len <= Width(n.version) && n.base % Size(n) == 0
  }

  function Size(n: Network): (s: nat)
    ensures s > 0
  {
    if n.len <= Width(n.version) then Pow2(Width(n.version) - n.len) else 1
  }

  function Last(n: Network): nat {
    n.base + Size(n) - 1
  }

  /** Membership by mask: clearing the host bits of the address leaves the base. */
  predicate In(a: Address, n: Network) {
    a.version == n.version && a.bits - a.bits % Size(n) == n.base
  }

  /** Python's `subnet_of`, by the first and last address of each block. */
  predicate SubnetOf(x: Network, n: Network) {
    x.version == n.version && n.base <= x.base && Last(x) <= Last(n)
  }

  lemma {:induction false} OneMoreFits(a: nat, b: nat, c: nat)
    requires a < b
    ensures a * c + c <= b * c
  {
    assert b * c == (b - 1) * c + c;
    if a < b - 1 { OneMoreFits(a, b - 1, c); }
  }

  lemma MaskIsRange(bits: nat, base: nat, size: nat)
    requires size > 0 && base % size == 0
    ensures bits - bits % size == base <==> base <= bits < base + size
  {
    var q, r, k := bits / size, bits % size, base / size;
    assert bits == q * size + r && base == k * size;
    if q < k { OneMoreFits(q, k, size); }
    if k < q { OneMoreFits(k, q, size); }
  }

  lemma InIsRange(a: Address, n: Network)
    requires WellFormed(n)
    ensures In(a, n) <==> a.version == n.version && n.base <= a.bits <= Last(n)
  {
    MaskIsRange(a.bits, n.base, Size(n));
  }

  lemma Pow2Is(n: nat)
    ensures Pow2(0) == 1 && Pow2(n + 1) == Pow2(n) + Pow2(n)
    ensures Pow2(8) == 256 && Pow2(24) == 0x1000000
  {
    assert Pow2(4) == 16 && Pow2(8) == 16 * Pow2(4);
    assert Pow2(12) == 16 * Pow2(8) && Pow2(16) == 16 * Pow2(12);
    assert Pow2(20) == 16 * Pow2(16) && Pow2(24) == 16 * Pow2(20);
  }

  /** An address lies in a block when it has the first `len` of its 32, or 128, bits in common with the base. */
  lemma InIffSharedPrefix(a: Address, n: Network)
    requires WellFormed(n)
    ensures n.len <= match n.version case V4 => 32 case V6 => 128
    ensures var hostBits := (match n.version case V4 => 32 case V6 => 128) - n.len;
            && n.base % Pow2(hostBits) == 0
            && (In(a, n) <==> a.version == n.version && a.bits / Pow2(hostBits) == n.base / Pow2(hostBits))
  {
    SameQuotient(a.bits, n.base, Size(n));
  }

  lemma SameQuotient(bits: nat, base: nat, size: nat)
    requires size > 0 && base % size == 0
    ensures bits - bits % size == base <==> bits / size == base / size
  {
    var q, k := bits / size, base / size;
    assert bits == q * size + bits % size && base == k * size;
    if q < k { OneMoreFits(q, k, size); }
    if k < q { OneMoreFits(k, q, size); }
  }

  /** 10.0.0.0/8 is what begins with 10, and 2001:db8::/120 the first 256 addresses from there on. */
  lemma TwoBlocks(bits: nat)
    ensures In(Address(V4, bits), Network(V4, 0x0A000000, 8)) <==> 0x0A000000 <= bits < 0x0B000000
    ensures var base := 0x20010db8000000000000000000000000;
            In(Address(V6, bits), Network(V6, base, 120)) <==> base <= bits < base + 256
    ensures !In(Address(V6, bits), Network(V4, 0x0A000000, 8))
  {
    Pow2Is(0);
    InIsRange(Address(V4, bits), Network(V4, 0x0A000000, 8));
    InIsRange(Address(V6, bits), Network(V6, 0x20010db8000000000000000000000000, 120));
  }

  /** One block is a subnet of another exactly when all its addresses lie in it. */
  lemma SubnetIffContained(x: Network, n: Network)
    requires WellFormed(x) && WellFormed(n)
    ensures SubnetOf(x, n) <==> forall a :: In(a, x) ==> In(a, n)
  {
    forall a ensures (In(a, x) <==> a.version == x.version && x.base <= a.bits <= Last(x))
                  && (In(a, n) <==> a.version == n.version && n.base <= a.bits <= Last(n)) {
      InIsRange(a, x);
      InIsRange(a, n);
    }
    assert In(Address(x.version, x.base), x) && In(Address(x.version, Last(x)), x);
  }

  /** A single address as a block of full prefix length. */
  function HostNetwork(a: Address): Network {
    Network(a.version, a.bits, Width(a.version))
  }

  lemma HostNetworkHoldsOnlyIt(a: Address, b: Address)
    ensures WellFormed(HostNetwork(a))
    ensures In(b, HostNetwork(a)) <==> a == b
  {
    assert Pow2(0) == 1;
  }
}
