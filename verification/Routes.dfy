/** Whether a route covers a whole block of IPv4 addresses. */
module Routes {

  function Pow2(n: nat): nat {
    if n == 0 then 1 else 2 * Pow2(n - 1)
  }

  const WIDTH := 32

  datatype Net = Net(address: nat, prefix: nat) {
    /** How many addresses share the prefix. */
    function Size(): nat {
      if prefix <= WIDTH then Pow2(WIDTH - prefix) else 1
    }

    function Broadcast(): int {
      address + Size() - 1
    }

    predicate Contains(a: int) {
      address <= a <= Broadcast()
    }

    /** A network address has no bit set beyond its prefix. */
    predicate Aligned() {
      prefix <= WIDTH && 0 < Size() && address % Size() == 0 && address < Pow2(WIDTH)
    }
  }

  lemma {:induction false} Pow2Positive(n: nat)
    ensures Pow2(n) > 0
  {
    if n > 0 {
      Pow2Positive(n - 1);
    }
  }

  // ----- Addresses, bit by bit -----

  /** The address without its last `n` bits. */
  function Shifted(a: nat, n: nat): nat {
    if n == 0 then a else Shifted(a / 2, n - 1)
  }

  /** The bit of weight 2 to the `k`. */
  function Bit(a: nat, k: nat): nat {
    Shifted(a, k) % 2
  }

  lemma {:induction false} ShiftedBounds(a: nat, n: nat)
    ensures Shifted(a, n) * Pow2(n) <= a < Shifted(a, n) * Pow2(n) + Pow2(n)
  {
    if n > 0 {
      ShiftedBounds(a / 2, n - 1);
      var q, p := Shifted(a / 2, n - 1), Pow2(n - 1);
      assert q * (2 * p) == 2 * (q * p);
    }
  }

  /** Removing the last bits leaves the number of whole units before the address. */
  lemma ShiftedUnique(a: nat, n: nat, q: nat)
    requires q * Pow2(n) <= a < q * Pow2(n) + Pow2(n)
    ensures Shifted(a, n) == q
  {
    ShiftedBounds(a, n);
    Pow2Positive(n);
    var s, p := Shifted(a, n), Pow2(n);
    assert (s + 1) * p == s * p + p && (q + 1) * p == q * p + p;
    if s < q {
      MultiplesMonotone(s + 1, q, p);
    } else if q < s {
      MultiplesMonotone(q + 1, s, p);
    }
  }

  lemma {:induction false} ShiftedTwice(a: nat, m: nat, n: nat)
    ensures Shifted(Shifted(a, m), n) == Shifted(a, m + n)
  {
    if m > 0 {
      ShiftedTwice(a / 2, m - 1, n);
    }
  }

  /** Numbers of `n` bits are the same exactly when all their bits are. */
  lemma {:induction false} SameBits(a: nat, b: nat, n: nat)
    requires a < Pow2(n) && b < Pow2(n)
    ensures a == b <==> forall k | 0 <= k < n :: Bit(a, k) == Bit(b, k)
  {
    if n > 0 && forall k | 0 <= k < n :: Bit(a, k) == Bit(b, k) {
      forall k | 0 <= k < n - 1 ensures Bit(a / 2, k) == Bit(b / 2, k) {
        assert Bit(a / 2, k) == Bit(a, k + 1) && Bit(b / 2, k) == Bit(b, k + 1);
      }
      SameBits(a / 2, b / 2, n - 1);
      assert Bit(a, 0) == a % 2 && Bit(b, 0) == b % 2;
    }
  }

  lemma {:induction false} ShiftedFits(a: nat, m: nat, n: nat)
    requires a < Pow2(m + n)
    ensures Shifted(a, m) < Pow2(n)
  {
    if m > 0 {
      ShiftedFits(a / 2, m - 1, n);
    }
  }

  /** A network holds exactly the addresses of 32 bits that have its prefix: the same first bits as its own address. */
  lemma ContainsMeansPrefix(net: Net, a: nat)
    requires net.Aligned() && a < 0x1_0000_0000
    ensures net.Contains(a) <==> forall k | 32 - net.prefix <= k < 32 :: Bit(a, k) == Bit(net.address, k)
  {
    var n := WIDTH - net.prefix;
    Pow2Of32();
    AlignedIsMultiple(net);
    ShiftedUnique(net.address, n, net.address / net.Size());
    ShiftedBounds(a, n);
    if net.Contains(a) {
      ShiftedUnique(a, n, net.address / net.Size());
    }
    ShiftedFits(a, n, net.prefix);
    ShiftedFits(net.address, n, net.prefix);
    var x, y := Shifted(a, n), Shifted(net.address, n);
    assert net.Contains(a) <==> x == y;
    SameBits(x, y, net.prefix);
    forall k | 0 <= k < net.prefix ensures Bit(x, k) == Bit(a, n + k) && Bit(y, k) == Bit(net.address, n + k) {
      ShiftedTwice(a, n, k);
      ShiftedTwice(net.address, n, k);
    }
    SameBitsShifted(a, net.address, x, y, n, net.prefix);
  }

  lemma SameBitsShifted(a: nat, b: nat, x: nat, y: nat, n: nat, count: nat)
    requires forall k | 0 <= k < count :: Bit(x, k) == Bit(a, n + k) && Bit(y, k) == Bit(b, n + k)
    ensures (forall k | 0 <= k < count :: Bit(x, k) == Bit(y, k)) <==>
            forall k | n <= k < n + count :: Bit(a, k) == Bit(b, k)
  {
    if forall k | 0 <= k < count :: Bit(x, k) == Bit(y, k) {
      forall k | n <= k < n + count ensures Bit(a, k) == Bit(b, k) {
        assert Bit(x, k - n) == Bit(a, n + (k - n));
      }
    }
    if forall k | n <= k < n + count :: Bit(a, k) == Bit(b, k) {
      forall k | 0 <= k < count ensures Bit(x, k) == Bit(y, k) {
        assert Bit(a, n + k) == Bit(b, n + k);
      }
    }
  }

  lemma Pow2Of32()
    ensures Pow2(32) == 0x1_0000_0000
  {
    assert Pow2(8) == 256;
    assert Pow2(16) == 65536;
    assert Pow2(24) == 16777216;
  }

  // ----- Routes and blocks -----

  /** Every address of the block is covered by the network. */
  ghost predicate Covers(net: Net, block: Net) {
    forall a :: block.Contains(a) ==> net.Contains(a)
  }

  predicate IsSubnetOf(left: Net, right: Net) {
    right.address <= left.address && right.Broadcast() >= left.Broadcast()
  }

  /** Comparing bounds is comparing sets of addresses. */
  lemma SubnetIsInclusion(left: Net, right: Net)
    ensures IsSubnetOf(left, right) <==> Covers(right, left)
  {
    Pow2Positive(if left.prefix <= WIDTH then WIDTH - left.prefix else 0);
    if Covers(right, left) {
      assert left.Contains(left.address);
      assert left.Contains(left.Broadcast());
    }
  }

  /** The size of a block divides that of any block with a shorter prefix. */
  lemma {:induction false} SizesDivide(m: nat, n: nat) returns (k: nat)
    requires m <= n
    ensures Pow2(n) == k * Pow2(m) && k > 0
    decreases n - m
  {
    if m == n {
      k := 1;
    } else {
      var half := SizesDivide(m, n - 1);
      k := 2 * half;
    }
  }

  lemma MultiplesMonotone(x: int, y: int, unit: nat)
    requires x <= y
    ensures x * unit <= y * unit
  {
    assert y * unit - x * unit == (y - x) * unit;
  }

  /** A unit that meets a whole range of units is inside it. */
  lemma UnitInside(x: int, from: int, to: int, unit: nat, a: int)
    requires unit > 0
    requires x * unit <= a < x * unit + unit
    requires from * unit <= a < to * unit
    ensures from * unit <= x * unit && x * unit + unit <= to * unit
  {
    assert (x + 1) * unit == x * unit + unit;
    if x + 1 <= from {
      MultiplesMonotone(x + 1, from, unit);
    } else {
      MultiplesMonotone(from, x, unit);
    }
    if to <= x {
      MultiplesMonotone(to, x, unit);
    } else {
      MultiplesMonotone(x + 1, to, unit);
    }
  }

  lemma InSmallerUnits(y: int, k: int, unit: nat)
    ensures y * (k * unit) == (y * k) * unit
    ensures y * (k * unit) + k * unit == (y * k + k) * unit
  {
  }

  lemma AlignedIsMultiple(net: Net)
    requires net.Aligned()
    ensures net.address == (net.address / net.Size()) * net.Size()
  {
  }

  /** Of two aligned blocks, one is inside the other as soon as they share an address. */
  lemma NestedOrDisjoint(long: Net, short: Net, a: int)
    requires long.Aligned() && short.Aligned() && short.prefix <= long.prefix
    requires long.Contains(a) && short.Contains(a)
    ensures IsSubnetOf(long, short)
  {
    var unit := long.Size();
    var k := SizesDivide(WIDTH - long.prefix, WIDTH - short.prefix);
    var x, y := long.address / unit, short.address / short.Size();
    AlignedIsMultiple(long);
    AlignedIsMultiple(short);
    InSmallerUnits(y, k, unit);
    UnitInside(x, y * k, y * k + k, unit, a);
  }

  /** A route with a more specific prefix, at the very start of the block. */
  predicate StartsInside(route: Net, block: Net) {
    route.address == block.address && block.prefix < route.prefix
  }

  /** A route holds the first address of a block it does not cover exactly when it starts there and is more specific. */
  lemma FirstAddressOnly(route: Net, block: Net)
    requires route.Aligned() && block.Aligned() && !IsSubnetOf(block, route)
    ensures route.Contains(block.address) <==> StartsInside(route, block)
  {
    if route.Contains(block.address) {
      if route.prefix <= block.prefix {
        NestedOrDisjoint(block, route, block.address);
      } else {
        NestedOrDisjoint(route, block, block.address);
      }
    }
  }

  datatype Outcome = Covered | PartlyCovered | NoRoute

  /**
   A block has a route if a single route covers all of it. Otherwise the error tells
   whether a route was found for its first address.
   */
  method RouteExists(destination: Net, routes: seq<Net>) returns (r: Outcome)
    requires destination.Aligned() && forall route | route in routes :: route.Aligned()
    ensures r.Covered? <==> exists route | route in routes :: Covers(route, destination)
    ensures r.PartlyCovered? <==> !r.Covered? && exists route | route in routes :: StartsInside(route, destination)
  {
    var routeExists := false;
    for i := 0 to |routes|
      invariant forall j | 0 <= j < i :: !Covers(routes[j], destination)
      invariant routeExists <==> exists j | 0 <= j < i :: StartsInside(routes[j], destination)
    {
      SubnetIsInclusion(destination, routes[i]);
      if IsSubnetOf(destination, routes[i]) {
        return Covered;
      }
      FirstAddressOnly(routes[i], destination);
      routeExists := routeExists || routes[i].Contains(destination.address);
    }
    r := if routeExists then PartlyCovered else NoRoute;
  }
}
