/** The address allocator run by one process at a time, with its 32-bit arithmetic. Interleaved calls
    are the subject of module IpamRace. */
module Ipam {
  import opened Wrappers

  type Id = string
  type Addr = nat

  const WORD: nat := 0x1_0000_0000

  /** A prefix of `ones` bits and the address of the network, which has no bits beyond them. */
  datatype Subnet = Subnet(network: Addr, ones: nat) {
    predicate Valid() { ones <= 32 && network < WORD && network % Pow2(32 - ones) == 0 }

    /** How many addresses there really are. */
    function Count(): nat
      requires Valid()
    {
      Pow2(32 - ones)
    }
  }

  /** uint32(1) << n, which is zero for shifts of 32 and more. */
  function ShiftLeftOne(n: nat): nat { if n >= 32 then 0 else Pow2(n) % WORD }

  function Add32(a: nat, b: nat): nat { (a + b) % WORD }

  function Sub32(a: nat, b: nat): nat
    requires b <= WORD
  {
    (a + WORD - b) % WORD
  }

  // ---------------------------------------------------------------- the arithmetic

  lemma {:induction false} PowersMultiply(m: nat, n: nat)
    ensures Pow2(m + n) == Pow2(m) * Pow2(n)
  {
    if m > 0 {
      PowersMultiply(m - 1, n);
    }
  }

  lemma WordIsPower()
    ensures Pow2(32) == WORD
  {
    assert Pow2(8) == 256;
    PowersMultiply(8, 8);
    assert Pow2(16) == 0x1_0000;
    PowersMultiply(16, 16);
  }

  lemma {:induction false} PowersGrow(m: nat, n: nat)
    requires m < n
    ensures 2 * Pow2(m) <= Pow2(n)
  {
    if m + 1 < n {
      PowersGrow(m, n - 1);
    }
  }

  /** The scan ends at the broadcast address for every prefix length, even for /0, where the size
      wraps to zero and the subtraction wraps back. */
  lemma LimitIsBroadcast(net: Subnet)
    requires net.Valid()
    ensures Sub32(ShiftLeftOne(32 - net.ones), 1) == net.Count() - 1
  {
    WordIsPower();
    if net.ones > 0 {
      PowersGrow(32 - net.ones, 32);
    }
  }

  lemma MultipleFits(size: nat, n: int, m: int)
    requires size * n < size * m
    ensures size * n + size <= size * m
  {
    ProductBounds(size, m - n);
    assert size * (m - n) == size * m - size * n;
  }

  lemma ProductBounds(size: int, d: int)
    requires size >= 0
    ensures d >= 1 ==> size * d >= size
    ensures d <= 0 ==> size * d <= 0
    ensures d <= -1 ==> size * d <= -size
  {}

  lemma AlignedFits(x: nat, size: nat, m: nat)
    requires size > 0 && x % size == 0 && x < size * m
    ensures x + size <= size * m
  {
    MultipleFits(size, x / size, m);
  }

  lemma CountDividesWord(net: Subnet)
    requires net.Valid()
    ensures net.Count() * Pow2(net.ones) == WORD
  {
    WordIsPower();
    PowersMultiply(32 - net.ones, net.ones);
    assert 32 - net.ones + net.ones == 32;
  }

  /** The subnet ends within the 32-bit space. */
  lemma SubnetFits(net: Subnet)
    requires net.Valid()
    ensures net.network + net.Count() <= WORD
  {
    CountDividesWord(net);
    AlignedFits(net.network, net.Count(), Pow2(net.ones));
  }

  /** Adding an offset below the limit never wraps, and stays in the subnet, off its first and last
      addresses. */
  lemma OffsetStaysInside(net: Subnet, offset: nat)
    requires net.Valid() && 2 <= offset < net.Count() - 1
    ensures Add32(net.network, offset) == net.network + offset
    ensures InPool(net, Add32(net.network, offset))
    ensures Add32(offset, 1) == offset + 1
    ensures Add32(net.network, offset) - Add32(net.network, offset) % net.Count() == net.network
  {
    SubnetFits(net);
    var size, n := net.Count(), net.network / net.Count();
    assert net.network == size * n;
    RemainderOfOffset(size, n, offset);
  }

  lemma RemainderOfOffset(size: nat, n: nat, offset: nat)
    requires offset < size
    ensures (size * n + offset) % size == offset
  {
    var m := size * n + offset;
    assert m == size * (m / size) + m % size;
    assert size * (m / size - n) == offset - m % size;
    ProductBounds(size, m / size - n);
  }

  /** What may be handed out: everything but the network, the next address and the broadcast one. */
  predicate InPool(net: Subnet, a: Addr)
    requires net.Valid()
  {
    net.network + 2 <= a <= net.network + net.Count() - 2
  }

  // ---------------------------------------------------------------- the allocator

  datatype Error = NoSubnet | ClaimFailed | WriteFailed | Full

  datatype Answer = Leased(addr: Addr) | Refused(error: Error)

  predicate Holds(leases: map<Addr, Id>, a: Addr, id: Id) { a in leases && leases[a] == id }

  predicate HasLease(leases: map<Addr, Id>, id: Id) { exists a :: a in leases && Holds(leases, a, id) }

  /** Nobody has two leases. */
  predicate Single(leases: map<Addr, Id>) {
    forall a, b :: a in leases && b in leases && leases[a] == leases[b] ==> a == b
  }

  predicate LowestFree(taken: set<Addr>, net: Subnet, a: Addr)
    requires net.Valid()
  {
    InPool(net, a) && a !in taken && forall b :: net.network + 2 <= b < a ==> b in taken
  }

  predicate PoolFull(taken: set<Addr>, net: Subnet)
    requires net.Valid()
  {
    forall a :: net.network + 2 <= a <= net.network + net.Count() - 2 ==> a in taken
  }

  lemma ClaimKeepsSingle(leases: map<Addr, Id>, a: Addr, id: Id)
    requires a !in leases && !HasLease(leases, id)
    ensures Single(leases) ==> Single(leases[a := id])
    ensures Holds(leases[a := id], a, id)
  {
    assert forall b :: b in leases ==> !Holds(leases, b, id);
  }

  /** The lease directory, one file per address, and the subnet if one could be parsed. */
  class Table {
    const subnet: Option<Subnet>
    var leases: map<Addr, Id>

    ghost predicate Valid()
      reads this
    {
      subnet.Some? ==> subnet.value.Valid()
    }

    constructor (subnet: Option<Subnet>)
      requires subnet.Some? ==> subnet.value.Valid()
      ensures Valid() && leases == map[] && this.subnet == subnet
    {
      this.subnet := subnet;
      leases := map[];
    }

    /** The first entry of the directory, in whatever order it is listed, that names the container. */
    method LeaseOf(id: Id) returns (found: Option<Addr>)
      ensures found.Some? <==> HasLease(leases, id)
      ensures found.Some? ==> Holds(leases, found.value, id)
    {
      var todo := leases.Keys;
      while todo != {}
        invariant todo <= leases.Keys
        invariant forall a :: a in leases && a !in todo ==> leases[a] != id
      {
        var a :| a in todo;
        if leases[a] == id {
          return Some(a);
        }
        todo := todo - {a};
      }
      found := None;
    }

    /** `claimFails` and `writeFails` are the environment: creating the file can fail although nobody
        has it, and writing the owner into it can fail. */
    method Allocate(id: Id, claimFails: bool, writeFails: bool) returns (r: Answer)
      requires Valid()
      modifies this`leases
      ensures Valid()
      ensures r.Leased? ==> Holds(leases, r.addr, id)
      ensures subnet.Some? && old(HasLease(leases, id)) ==> r.Leased?
      ensures old(Single(leases)) ==> Single(leases)
      ensures r == Refused(NoSubnet) <==> subnet.None?
      ensures r == Refused(Full) <==>
                subnet.Some? && !old(HasLease(leases, id)) && PoolFull(old(leases).Keys, subnet.value)
      ensures r.Leased? && !old(HasLease(leases, id)) ==>
                LowestFree(old(leases).Keys, subnet.value, r.addr) && leases == old(leases)[r.addr := id]
      ensures r.Refused? || old(HasLease(leases, id)) ==> leases == old(leases)
      ensures r == Refused(ClaimFailed) ==> claimFails
      ensures r == Refused(WriteFailed) ==> writeFails
      ensures (claimFails || writeFails) && r.Leased? ==> old(HasLease(leases, id))
    {
      if subnet.None? {
        return Refused(NoSubnet);
      }
      var held := LeaseOf(id);
      if held.Some? {
        return Leased(held.value);
      }
      var net := subnet.value;
      var limit := Sub32(ShiftLeftOne(32 - net.ones), 1);
      LimitIsBroadcast(net);
      var offset := 2;
      while offset < limit
        invariant 2 <= offset && (limit >= 2 ==> offset <= limit)
        invariant leases == old(leases)
        invariant forall b :: net.network + 2 <= b < net.network + offset ==> b in leases
      {
        OffsetStaysInside(net, offset);
        var candidate := Add32(net.network, offset);
        assert candidate == net.network + offset;
        if candidate !in leases {
          if claimFails {
            return Refused(ClaimFailed);
          }
          leases := leases[candidate := ""];
          if writeFails {
            leases := leases - {candidate};
            return Refused(WriteFailed);
          }
          ClaimKeepsSingle(old(leases), candidate, id);
          leases := leases[candidate := id];
          assert leases == old(leases)[candidate := id];
          return Leased(candidate);
        }
        offset := Add32(offset, 1);
      }
      r := Refused(Full);
    }

    method Release(id: Id)
      requires Valid()
      modifies this`leases
      ensures Valid()
      ensures !old(HasLease(leases, id)) ==> leases == old(leases)
      ensures old(HasLease(leases, id)) ==> exists a :: old(Holds(leases, a, id)) && leases == old(leases) - {a}
      ensures old(Single(leases)) ==> Single(leases) && !HasLease(leases, id)
    {
      var held := LeaseOf(id);
      if held.Some? {
        assert Holds(leases, held.value, id);
        leases := leases - {held.value};
      }
    }

    /** Asking again gives the same address, and releasing gives back the table there was. */
    method AllocateTwiceAndRelease(id: Id) returns (first: Answer, second: Answer)
      requires Valid() && Single(leases) && !HasLease(leases, id)
      modifies this`leases
      ensures first == second
      ensures leases == old(leases)
    {
      first := Allocate(id, false, false);
      ghost var between := leases;
      assert first.Leased? ==> Holds(between, first.addr, id) && HasLease(between, id);
      second := Allocate(id, false, false);
      assert first == Refused(NoSubnet) || first == Refused(Full) ==> second == first;
      assert first.Refused? ==> first.error.NoSubnet? || first.error.Full?;
      assert first.Leased? ==> leases == between && Holds(between, second.addr, id);
      Release(id);
    }
  }

  // ---------------------------------------------------------------- the gateway

  /** The bridge's own address can be handed out exactly when it is neither of the two lowest nor the
      highest of its subnet. The default, network plus one, never is. */
  lemma GatewayIsLeasedUnlessLow(net: Subnet, gateway: Addr)
    requires net.Valid() && net.network <= gateway < net.network + net.Count()
    ensures (exists taken :: LowestFree(taken, net, gateway)) <==> 2 <= gateway - net.network <= net.Count() - 2
  {
    if InPool(net, gateway) {
      var taken := set b | net.network + 2 <= b < gateway && InPool(net, b);
      assert LowestFree(taken, net, gateway);
    }
  }

  /** With the default 10.66.0.1/24 the pool is 10.66.0.2 to 10.66.0.254. */
  lemma DefaultPool(a: Addr)
    ensures var net := Subnet(0x0A420000, 24);
      net.Valid() && (InPool(net, a) <==> 0x0A420002 <= a <= 0x0A4200FE)
  {
    PowersMultiply(4, 4);
    assert Pow2(4) == 16;
  }
}
