/** The pool of IPv4 addresses for VPN clients. Addresses are 32-bit numbers. */
module AddressPools {
  import opened Common
  import opened Bits

  /** A subnet as configured: any address in it, and the prefix length. */
  datatype Net = Net(address: u32, prefix: nat) {
    function Size(): nat
      requires prefix <= 32
    {
      Pow2(32 - prefix)
    }

    /** The address with its host bits cleared. */
    function Network(): int
      requires prefix <= 32
    {
      address - address % Size()
    }

    function Broadcast(): int
      requires prefix <= 32
    {
      Network() + Size() - 1
    }
  }

  datatype ConfigError = PrefixTooSmall | PrefixTooLarge | LoopbackOrUnspecified | Multicast | LinkLocal

  datatype PoolError = Exhausted | NotInPool | ReservedOrLeased

  function FirstOctet(a: int): int { a / 0x100_0000 }

  function ValidateNet(net: Net): Option<ConfigError> {
    if net.prefix < 8 then Some(PrefixTooSmall)
    else if net.prefix > 30 then Some(PrefixTooLarge)
    else if FirstOctet(net.Network()) == 127 || net.Network() == 0 then Some(LoopbackOrUnspecified)
    else if 224 <= FirstOctet(net.Network()) <= 239 then Some(Multicast)
    else if net.Network() / 0x1_0000 == 169 * 256 + 254 then Some(LinkLocal)
    else None
  }

  /** Accepted are prefixes from 8 to 30 whose network is not 0.0.0.0 and not in 127.0.0.0/8, 224.0.0.0/4 or
      169.254.0.0/16. */
  lemma ValidNetIff(net: Net)
    ensures ValidateNet(net).None?
            <==> && 8 <= net.prefix <= 30
                 && var a := net.Network();
                    && a != 0 && !(0x7F00_0000 <= a < 0x8000_0000) && !(0xE000_0000 <= a < 0xF000_0000)
                    && !(0xA9FE_0000 <= a < 0xA9FF_0000)
  {
    hide Net.Network;
  }

  lemma ValidatedPrefix(net: Net)
    requires ValidateNet(net).None?
    ensures 8 <= net.prefix <= 30
  {
  }

  /** A validated subnet lies inside the 32-bit space and has at least four addresses. */
  lemma NetBounds(net: Net)
    requires net.prefix <= 30
    ensures net.Size() >= 4 && 0 <= net.Network() <= net.address <= net.Broadcast() < U32_LIMIT
  {
    var k := 32 - net.prefix;
    Pow2Split(k, net.prefix);
    Pow2AtLeast(k);
    Pow2Of32();
    BlockInRange(net.address, Pow2(k), Pow2(net.prefix));
  }

  lemma BlockInRange(a: nat, size: nat, rest: nat)
    requires size > 0 && a < size * rest
    ensures 0 <= a - a % size <= a < a - a % size + size <= size * rest
  {
    var q := a / size;
    assert a == size * q + a % size;
    FactorLess(size, q, rest);
    FactorMonotone(size, q + 1, rest);
    assert size * (q + 1) == size * q + size;
  }

  lemma FactorMonotone(s: nat, a: nat, b: nat)
    requires a <= b
    ensures s * a <= s * b
  {
    assert s * b == s * a + s * (b - a);
  }

  lemma FactorLess(s: nat, a: nat, b: nat)
    requires s * a < s * b
    ensures a < b
  {
    if a >= b {
      FactorMonotone(s, b, a);
    }
  }

  lemma {:induction false} Pow2Split(a: nat, b: nat)
    ensures Pow2(a + b) == Pow2(a) * Pow2(b)
  {
    if b > 0 {
      Pow2Split(a, b - 1);
      assert Pow2(a + b) == 2 * (Pow2(a) * Pow2(b - 1));
    }
  }

  lemma Pow2AtLeast(k: nat)
    requires k >= 2
    ensures Pow2(k) >= 4
  {
    if k > 2 {
      Pow2Less(2, k);
    }
    assert Pow2(2) == 2 * Pow2(1) == 4;
  }

  lemma Pow2Of32()
    ensures Pow2(32) == 0x1_0000_0000
  {
    assert Pow2(4) == 16;
    assert Pow2(8) == 0x100 by { Pow2Split(4, 4); }
    assert Pow2(16) == 0x1_0000 by { Pow2Split(8, 8); }
    Pow2Split(16, 16);
  }

  // ---------------------------------------------------------------- the least free address

  /** The smallest address in [lo, hi) that is not taken. */
  function LeastFree(lo: int, hi: int, taken: set<int>): Option<int>
    decreases if lo < hi then hi - lo else 0
  {
    if lo >= hi then None else if lo !in taken then Some(lo) else LeastFree(lo + 1, hi, taken)
  }

  lemma {:induction false} LeastFreeExact(lo: int, hi: int, taken: set<int>)
    ensures var r := LeastFree(lo, hi, taken);
            && (r.Some? ==> lo <= r.value < hi && r.value !in taken && forall a | lo <= a < r.value :: a in taken)
            && (r.None? ==> forall a | lo <= a < hi :: a in taken)
    decreases if lo < hi then hi - lo else 0
  {
    if lo < hi && lo in taken {
      LeastFreeExact(lo + 1, hi, taken);
    }
  }

  ghost function Interval(lo: int, hi: int): (r: set<int>)
    ensures forall a: int :: a in r <==> lo <= a < hi
    ensures |r| == if lo <= hi then hi - lo else 0
    decreases if lo < hi then hi - lo else 0
  {
    if lo >= hi then {} else {lo} + Interval(lo + 1, hi)
  }

  // ---------------------------------------------------------------- the pool

  /** The addresses that may be handed out: after the gateway, before the broadcast address. */
  ghost function Usable(net: Net): set<int>
    requires net.prefix <= 30
  {
    Interval(net.Network() + 2, net.Broadcast())
  }

  /** Leased addresses are in the subnet and none is the network, gateway or broadcast address. */
  ghost predicate PoolInv(net: Net, leased: set<int>)
    requires net.prefix <= 30
  {
    leased <= Usable(net)
  }

  function Reserved(net: Net): set<int>
    requires net.prefix <= 30
  {
    {net.Network(), net.Broadcast(), net.Network() + 1}
  }

  function Capacity(net: Net): int
    requires net.prefix <= 30
  {
    net.Size() - 3
  }

  function AllocateStep(net: Net, leased: set<int>): (Result<int, PoolError>, set<int>)
    requires net.prefix <= 30
  {
    match LeastFree(net.Network() + 2, net.Broadcast(), Reserved(net) + leased)
    case Some(a) => (Ok(a), leased + {a})
    case None => (Err(Exhausted), leased)
  }

  function AllocateSpecificStep(net: Net, leased: set<int>, a: int): (Result<int, PoolError>, set<int>)
    requires net.prefix <= 30
  {
    if !(net.Network() <= a <= net.Broadcast()) then (Err(NotInPool), leased)
    else if a in Reserved(net) || a in leased then (Err(ReservedOrLeased), leased)
    else (Ok(a), leased + {a})
  }

  /** The number the pool reports: hosts less the three reserved addresses less the leased ones,
      never below zero. Two of the three reserved addresses are not hosts. */
  function AvailableV4(net: Net, leased: set<int>): nat
    requires net.prefix <= 30
  {
    var hosts := net.Size() - 2;
    var unreserved := if hosts >= 3 then hosts - 3 else 0;
    if unreserved >= |leased| then unreserved - |leased| else 0
  }

  lemma UsableSize(net: Net)
    requires net.prefix <= 30
    ensures |Usable(net)| == Capacity(net) >= 1
    ensures forall a | a in Usable(net) :: a !in Reserved(net) && net.Network() < a < net.Broadcast()
    ensures forall a | net.Network() <= a <= net.Broadcast() && a !in Reserved(net) :: a in Usable(net)
  {
    hide Net.Network, Net.Size;
    NetBounds(net);
  }

  /** Automatic allocation hands out the least free usable address, and fails exactly when all
      2^(32-prefix) - 3 are leased. */
  lemma AllocateExact(net: Net, leased: set<int>)
    requires net.prefix <= 30 && PoolInv(net, leased)
    ensures var (r, leased') := AllocateStep(net, leased);
            && PoolInv(net, leased')
            && (r.Ok? ==> r.value in Usable(net) && r.value !in leased && leased' == leased + {r.value}
                          && forall a | a in Usable(net) && a < r.value :: a in leased)
            && (r.Err? ==> leased' == leased)
            && (r.Err? <==> |leased| == Capacity(net))
  {
    hide Net.Network, Net.Size;
    UsableSize(net);
    var lo, hi, taken := net.Network() + 2, net.Broadcast(), Reserved(net) + leased;
    LeastFreeExact(lo, hi, taken);
    SubsetSize(leased, Usable(net));
    if AllocateStep(net, leased).0.Err? {
      assert Usable(net) <= leased;
      SubsetSize(Usable(net), leased);
    }
  }

  lemma AllocateSpecificExact(net: Net, leased: set<int>, a: int)
    requires net.prefix <= 30 && PoolInv(net, leased)
    ensures var (r, leased') := AllocateSpecificStep(net, leased, a);
            && PoolInv(net, leased')
            && (r.Ok? <==> a in Usable(net) && a !in leased) && (r.Ok? ==> r.value == a)
            && (r == Err(NotInPool) <==> a < net.Network() || a > net.Broadcast())
            && (r == Err(ReservedOrLeased) <==>
                  a in leased || a == net.Network() || a == net.Network() + 1 || a == net.Broadcast())
            && leased' == if r.Ok? then leased + {a} else leased
  {
    hide Net.Network, Net.Size;
    UsableSize(net);
  }

  /** The reported count is exactly two short of what can still be leased (and zero when that would
      be negative); so a positive count means an allocation succeeds. */
  lemma AvailableIsConservative(net: Net, leased: set<int>)
    requires net.prefix <= 30 && PoolInv(net, leased)
    ensures var free := Capacity(net) - |leased|;
            && free >= 0
            && AvailableV4(net, leased) == (if free >= 2 then free - 2 else 0)
            && (AvailableV4(net, leased) > 0 ==> AllocateStep(net, leased).0.Ok?)
  {
    hide Net.Network, Net.Size;
    UsableSize(net);
    SubsetSize(leased, Usable(net));
    AllocateExact(net, leased);
  }

  // ---------------------------------------------------------------- runs

  datatype Op = Allocate | AllocateSpecific(a: int) | Release(a: int)

  function Step(net: Net, leased: set<int>, op: Op): set<int>
    requires net.prefix <= 30
  {
    match op
    case Allocate => AllocateStep(net, leased).1
    case AllocateSpecific(a) => AllocateSpecificStep(net, leased, a).1
    case Release(a) => leased - {a}
  }

  function Run(net: Net, ops: seq<Op>): set<int>
    requires net.prefix <= 30
  {
    if ops == [] then {} else Step(net, Run(net, ops[..|ops| - 1]), ops[|ops| - 1])
  }

  /** Over every sequence of allocations and releases, leased addresses stay usable. */
  lemma {:induction false} PoolInvariant(net: Net, ops: seq<Op>)
    requires net.prefix <= 30
    ensures PoolInv(net, Run(net, ops))
  {
    if ops != [] {
      var before := Run(net, ops[..|ops| - 1]);
      PoolInvariant(net, ops[..|ops| - 1]);
      match ops[|ops| - 1] {
        case Allocate => AllocateExact(net, before);
        case AllocateSpecific(a) => AllocateSpecificExact(net, before, a);
        case Release(a) =>
      }
    }
  }

  /** After a release the next allocation gives the released address, unless a smaller one was free. */
  lemma ReleaseThenAllocate(net: Net, leased: set<int>, a: int)
    requires net.prefix <= 30 && PoolInv(net, leased) && a in leased
    ensures var before, after := AllocateStep(net, leased).0, AllocateStep(net, Step(net, leased, Release(a))).0;
            after == Ok(if before.Ok? && before.value < a then before.value else a)
  {
    hide Net.Network, Net.Size, AllocateStep;
    UsableSize(net);
    AllocateExact(net, leased);
    AllocateExact(net, leased - {a});
    SubsetSize(leased, Usable(net));
    assert AllocateStep(net, leased).0.Err? ==> leased == Usable(net);
    hide Usable, PoolInv;
  }

  class AddressPool {
    const net: Net
    var leased: set<int>
    const reserved: set<int>

    ghost predicate Valid()
      reads this
    {
      ValidateNet(net).None? && reserved == Reserved(net) && PoolInv(net, leased)
    }

    constructor (net: Net)
      requires ValidateNet(net).None?
      ensures Valid() && this.net == net && leased == {}
    {
      this.net, leased := net, {};
      reserved := {net.Network(), net.Broadcast(), net.Network() + 1};
    }

    method Allocate() returns (r: Result<int, PoolError>)
      requires Valid()
      modifies this
      ensures Valid()
      ensures (r, leased) == AllocateStep(net, old(leased))
    {
      hide Net.Network, Net.Size;
      NetBounds(net);
      AllocateExact(net, leased);
      var a, end := net.Network() + 2, net.Broadcast();
      while a < end
        invariant net.Network() + 2 <= a <= end && leased == old(leased)
        invariant LeastFree(a, end, reserved + leased) == LeastFree(net.Network() + 2, end, reserved + leased)
      {
        if a !in reserved && a !in leased {
          leased := leased + {a};
          return Ok(a);
        }
        a := a + 1;
      }
      return Err(Exhausted);
    }

    method AllocateSpecific(a: int) returns (r: Result<int, PoolError>)
      requires Valid()
      modifies this
      ensures Valid()
      ensures (r, leased) == AllocateSpecificStep(net, old(leased), a)
    {
      AllocateSpecificExact(net, leased, a);
      if !(net.Network() <= a <= net.Broadcast()) {
        return Err(NotInPool);
      }
      if a in reserved || a in leased {
        return Err(ReservedOrLeased);
      }
      leased := leased + {a};
      return Ok(a);
    }

    method Release(a: int)
      requires Valid()
      modifies this
      ensures Valid()
      ensures leased == old(leased) - {a}
    {
      leased := leased - {a};
    }
  }
}
