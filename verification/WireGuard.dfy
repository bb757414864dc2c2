/** Client address allocation for a WireGuard instance: `wireGuardHostAddr`, `nextWireGuardClientAddress` and the
    allocation loop of `ensureWireGuardInstanceDriverState`.  IPv4 addresses are numbers below 2^32. */
module WireGuard {
  import opened Common
  import opened Blocks

  const DEFAULT_HOST := 10

  /** An IPv4 prefix as configured; the host bits of `addr` need not be zero. */
  datatype Pool = Pool(addr: nat, bits: nat) {
    predicate Valid() {
      bits <= 32 && addr < TWO_32
    }

    function Size(): (s: nat)
      requires bits <= 32
      ensures s >= 1
    {
      Pow2(32 - bits)
    }

    /** `prefix.Masked().Addr()` */
    function Network(): nat
      requires bits <= 32
    {
      Masked(addr, Size())
    }

    /** `prefix.Contains(a)`: the leading `bits` bits agree. */
    predicate Contains(a: nat)
      requires bits <= 32
    {
      Masked(a, Size()) == Network()
    }

    /** An address a client may get: below /31 the last address of the prefix stays free. */
    predicate Usable(a: nat)
      requires bits <= 32
    {
      Contains(a) && (bits < 31 ==> Contains(a + 1))
    }

    /** `wireGuardHostAddr`, with the wrap-around of its uint32 sum. */
    function HostAddr(host: int): Result<nat>
      requires bits <= 32
    {
      var a := (Network() + host % TWO_32) % TWO_32;
      if Contains(a) then Ok(a) else Err("address is outside of prefix")
    }
  }

  /** The prefix holds exactly the addresses from its network address on, one block long, and the block ends
      below 2^32. */
  lemma PoolMembers(p: Pool, a: nat)
    requires p.Valid()
    ensures p.Network() + p.Size() <= TWO_32
    ensures p.Contains(a) <==> p.Network() <= a < p.Network() + p.Size()
  {
    PowerOf32();
    PowerSplit(p.bits, 32 - p.bits);
    assert Pow2(p.bits) * p.Size() == TWO_32;
    BlockFits(p.addr, p.Size(), Pow2(p.bits));
    BlockMembers(p.addr, p.Size(), a);
  }

  /** For a usable host index the uint32 sum does not wrap and stays inside the prefix. */
  lemma HostAddrExact(p: Pool, host: nat)
    requires p.Valid() && host < p.Size()
    ensures p.Contains(p.Network() + host)
    ensures p.HostAddr(host) == Ok(p.Network() + host)
  {
    var a := p.Network() + host;
    PoolMembers(p, a);
    assert host % TWO_32 == host && a % TWO_32 == a;
  }

  /** The usable addresses from a host index on are those up to the last one, or the last but one below /31. */
  lemma UsableIff(p: Pool, a: nat)
    requires p.Valid()
    ensures p.Usable(a) <==> p.Network() <= a < p.Network() + p.Size() - if p.bits < 31 then 1 else 0
  {
    PoolMembers(p, a);
    PoolMembers(p, a + 1);
    if p.bits < 31 {
      PowerSplit(2, 30 - p.bits);
    }
  }

  /** No usable address from host index `first` on is free. */
  ghost predicate UsedUp(p: Pool, used: set<nat>, first: int)
    requires p.bits <= 32
  {
    forall a: nat {:trigger p.Usable(a)} :: p.Usable(a) && a >= p.Network() + first ==> a in used
  }

  predicate HostTaken(p: Pool, used: set<nat>, host: int)
    requires p.bits <= 32
  {
    p.Network() + host in used
  }

  /** `nextWireGuardClientAddress`: the first free host index from `startHost`, or exhaustion. */
  method NextClientAddress(p: Pool, used: set<nat>, startHost: int) returns (r: Result<(nat, int)>)
    requires p.Valid()
    ensures var first := if startHost <= 0 then DEFAULT_HOST else startHost;
            match r
            case Ok((a, next)) =>
              && first < next && a == p.Network() + (next - 1) && p.Usable(a) && a !in used
              && (forall h :: first <= h < next - 1 ==> HostTaken(p, used, h))
            case Err(_) => UsedUp(p, used, first)
  {
    var first := if startHost <= 0 then DEFAULT_HOST else startHost;
    var totalHosts := Pow2(32 - p.bits);
    var maxHost := totalHosts - 1;
    if p.bits < 31 {
      maxHost := totalHosts - 2;
    }
    var host := first;
    while host <= maxHost
      invariant first <= host
      invariant forall h :: first <= h < host ==> HostTaken(p, used, h)
      decreases maxHost - host
    {
      HostAddrExact(p, host);
      var addr := p.HostAddr(host);
      if addr.Err? {
        return Err("address is outside of prefix");
      }
      if addr.value in used {
        host := host + 1;
        continue;
      }
      UsableIff(p, addr.value);
      return Ok((addr.value, host + 1));
    }
    forall a: nat | p.Usable(a) && a >= p.Network() + first
      ensures a in used
    {
      UsableIff(p, a);
      assert HostTaken(p, used, a - p.Network());
    }
    return Err("wireguard address pool is exhausted");
  }

  /** One client: the address recorded for it, if that text parses, and whether it must get a new one. */
  datatype Access = Access(recorded: Option<nat>, rotate: bool) {
    predicate Keeps(p: Pool)
      requires p.bits <= 32
    {
      !rotate && recorded.Some? && p.Contains(recorded.value)
    }
  }

  /** The server's address and every recorded client address. */
  function Recorded(server: Option<nat>, accesses: seq<Access>): set<nat> {
    (if server.Some? then {server.value} else {})
    + set a | a in accesses && a.recorded.Some? :: a.recorded.value
  }

  function Elements(s: seq<nat>): set<nat> {
    set x | x in s
  }

  predicate Distinct(s: seq<nat>) {
    forall i, j :: 0 <= i < j < |s| ==> s[i] != s[j]
  }

  /** The addresses that stay as they are: those of the clients that keep theirs. */
  predicate KeptApart(p: Pool, server: Option<nat>, accesses: seq<Access>)
    requires p.bits <= 32
  {
    && (forall i, j :: 0 <= i < j < |accesses| && accesses[i].Keeps(p) && accesses[j].Keeps(p) ==>
          accesses[i].recorded.value != accesses[j].recorded.value)
    && (forall i :: 0 <= i < |accesses| && accesses[i].Keeps(p) && server.Some? ==>
          accesses[i].recorded.value != server.value)
  }

  /** The address fits the client: the recorded one if it is kept, else a usable one that nobody had, and not the
      first of the prefix. */
  predicate Suits(p: Pool, recorded: set<nat>, access: Access, a: nat)
    requires p.bits <= 32
  {
    && p.Contains(a)
    && (access.Keeps(p) ==> a == access.recorded.value)
    && (!access.Keeps(p) ==> a !in recorded && p.Network() < a && p.Usable(a))
  }

  /** The client is not rotated and its recorded address lies in the block of the prefix: it keeps that address; every
      other client gets one that nobody had recorded. */
  predicate Settled(p: Pool, recorded: set<nat>, access: Access, a: nat)
    requires p.bits <= 32
  {
    if && !access.rotate && access.recorded.Some?
       && p.Network() <= access.recorded.value < p.Network() + p.Size() then a == access.recorded.value
    else a !in recorded && p.Network() < a < p.Network() + p.Size() - if p.bits < 31 then 1 else 0
  }

  lemma SuitsIsSettled(p: Pool, recorded: set<nat>, access: Access, a: nat)
    requires p.Valid() && Suits(p, recorded, access, a)
    ensures Settled(p, recorded, access, a)
  {
    if access.recorded.Some? {
      PoolMembers(p, access.recorded.value);
    }
    UsableIff(p, a);
  }

  /** What is known of the addresses handed out so far. */
  predicate Assigned(p: Pool, server: Option<nat>, accesses: seq<Access>, out: seq<nat>)
    requires p.bits <= 32
  {
    && |out| <= |accesses|
    && (forall i :: 0 <= i < |out| ==> Suits(p, Recorded(server, accesses), accesses[i], out[i]))
    && (forall i, j :: 0 <= i < j < |out| && !accesses[i].Keeps(p) && !accesses[j].Keeps(p) ==> out[i] != out[j])
  }

  lemma AssignedStep(p: Pool, server: Option<nat>, accesses: seq<Access>, out: seq<nat>, a: nat)
    requires p.bits <= 32 && Assigned(p, server, accesses, out) && |out| < |accesses|
    requires Suits(p, Recorded(server, accesses), accesses[|out|], a)
    requires !accesses[|out|].Keeps(p) ==> a !in Elements(out)
    ensures Assigned(p, server, accesses, out + [a])
  {
    forall i | 0 <= i < |out|
      ensures out[i] in Elements(out) && (out + [a])[i] == out[i]
    {
    }
  }

  lemma ElementsAppend(out: seq<nat>, a: nat)
    ensures Elements(out + [a]) == Elements(out) + {a}
  {
    forall x | x in Elements(out) + {a}
      ensures x in Elements(out + [a])
    {
      assert x in out ==> x in out + [a];
      assert a in out + [a];
    }
  }

  predicate TakenUpTo(p: Pool, used: set<nat>, start: int, last: int)
    requires p.bits <= 32
  {
    forall h :: start <= h <= last ==> HostTaken(p, used, h)
  }

  /** The next index to try; one that is not positive means the default. */
  predicate Cursor(first: int, nextHost: int) {
    first > 0 && (first <= nextHost || (nextHost <= 0 && first == DEFAULT_HOST))
  }

  lemma UsedUpFromCursor(p: Pool, used: set<nat>, first: int, nextHost: int)
    requires p.bits <= 32 && Cursor(first, nextHost) && TakenUpTo(p, used, first, nextHost - 1)
    requires UsedUp(p, used, if nextHost <= 0 then DEFAULT_HOST else nextHost)
    ensures UsedUp(p, used, first)
  {
    forall a: nat | p.Usable(a) && a >= p.Network() + first
      ensures a in used
    {
      if a < p.Network() + nextHost {
        assert HostTaken(p, used, a - p.Network());
      }
    }
  }

  /** One turn of the loop: keep the recorded address or search for a new one. */
  method AddressFor(p: Pool, access: Access, used: set<nat>, ghost first: int, nextHost: int)
    returns (r: Result<(nat, int)>)
    requires p.Valid() && Cursor(first, nextHost) && TakenUpTo(p, used, first, nextHost - 1)
    ensures access.Keeps(p) ==> r == Ok((access.recorded.value, nextHost))
    ensures !access.Keeps(p) && r.Ok? ==>
              r.value.0 !in used && p.Usable(r.value.0) && p.Network() < r.value.0
    ensures r.Ok? ==> Cursor(first, r.value.1) && TakenUpTo(p, used + {r.value.0}, first, r.value.1 - 1)
    ensures r.Err? ==> UsedUp(p, used, first)
  {
    if access.rotate || access.recorded.None? || !p.Contains(access.recorded.value) {
      r := NextClientAddress(p, used, nextHost);
      if r.Ok? {
        var (a, next) := r.value;
        forall h | first <= h < next
          ensures HostTaken(p, used + {a}, h)
        {
          assert h < next - 1 ==> HostTaken(p, used, h);
        }
      } else {
        UsedUpFromCursor(p, used, first, nextHost);
      }
    } else {
      forall h | first <= h < nextHost
        ensures HostTaken(p, used + {access.recorded.value}, h)
      {
        assert HostTaken(p, used, h);
      }
      return Ok((access.recorded.value, nextHost));
    }
  }

  /** The allocation loop of `ensureWireGuardInstanceDriverState`.  `out` holds the addresses of the clients handled
      before the loop ended; on exhaustion it is shorter than the client list. */
  method AllocateClients(p: Pool, server: Option<nat>, accesses: seq<Access>, start: int)
    returns (out: seq<nat>, exhausted: bool)
    requires p.Valid()
    ensures Assigned(p, server, accesses, out)
    ensures exhausted <==> |out| < |accesses|
    ensures exhausted ==> !accesses[|out|].Keeps(p)
    ensures exhausted ==> UsedUp(p, Recorded(server, accesses) + Elements(out),
                               if start <= 0 then DEFAULT_HOST else start)
    ensures forall i :: 0 <= i < |out| ==> Settled(p, Recorded(server, accesses), accesses[i], out[i])
    ensures !exhausted ==> (KeptApart(p, server, accesses) <==>
                              Distinct(out) && (server.Some? ==> server.value !in out))
  {
    out, exhausted := AllocateInOrder(p, server, accesses, start);
    forall i | 0 <= i < |out|
      ensures Settled(p, Recorded(server, accesses), accesses[i], out[i])
    {
      SuitsIsSettled(p, Recorded(server, accesses), accesses[i], out[i]);
    }
    if !exhausted {
      KeptApartIff(p, server, accesses, out);
    }
  }

  /** Its loop. */
  method AllocateInOrder(p: Pool, server: Option<nat>, accesses: seq<Access>, start: int)
    returns (out: seq<nat>, exhausted: bool)
    requires p.Valid()
    ensures Assigned(p, server, accesses, out)
    ensures exhausted <==> |out| < |accesses|
    ensures exhausted ==> !accesses[|out|].Keeps(p)
    ensures exhausted ==> UsedUp(p, Recorded(server, accesses) + Elements(out),
                               if start <= 0 then DEFAULT_HOST else start)
  {
    var used := Recorded(server, accesses);
    var nextHost := start;
    ghost var first := if start <= 0 then DEFAULT_HOST else start;
    out := [];
    exhausted := false;
    for i := 0 to |accesses|
      invariant |out| == i && Assigned(p, server, accesses, out)
      invariant used == Recorded(server, accesses) + Elements(out)
      invariant Cursor(first, nextHost) && TakenUpTo(p, used, first, nextHost - 1)
    {
      var r := AddressFor(p, accesses[i], used, first, nextHost);
      if r.Err? {
        exhausted := true;
        return;
      }
      var address := r.value.0;
      nextHost := r.value.1;
      AssignedStep(p, server, accesses, out, address);
      ElementsAppend(out, address);
      out := out + [address];
      used := used + {address};
    }
  }

  lemma RecordedHas(server: Option<nat>, accesses: seq<Access>, i: nat)
    requires i < |accesses| && accesses[i].recorded.Some?
    ensures accesses[i].recorded.value in Recorded(server, accesses)
  {
    assert accesses[i] in accesses;
  }

  /** New addresses never clash with anything, so the result is free of clashes exactly when the kept ones are. */
  lemma KeptApartIff(p: Pool, server: Option<nat>, accesses: seq<Access>, out: seq<nat>)
    requires p.Valid() && Assigned(p, server, accesses, out) && |out| == |accesses|
    ensures KeptApart(p, server, accesses) <==> Distinct(out) && (server.Some? ==> server.value !in out)
  {
    forall i | 0 <= i < |accesses| && accesses[i].Keeps(p)
      ensures out[i] in Recorded(server, accesses)
    {
      RecordedHas(server, accesses, i);
    }
  }
}
