/** Port assignment for a Shadowsocks instance: `nextAvailablePort` and the port part of
    `ensureShadowsocksInstanceDriverState`. */
module Shadowsocks {

  const DEFAULT_PORT := 8388

  ghost function From(used: set<int>, port: int): set<int> {
    set q | q in used && q >= port
  }

  /** `nextAvailablePort`: the least unused port from `start`; the search ends because finitely many are used. */
  method NextAvailablePort(used: set<int>, start: int) returns (port: int)
    ensures var first := if start <= 0 then DEFAULT_PORT else start;
            port >= first && port !in used && forall q :: first <= q < port ==> q in used
  {
    var first := if start <= 0 then DEFAULT_PORT else start;
    port := first;
    while port in used
      invariant first <= port
      invariant forall q :: first <= q < port ==> q in used
      decreases From(used, port)
    {
      assert From(used, port + 1) == From(used, port) - {port};
      port := port + 1;
    }
  }

  /** The ports already recorded; a value that is not positive means that none is. */
  function Recorded(existing: seq<int>): set<int> {
    set q | q in existing && q > 0
  }

  function Largest(existing: seq<int>): int {
    if existing == [] then 0
    else
      var rest := Largest(existing[1..]);
      if existing[0] > rest then existing[0] else rest
  }

  /** How many of the first `n` accounts have no recorded port. */
  function NewAmong(existing: seq<int>, n: nat): nat
    requires n <= |existing|
  {
    if n == 0 then 0 else NewAmong(existing, n - 1) + if existing[n - 1] > 0 then 0 else 1
  }

  function Max(a: int, b: int): int {
    if a > b then a else b
  }

  lemma {:induction false} LargestBounds(existing: seq<int>, i: nat)
    requires i < |existing|
    ensures existing[i] <= Largest(existing)
  {
    if i > 0 {
      LargestBounds(existing[1..], i - 1);
    }
  }

  /** What holds of the ports handed out so far: recorded ports are kept; new ones are recorded for nobody, differ
      from each other and stay within `top` plus their own number. */
  ghost predicate Assigned(base: int, top: int, existing: seq<int>, ports: seq<int>) {
    && |ports| <= |existing|
    && (forall i :: 0 <= i < |ports| ==> ports[i] > 0)
    && (forall i :: 0 <= i < |ports| && existing[i] > 0 ==> ports[i] == existing[i])
    && (forall i :: 0 <= i < |ports| && existing[i] <= 0 ==> ports[i] !in existing)
    && (forall i :: 0 <= i < |ports| && existing[i] <= 0 ==> base <= ports[i] <= top + NewAmong(existing, i + 1))
    && (forall i, j :: 0 <= i < j < |ports| && existing[i] <= 0 && existing[j] <= 0 ==> ports[i] != ports[j])
  }

  lemma AssignedStep(base: int, top: int, existing: seq<int>, ports: seq<int>, port: int)
    requires Assigned(base, top, existing, ports) && |ports| < |existing|
    requires existing[|ports|] > 0 ==> port == existing[|ports|]
    requires existing[|ports|] <= 0 ==>
               port > 0 && port !in existing && port !in ports && base <= port <= top + NewAmong(existing, |ports| + 1)
    ensures Assigned(base, top, existing, ports + [port])
  {
    forall i | 0 <= i < |ports|
      ensures ports[i] in ports
    {
    }
  }

  /** The port loop. */
  method AssignPorts(configuredBase: int, existing: seq<int>) returns (ports: seq<int>)
    ensures |ports| == |existing|
    ensures var base := if configuredBase <= 0 then DEFAULT_PORT else configuredBase;
            Assigned(base, Max(base - 1, Largest(existing)), existing, ports)
  {
    var base := if configuredBase <= 0 then DEFAULT_PORT else configuredBase;
    ghost var top := Max(base - 1, Largest(existing));
    var used := Recorded(existing);
    forall q | q in used
      ensures q <= top
    {
      var i :| 0 <= i < |existing| && existing[i] == q;
      LargestBounds(existing, i);
    }
    var nextPort := base;
    ports := [];
    for i := 0 to |existing|
      invariant |ports| == i && Assigned(base, top, existing, ports)
      invariant base <= nextPort <= top + NewAmong(existing, i) + 1
      invariant forall q :: q in existing && q > 0 ==> q in used
      invariant forall q :: q in ports ==> q in used
      invariant forall q :: q in used ==> q <= top + NewAmong(existing, i)
    {
      var port := existing[i];
      if port <= 0 {
        port := NextAvailablePort(used, nextPort);
        assert top + NewAmong(existing, i) + 1 !in used;
      } else {
        LargestBounds(existing, i);
      }
      AssignedStep(base, top, existing, ports, port);
      used := used + {port};
      if port >= nextPort {
        nextPort := port + 1;
      }
      ports := ports + [port];
    }
  }

  /** Running the assignment again on its own result assigns nothing. */
  method AssignPortsTwice(base: int, existing: seq<int>, laterBase: int) returns (once: seq<int>, twice: seq<int>)
    ensures twice == once
  {
    once := AssignPorts(base, existing);
    twice := AssignPorts(laterBase, once);
  }
}
