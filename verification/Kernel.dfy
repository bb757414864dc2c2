/** The part of the kernel that the agent's generated commands change: policy-routing rules and routes.
    Rules are kept in the order in which the kernel consults them. */
module Kernel {
  import opened Common
  import opened Blocks

  /** An IPv4 prefix. */
  datatype Prefix = Prefix(base: nat, bits: nat) {
    predicate Covers(a: nat) {
      bits <= 32 && Masked(a, Pow2(32 - bits)) == Masked(base, Pow2(32 - bits))
    }

    /** The form that parsing gives every prefix: an address with its host bits cleared. */
    predicate Proper() {
      bits <= 32 && base < TWO_32 && Masked(base, Pow2(32 - bits)) == base
    }
  }

  const DEFAULT := Prefix(0, 0)

  datatype Hop = Via(dev: string, gateway: string) | Unreachable

  datatype Route = Route(dst: Prefix, table: nat, metric: nat, hop: Hop) {
    function At(): Target {
      Target(dst, table)
    }
  }

  /** A destination in a routing table. */
  datatype Target = Target(dst: Prefix, table: nat)

  /** What a rule tests; `Other` stands for the selectors the agent does not use. */
  datatype Selector = FwMark(mark: nat) | Every | Other(tag: nat)

  datatype IpRule = IpRule(priority: nat, sel: Selector, table: nat)

  /** A packet as policy routing sees it; `hits` are the other selectors that it satisfies. */
  datatype Packet = Packet(src: nat, dst: nat, proto: nat, dport: nat, mark: nat, hits: set<nat>)

  predicate Applies(r: IpRule, p: Packet) {
    match r.sel
    case FwMark(m) => p.mark == m
    case Every => true
    case Other(tag) => tag in p.hits
  }

  // ---------------------------------------------------------------- rules

  predicate Sorted(rules: seq<IpRule>) {
    forall i, j :: 0 <= i < j < |rules| ==> rules[i].priority <= rules[j].priority
  }

  predicate HasPriority(rules: seq<IpRule>, p: nat) {
    exists i :: 0 <= i < |rules| && rules[i].priority == p
  }

  /** `ip rule delete priority p`: the first rule with that priority goes. */
  function DeleteFirst(rules: seq<IpRule>, p: nat): seq<IpRule> {
    if rules == [] then []
    else if rules[0].priority == p then rules[1..]
    else [rules[0]] + DeleteFirst(rules[1..], p)
  }

  lemma {:induction false} DeleteFirstShrinks(rules: seq<IpRule>, p: nat)
    requires HasPriority(rules, p)
    ensures |DeleteFirst(rules, p)| < |rules|
  {
    if rules[0].priority != p {
      var i :| 0 <= i < |rules| && rules[i].priority == p;
      assert rules[1..][i - 1].priority == p;
      DeleteFirstShrinks(rules[1..], p);
    }
  }

  /** `while ip rule delete priority p; do :; done` */
  function DeleteWhile(rules: seq<IpRule>, p: nat): seq<IpRule>
    decreases |rules|
  {
    if HasPriority(rules, p) then
      DeleteFirstShrinks(rules, p);
      DeleteWhile(DeleteFirst(rules, p), p)
    else rules
  }

  /** The shell loop over the priorities from `lo` to `hi`. */
  function DeleteRange(rules: seq<IpRule>, lo: nat, hi: nat): seq<IpRule>
    decreases hi + 1 - lo
  {
    if lo > hi then rules else DeleteRange(DeleteWhile(rules, lo), lo + 1, hi)
  }

  /** The rules whose priority lies outside lo..hi. */
  function Outside(rules: seq<IpRule>, lo: nat, hi: nat): seq<IpRule> {
    if rules == [] then []
    else (if lo <= rules[0].priority <= hi then [] else [rules[0]]) + Outside(rules[1..], lo, hi)
  }

  lemma {:induction false} OutsideAll(rules: seq<IpRule>, lo: nat, hi: nat)
    requires forall i :: 0 <= i < |rules| ==> !(lo <= rules[i].priority <= hi)
    ensures Outside(rules, lo, hi) == rules
  {
    if rules != [] {
      OutsideAll(rules[1..], lo, hi);
      assert rules == [rules[0]] + rules[1..];
    }
  }

  lemma {:induction false} OutsideDeleteFirst(rules: seq<IpRule>, p: nat)
    ensures Outside(DeleteFirst(rules, p), p, p) == Outside(rules, p, p)
  {
    if rules != [] && rules[0].priority != p {
      OutsideDeleteFirst(rules[1..], p);
      assert ([rules[0]] + DeleteFirst(rules[1..], p))[1..] == DeleteFirst(rules[1..], p);
    }
  }

  lemma {:induction false} DeleteWhileExact(rules: seq<IpRule>, p: nat)
    ensures DeleteWhile(rules, p) == Outside(rules, p, p)
    decreases |rules|
  {
    if HasPriority(rules, p) {
      DeleteFirstShrinks(rules, p);
      DeleteWhileExact(DeleteFirst(rules, p), p);
      OutsideDeleteFirst(rules, p);
    } else {
      OutsideAll(rules, p, p);
    }
  }

  lemma {:induction false} OutsideTwice(rules: seq<IpRule>, lo: nat, hi: nat)
    requires lo <= hi
    ensures Outside(Outside(rules, lo, lo), lo + 1, hi) == Outside(rules, lo, hi)
  {
    if rules != [] {
      OutsideTwice(rules[1..], lo, hi);
      if rules[0].priority != lo {
        assert Outside(rules, lo, lo) == [rules[0]] + Outside(rules[1..], lo, lo);
        assert ([rules[0]] + Outside(rules[1..], lo, lo))[1..] == Outside(rules[1..], lo, lo);
      } else {
        assert Outside(rules, lo, lo) == Outside(rules[1..], lo, lo);
      }
    }
  }

  /** The nested delete loops remove exactly the rules of the range and keep the order of the others. */
  lemma {:induction false} DeleteRangeExact(rules: seq<IpRule>, lo: nat, hi: nat)
    ensures DeleteRange(rules, lo, hi) == Outside(rules, lo, hi)
    decreases hi + 1 - lo
  {
    if lo > hi {
      OutsideAll(rules, lo, hi);
    } else {
      DeleteWhileExact(rules, lo);
      DeleteRangeExact(Outside(rules, lo, lo), lo + 1, hi);
      OutsideTwice(rules, lo, hi);
    }
  }

  /** `ip rule add`: behind the rules of the same or a lower priority number. */
  function InsertRule(rules: seq<IpRule>, r: IpRule): seq<IpRule> {
    if rules == [] || rules[0].priority > r.priority then [r] + rules
    else [rules[0]] + InsertRule(rules[1..], r)
  }

  lemma {:induction false} InsertMembers(rules: seq<IpRule>, r: IpRule)
    ensures forall x :: x in InsertRule(rules, r) <==> x == r || x in rules
  {
    if rules != [] && rules[0].priority <= r.priority {
      InsertMembers(rules[1..], r);
      assert forall x :: x in rules <==> x == rules[0] || x in rules[1..];
    }
  }

  lemma {:induction false} InsertKeepsOrder(rules: seq<IpRule>, r: IpRule)
    requires Sorted(rules)
    ensures Sorted(InsertRule(rules, r))
  {
    if rules != [] && rules[0].priority <= r.priority {
      InsertKeepsOrder(rules[1..], r);
      InsertMembers(rules[1..], r);
      var tail := InsertRule(rules[1..], r);
      forall i | 0 <= i < |tail|
        ensures rules[0].priority <= tail[i].priority
      {
        assert tail[i] in tail;
      }
    }
  }

  /** `ip rule del pref p fwmark m lookup t`: the first rule that is exactly that one. */
  function DeleteExact(rules: seq<IpRule>, r: IpRule): seq<IpRule> {
    if rules == [] then []
    else if rules[0] == r then rules[1..]
    else [rules[0]] + DeleteExact(rules[1..], r)
  }

  lemma {:induction false} DeleteExactMultiset(rules: seq<IpRule>, r: IpRule)
    ensures multiset(DeleteExact(rules, r)) == multiset(rules) - multiset{r}
  {
    if rules != [] {
      assert rules == [rules[0]] + rules[1..];
      assert multiset(rules) == multiset{rules[0]} + multiset(rules[1..]);
      if rules[0] != r {
        DeleteExactMultiset(rules[1..], r);
        assert multiset(DeleteExact(rules, r)) == multiset{rules[0]} + multiset(DeleteExact(rules[1..], r));
      }
    }
  }

  // ---------------------------------------------------------------- routes

  /** The routes away from the given destinations. */
  function Without(routes: seq<Route>, targets: set<Target>): seq<Route> {
    if routes == [] then []
    else (if routes[0].At() in targets then [] else [routes[0]]) + Without(routes[1..], targets)
  }

  predicate HasRoute(routes: seq<Route>, t: Target) {
    exists i :: 0 <= i < |routes| && routes[i].At() == t
  }

  /** `ip route delete dst table t`: one route of the destination goes. */
  function DeleteOneRoute(routes: seq<Route>, t: Target): seq<Route> {
    if routes == [] then []
    else if routes[0].At() == t then routes[1..]
    else [routes[0]] + DeleteOneRoute(routes[1..], t)
  }

  lemma {:induction false} DeleteOneShrinks(routes: seq<Route>, t: Target)
    requires HasRoute(routes, t)
    ensures |DeleteOneRoute(routes, t)| < |routes|
  {
    if routes[0].At() != t {
      var i :| 0 <= i < |routes| && routes[i].At() == t;
      assert routes[1..][i - 1].At() == t;
      DeleteOneShrinks(routes[1..], t);
    }
  }

  /** `while ip route delete dst table t; do :; done` */
  function FlushDestination(routes: seq<Route>, t: Target): seq<Route>
    decreases |routes|
  {
    if HasRoute(routes, t) then
      DeleteOneShrinks(routes, t);
      FlushDestination(DeleteOneRoute(routes, t), t)
    else routes
  }

  lemma {:induction false} WithoutAll(routes: seq<Route>, targets: set<Target>)
    requires forall i :: 0 <= i < |routes| ==> routes[i].At() !in targets
    ensures Without(routes, targets) == routes
  {
    if routes != [] {
      WithoutAll(routes[1..], targets);
      assert routes == [routes[0]] + routes[1..];
    }
  }

  lemma {:induction false} WithoutDeleteOne(routes: seq<Route>, t: Target)
    ensures Without(DeleteOneRoute(routes, t), {t}) == Without(routes, {t})
  {
    if routes != [] && routes[0].At() != t {
      WithoutDeleteOne(routes[1..], t);
      assert ([routes[0]] + DeleteOneRoute(routes[1..], t))[1..] == DeleteOneRoute(routes[1..], t);
    }
  }

  /** The delete loop removes every route of the destination and nothing else. */
  lemma {:induction false} FlushDestinationExact(routes: seq<Route>, t: Target)
    ensures FlushDestination(routes, t) == Without(routes, {t})
    decreases |routes|
  {
    if HasRoute(routes, t) {
      DeleteOneShrinks(routes, t);
      FlushDestinationExact(DeleteOneRoute(routes, t), t);
      WithoutDeleteOne(routes, t);
    } else {
      WithoutAll(routes, {t});
    }
  }

  lemma {:induction false} WithoutTwice(routes: seq<Route>, a: set<Target>, b: set<Target>)
    ensures Without(Without(routes, a), b) == Without(routes, a + b)
  {
    if routes != [] {
      WithoutTwice(routes[1..], a, b);
      if routes[0].At() !in a {
        assert Without(routes, a) == [routes[0]] + Without(routes[1..], a);
        assert ([routes[0]] + Without(routes[1..], a))[1..] == Without(routes[1..], a);
      } else {
        assert Without(routes, a) == Without(routes[1..], a);
      }
    }
  }

  lemma {:induction false} WithoutAppend(x: seq<Route>, y: seq<Route>, targets: set<Target>)
    ensures Without(x + y, targets) == Without(x, targets) + Without(y, targets)
  {
    if x == [] {
      assert x + y == y;
    } else {
      assert (x + y)[0] == x[0] && (x + y)[1..] == x[1..] + y;
      WithoutAppend(x[1..], y, targets);
    }
  }

  lemma {:induction false} WithoutMembers(routes: seq<Route>, targets: set<Target>)
    ensures forall r :: r in Without(routes, targets) <==> r in routes && r.At() !in targets
  {
    if routes != [] {
      WithoutMembers(routes[1..], targets);
      assert forall r :: r in routes <==> r == routes[0] || r in routes[1..];
    }
  }

  lemma {:induction false} WithoutNone(routes: seq<Route>, targets: set<Target>)
    requires forall i :: 0 <= i < |routes| ==> routes[i].At() in targets
    ensures Without(routes, targets) == []
  {
    if routes != [] {
      WithoutNone(routes[1..], targets);
    }
  }

  predicate SameKey(a: Route, b: Route) {
    a.dst == b.dst && a.table == b.table && a.metric == b.metric
  }

  /** `ip route replace`: a route with the same destination, table and metric is replaced, else the route is added. */
  function ReplaceRoute(routes: seq<Route>, r: Route): seq<Route> {
    if routes == [] then [r]
    else if SameKey(routes[0], r) then [r] + routes[1..]
    else [routes[0]] + ReplaceRoute(routes[1..], r)
  }

  lemma {:induction false} ReplaceMembers(routes: seq<Route>, r: Route)
    ensures r in ReplaceRoute(routes, r)
    ensures forall x :: x in ReplaceRoute(routes, r) ==> x == r || x in routes
    ensures forall x :: x in routes && !SameKey(x, r) ==> x in ReplaceRoute(routes, r)
  {
    if routes != [] {
      ReplaceMembers(routes[1..], r);
      assert forall x :: x in routes <==> x == routes[0] || x in routes[1..];
    }
  }

  /** `ip route flush table t` */
  function FlushTable(routes: seq<Route>, table: nat): seq<Route> {
    if routes == [] then []
    else (if routes[0].table == table then [] else [routes[0]]) + FlushTable(routes[1..], table)
  }

  lemma {:induction false} FlushTableMembers(routes: seq<Route>, table: nat)
    ensures forall r :: r in FlushTable(routes, table) <==> r in routes && r.table != table
  {
    if routes != [] {
      FlushTableMembers(routes[1..], table);
      assert forall r :: r in routes <==> r == routes[0] || r in routes[1..];
    }
  }

  /** An interface disappears: the kernel drops the routes over it. */
  function LoseInterface(routes: seq<Route>, dev: string): seq<Route> {
    if routes == [] then []
    else (if routes[0].hop.Via? && routes[0].hop.dev == dev then [] else [routes[0]]) + LoseInterface(routes[1..], dev)
  }

  lemma {:induction false} LoseInterfaceMembers(routes: seq<Route>, dev: string)
    ensures forall r :: r in LoseInterface(routes, dev) <==> r in routes && !(r.hop.Via? && r.hop.dev == dev)
  {
    if routes != [] {
      LoseInterfaceMembers(routes[1..], dev);
      assert forall r :: r in routes <==> r == routes[0] || r in routes[1..];
    }
  }

  // ---------------------------------------------------------------- route lookup

  /** The longer prefix wins, then the lower metric. */
  predicate Better(a: Route, b: Route) {
    a.dst.bits > b.dst.bits || (a.dst.bits == b.dst.bits && a.metric < b.metric)
  }

  predicate Serves(r: Route, table: nat, dst: nat) {
    r.table == table && r.dst.Covers(dst)
  }

  /** The route a table gives for a destination address. */
  function Lookup(routes: seq<Route>, table: nat, dst: nat): (best: Option<Route>)
    ensures best.Some? ==> best.value in routes && Serves(best.value, table, dst)
    ensures best.Some? ==> forall r :: r in routes && Serves(r, table, dst) ==> !Better(r, best.value)
    ensures best.None? ==> forall r :: r in routes ==> !Serves(r, table, dst)
  {
    if routes == [] then None
    else
      var rest := Lookup(routes[1..], table, dst);
      assert forall r :: r in routes <==> r == routes[0] || r in routes[1..];
      if Serves(routes[0], table, dst) && (rest.None? || !Better(rest.value, routes[0])) then Some(routes[0]) else rest
  }

  /** Policy routing: the first rule that applies and whose table has a route decides. */
  function Resolve(rules: seq<IpRule>, routes: seq<Route>, p: Packet): Option<Route> {
    if rules == [] then None
    else if Applies(rules[0], p) && Lookup(routes, rules[0].table, p.dst).Some?
         then Lookup(routes, rules[0].table, p.dst)
    else Resolve(rules[1..], routes, p)
  }

  /** The rule that decides a packet. */
  function Decider(rules: seq<IpRule>, routes: seq<Route>, p: Packet): Option<IpRule> {
    if rules == [] then None
    else if Applies(rules[0], p) && Lookup(routes, rules[0].table, p.dst).Some? then Some(rules[0])
    else Decider(rules[1..], routes, p)
  }

  lemma {:induction false} DeciderExact(rules: seq<IpRule>, routes: seq<Route>, p: Packet)
    ensures var d := Decider(rules, routes, p);
            Resolve(rules, routes, p) == if d.None? then None else Lookup(routes, d.value.table, p.dst)
    ensures Decider(rules, routes, p).Some? ==> Decider(rules, routes, p).value in rules
  {
    if rules != [] {
      DeciderExact(rules[1..], routes, p);
    }
  }

  /** Some rule with a lower priority number already decides the packet. */
  predicate DecidedBelow(rules: seq<IpRule>, routes: seq<Route>, p: Packet, priority: nat) {
    exists i :: 0 <= i < |rules| && rules[i].priority < priority
                && Applies(rules[i], p) && Lookup(routes, rules[i].table, p.dst).Some?
  }

  lemma {:induction false} DeciderInOrder(rules: seq<IpRule>, routes: seq<Route>, p: Packet, i: nat)
    requires Sorted(rules) && i < |rules| && Applies(rules[i], p) && Lookup(routes, rules[i].table, p.dst).Some?
    ensures Decider(rules, routes, p).Some? && Decider(rules, routes, p).value.priority <= rules[i].priority
  {
    if !(Applies(rules[0], p) && Lookup(routes, rules[0].table, p.dst).Some?) {
      DeciderInOrder(rules[1..], routes, p, i - 1);
    }
  }

  lemma {:induction false} DeciderIsLowest(rules: seq<IpRule>, routes: seq<Route>, p: Packet)
    requires Decider(rules, routes, p).Some?
    ensures exists i :: 0 <= i < |rules| && rules[i] == Decider(rules, routes, p).value
                        && Applies(rules[i], p) && Lookup(routes, rules[i].table, p.dst).Some?
  {
    if Applies(rules[0], p) && Lookup(routes, rules[0].table, p.dst).Some? {
      assert rules[0] == Decider(rules, routes, p).value;
    } else {
      DeciderIsLowest(rules[1..], routes, p);
      var i :| 0 <= i < |rules[1..]| && rules[1..][i] == Decider(rules[1..], routes, p).value
               && Applies(rules[1..][i], p) && Lookup(routes, rules[1..][i].table, p.dst).Some?;
      assert rules[i + 1] == rules[1..][i];
    }
  }
}
