/** How packets are routed after a completed route-policy run: marks are set without ending evaluation, so the last
    matching plan rule decides, and its mark selects its table. */
module RoutePolicyRouting {
  import opened Common
  import opened Kernel
  import opened RoutePolicyPlan
  import opened RoutePolicyScript
  import opened RoutePolicyConvergence

  // ---------------------------------------------------------------- what a plan rule means

  function Number(p: Protocol): nat {
    match p
    case Icmp => 1
    case Tcp => 6
    case Udp => 17
    case _ => 0
  }

  predicate InRanges(ports: seq<PortRange>, port: nat) {
    exists i :: 0 <= i < |ports| && ports[i].low <= port <= ports[i].high
  }

  /** The packets a plan rule is about. */
  predicate RuleMatches(r: Rule, p: Packet) {
    && r.source.Covers(p.src) && r.destination.Covers(p.dst)
    && (r.protocol == Any || p.proto == Number(r.protocol))
    && (r.ports == [] || InRanges(r.ports, p.dport))
  }

  function LastMatch(rules: seq<Rule>, p: Packet): (m: Option<nat>)
    ensures m.Some? ==> m.value < |rules|
  {
    if rules == [] then None
    else if RuleMatches(rules[|rules| - 1], p) then Some(|rules| - 1)
    else LastMatch(rules[..|rules| - 1], p)
  }

  lemma {:induction false} LastMatchExact(rules: seq<Rule>, p: Packet)
    ensures LastMatch(rules, p).None? ==> forall i :: 0 <= i < |rules| ==> !RuleMatches(rules[i], p)
    ensures var m := LastMatch(rules, p);
            m.Some? ==> m.value < |rules| && RuleMatches(rules[m.value], p)
                        && forall i :: m.value < i < |rules| ==> !RuleMatches(rules[i], p)
  {
    if rules != [] {
      LastMatchExact(rules[..|rules| - 1], p);
    }
  }

  // ---------------------------------------------------------------- what the marking chain does

  predicate Holds(m: Match, p: Packet) {
    match m
    case Saddr(prefix) => prefix.Covers(p.src)
    case Daddr(prefix) => prefix.Covers(p.dst)
    case IpProtocol(proto) => p.proto == Number(proto)
    case Dport(proto, ranges) => p.proto == Number(proto) && InRanges(ranges, p.dport)
  }

  predicate MarkMatches(m: MarkRule, p: Packet) {
    forall i :: 0 <= i < |m.matches| ==> Holds(m.matches[i], p)
  }

  /** `meta mark set` does not end the chain. */
  function Traverse(marks: seq<MarkRule>, p: Packet): Packet {
    if marks == [] then p
    else
      var before := Traverse(marks[..|marks| - 1], p);
      if MarkMatches(marks[|marks| - 1], before) then before.(mark := marks[|marks| - 1].mark) else before
  }

  lemma MarkCommandExact(r: Rule, p: Packet)
    requires Usable(r)
    ensures MarkMatches(MarkCommand(r), p) <==> RuleMatches(r, p)
  {
    var ms := MarkCommand(r).matches;
    assert ms[0] == Saddr(r.source) && ms[1] == Daddr(r.destination);
    if |ms| == 3 {
      assert MarkMatches(MarkCommand(r), p) <==> Holds(ms[0], p) && Holds(ms[1], p) && Holds(ms[2], p);
    } else {
      assert MarkMatches(MarkCommand(r), p) <==> Holds(ms[0], p) && Holds(ms[1], p);
    }
  }

  function CommandsOf(rules: seq<Rule>): seq<MarkRule> {
    seq(|rules|, i requires 0 <= i < |rules| => MarkCommand(rules[i]))
  }

  lemma {:induction false} TraverseIsLastMatch(rules: seq<Rule>, p: Packet)
    requires AllUsable(rules)
    ensures Traverse(CommandsOf(rules), p)
            == var m := LastMatch(rules, p); if m.Some? then p.(mark := rules[m.value].mark) else p
  {
    LastMatchExact(rules, p);
    if rules != [] {
      var front, r := rules[..|rules| - 1], rules[|rules| - 1];
      assert CommandsOf(rules)[..|rules| - 1] == CommandsOf(front);
      TraverseIsLastMatch(front, p);
      LastMatchExact(front, p);
      MarkCommandExact(r, Traverse(CommandsOf(front), p));
    }
  }

  lemma {:induction false} MarksOfPlaced(rules: seq<Rule>, at: Chain, chain: Chain)
    ensures Marks(Place(rules, at), chain) == if at == chain then CommandsOf(rules) else []
  {
    if rules != [] {
      var placed := Place(rules, at);
      assert placed[1..] == Place(rules[1..], at);
      MarksOfPlaced(rules[1..], at, chain);
      if at == chain {
        assert CommandsOf(rules) == [MarkCommand(rules[0])] + CommandsOf(rules[1..]);
      }
    }
  }

  lemma {:induction false} MarksAppend(x: seq<Placed>, y: seq<Placed>, chain: Chain)
    ensures Marks(x + y, chain) == Marks(x, chain) + Marks(y, chain)
    decreases |x|
  {
    if x == [] {
      assert x + y == y;
    } else {
      assert (x + y)[0] == x[0] && (x + y)[1..] == x[1..] + y;
      MarksAppend(x[1..], y, chain);
    }
  }

  /** The plan rules of a chain. */
  function RulesOf(p: Plan, chain: Chain): seq<Rule> {
    if chain == Prerouting then p.client else p.system
  }

  lemma ChainHoldsItsRules(p: Plan, chain: Chain)
    ensures Marks(Steps(p), chain) == CommandsOf(RulesOf(p, chain))
  {
    MarksAppend(Place(p.system, Output), Place(p.client, Prerouting), chain);
    MarksOfPlaced(p.system, Output, chain);
    MarksOfPlaced(p.client, Prerouting, chain);
  }

  // ---------------------------------------------------------------- which tables are consulted

  /** The tables of the rules that apply to a packet, in the order in which the kernel consults them. */
  function Consulted(rules: seq<IpRule>, p: Packet): seq<nat> {
    if rules == [] then [] else (if Applies(rules[0], p) then [rules[0].table] else []) + Consulted(rules[1..], p)
  }

  lemma {:induction false} ConsultedOnly(rules: seq<IpRule>, p: Packet, only: Option<nat>)
    requires forall i :: 0 <= i < |rules| ==> (Applies(rules[i], p) <==> only == Some(i))
    requires only.Some? ==> only.value < |rules|
    ensures Consulted(rules, p) == if only.Some? then [rules[only.value].table] else []
  {
    if rules != [] {
      if only == Some(0) {
        ConsultedOnly(rules[1..], p, None);
      } else {
        ConsultedOnly(rules[1..], p, if only.Some? then Some(only.value - 1) else None);
      }
    }
  }

  /** A packet to which no managed rule applies is resolved as if there were none. */
  lemma {:induction false} ResolvedByForeign(rules: seq<IpRule>, routes: seq<Route>, p: Packet)
    requires Consulted(Inside(rules), p) == []
    ensures Resolve(rules, routes, p) == Resolve(Foreign(rules), routes, p)
  {
    if rules != [] {
      if Managed(rules[0]) {
        assert Inside(rules)[1..] == Inside(rules[1..]);
        assert Foreign(rules) == Foreign(rules[1..]);
      } else {
        assert Inside(rules) == Inside(rules[1..]);
        assert Foreign(rules)[1..] == Foreign(rules[1..]);
      }
      ResolvedByForeign(rules[1..], routes, p);
    }
  }

  /** The index of a chain's rule among all steps. */
  function StepIndex(p: Plan, chain: Chain, i: nat): nat {
    if chain == Output then i else |p.system| + i
  }

  /** Plan marks are distinct and none is zero, so a mark selects the one policy rule it was made for. */
  lemma MarksSelectOneRule(p: Plan, pkt: Packet, chosen: Option<nat>)
    requires WellFormed(p)
             && (chosen.Some? ==> chosen.value < |Steps(p)| && pkt.mark == Steps(p)[chosen.value].rule.mark)
    requires chosen.None? ==> pkt.mark == 0
    ensures Consulted(PolicyRules(Steps(p)), pkt)
            == if chosen.Some? then [Steps(p)[chosen.value].rule.table] else []
  {
    var steps, m := Steps(p), |p.system|;
    assert forall i :: 0 <= i < |steps| ==> steps[i].rule == if i < m then p.system[i] else p.client[i - m];
    assert forall i :: 0 <= i < |steps| ==> steps[i].rule.mark == if i < m then SYSTEM_MARK + i + 1
        else MARK + (i - m) + 1;
    ConsultedOnly(PolicyRules(steps), pkt, chosen);
  }

  /** A completed run: the chain marks for its plan rules in order, and each plan rule has its ip rule. */
  lemma CompletedState(p: Plan, env: Env, h: Host, chain: Chain)
    requires WellFormed(p) && Sorted(h.rules) && Meaning(p, env, h).1 && Steps(p) != []
    ensures var k := Meaning(p, env, h).0;
            && k.chains.Get(chain) == Some(CommandsOf(RulesOf(p, chain))) && AllUsable(RulesOf(p, chain))
            && Inside(k.rules) == PolicyRules(Steps(p)) && Foreign(k.rules) == Foreign(h.rules) && Sorted(k.rules)
  {
    Converges(p, env, h);
    ChainHoldsItsRules(p, chain);
  }

  /** The marks of a chain put the last matching rule's mark on an unmarked packet, and that mark consults that rule's
      table only. */
  lemma MarkedAndConsulted(p: Plan, chain: Chain, pkt: Packet)
    requires WellFormed(p) && pkt.mark == 0
    ensures var rules, m := RulesOf(p, chain), LastMatch(RulesOf(p, chain), pkt);
            var out := Traverse(CommandsOf(rules), pkt);
            if m.Some? then
              && out == pkt.(mark := rules[m.value].mark)
              && Consulted(PolicyRules(Steps(p)), out) == [rules[m.value].table]
            else out == pkt && Consulted(PolicyRules(Steps(p)), pkt) == []
  {
    var rules := RulesOf(p, chain);
    TraverseIsLastMatch(rules, pkt);
    var m := LastMatch(rules, pkt);
    if m.Some? {
      var i := StepIndex(p, chain, m.value);
      assert Steps(p)[i].rule == rules[m.value];
      MarksSelectOneRule(p, pkt.(mark := rules[m.value].mark), Some(i));
    } else {
      MarksSelectOneRule(p, pkt, None);
    }
  }

  /** End to end: after a completed run, an unmarked packet that enters a managed chain is looked up, as far as managed
      rules go, in the table of the last plan rule it matches and in no other; a packet that matches none keeps its mark
      and is resolved as if the managed rules did not exist. */
  lemma RoutedByLastMatch(p: Plan, env: Env, h: Host, chain: Chain, pkt: Packet)
    requires WellFormed(p) && Sorted(h.rules) && Meaning(p, env, h).1 && Steps(p) != [] && pkt.mark == 0
    ensures var k := Meaning(p, env, h).0;
            && k.chains.Get(chain).Some?
            && var out := Traverse(k.chains.Get(chain).value, pkt);
               var m := LastMatch(RulesOf(p, chain), pkt);
               if m.Some? then
                 && m.value < |RulesOf(p, chain)|
                 && out == pkt.(mark := RulesOf(p, chain)[m.value].mark)
                 && Consulted(Inside(k.rules), out) == [RulesOf(p, chain)[m.value].table]
               else
                 && out == pkt && Consulted(Inside(k.rules), pkt) == []
                 && forall routes: seq<Route> :: Resolve(k.rules, routes, pkt) == Resolve(Foreign(h.rules), routes, pkt)
  {
    CompletedState(p, env, h, chain);
    MarkedAndConsulted(p, chain, pkt);
    if LastMatch(RulesOf(p, chain), pkt).None? {
      UnmarkedUnaffected(p, env, h, pkt);
    }
  }

  /** An unmarked packet consults no managed rule and is resolved by the foreign ones. */
  lemma UnmarkedUnaffected(p: Plan, env: Env, h: Host, pkt: Packet)
    requires WellFormed(p) && Sorted(h.rules) && Meaning(p, env, h).1 && Steps(p) != [] && pkt.mark == 0
    ensures var k := Meaning(p, env, h).0;
            && Consulted(Inside(k.rules), pkt) == []
            && forall routes: seq<Route> :: Resolve(k.rules, routes, pkt) == Resolve(Foreign(h.rules), routes, pkt)
  {
    var k := Meaning(p, env, h).0;
    CompletedState(p, env, h, Output);
    MarksSelectOneRule(p, pkt, None);
    forall routes: seq<Route>
      ensures Resolve(k.rules, routes, pkt) == Resolve(Foreign(h.rules), routes, pkt)
    {
      ResolvedByForeign(k.rules, routes, pkt);
    }
  }

  lemma {:induction false} InsideMembers(rules: seq<IpRule>)
    ensures forall r :: r in Inside(rules) <==> r in rules && Managed(r)
  {
    if rules != [] {
      InsideMembers(rules[1..]);
      assert forall r :: r in rules <==> r == rules[0] || r in rules[1..];
    }
  }

  /** Where the packet goes: its last matching rule's table decides it if and only if that table has a route for it
      and no foreign rule with a lower priority number decides it first; with readiness by interface the table has
      one. */
  lemma DecidedByItsTable(p: Plan, env: Env, h: Host, chain: Chain, pkt: Packet)
    requires WellFormed(p) && Sorted(h.rules) && Meaning(p, env, h).1 && Steps(p) != [] && pkt.mark == 0
    requires LastMatch(RulesOf(p, chain), pkt).Some?
    ensures var k := Meaning(p, env, h).0;
            var r := RulesOf(p, chain)[LastMatch(RulesOf(p, chain), pkt).value];
            var out := pkt.(mark := r.mark);
            var route := Lookup(k.routes, r.table, pkt.dst);
            && (Decider(k.rules, k.routes, out) == Some(PolicyRule(r)) <==>
                  route.Some? && !DecidedBelow(Foreign(h.rules), k.routes, out, r.priority))
            && (route.Some? && !DecidedBelow(Foreign(h.rules), k.routes, out, r.priority) ==>
                  Resolve(k.rules, k.routes, out) == route)
            && (DeviceOnly(Tried(Steps(p), env), env) ==> route.Some?)
  {
    var k, rules := Meaning(p, env, h).0, RulesOf(p, chain);
    LastMatchExact(rules, pkt);
    var r := rules[LastMatch(rules, pkt).value];
    var i := StepIndex(p, chain, LastMatch(rules, pkt).value);
    assert Steps(p)[i].rule == r;
    var out := pkt.(mark := r.mark);
    ManagedRulesFor(p, env, h, i, out);
    DecidedByMark(k.rules, k.routes, Foreign(h.rules), PolicyRule(r), out);
    DeciderExact(k.rules, k.routes, out);
    if DeviceOnly(Tried(Steps(p), env), env) {
      HasRouteFor(p, env, h, i, pkt);
    }
  }

  /** Of the rules after a completed run, those that apply to a marked packet are the rule of its mark and foreign
      ones. */
  lemma ManagedRulesFor(p: Plan, env: Env, h: Host, i: nat, out: Packet)
    requires WellFormed(p) && Sorted(h.rules) && Meaning(p, env, h).1 && i < |Steps(p)|
    requires out.mark == Steps(p)[i].rule.mark
    ensures var k, mine := Meaning(p, env, h).0, PolicyRule(Steps(p)[i].rule);
            && Sorted(k.rules) && mine in k.rules && Managed(mine)
            && (forall r :: r in k.rules && Applies(r, out) ==> r == mine || r in Foreign(h.rules))
            && (forall r :: r in Foreign(h.rules) ==> r in k.rules && !Managed(r))
            && ManagedBand(mine, Foreign(h.rules))
  {
    CompletedState(p, env, h, Output);
    ManagedRulesIn(p, Meaning(p, env, h).0.rules, i, out);
  }

  lemma ManagedRulesIn(p: Plan, rules: seq<IpRule>, i: nat, out: Packet)
    requires WellFormed(p) && i < |Steps(p)| && out.mark == Steps(p)[i].rule.mark
    requires Inside(rules) == PolicyRules(Steps(p))
    ensures var mine := PolicyRule(Steps(p)[i].rule);
            && mine in rules && Managed(mine)
            && (forall r :: r in rules && Applies(r, out) ==> r == mine || r in Foreign(rules))
            && (forall r :: r in Foreign(rules) ==> r in rules && !Managed(r))
            && ManagedBand(mine, Foreign(rules))
  {
    var steps := Steps(p);
    InsideMembers(rules);
    ForeignMembers(rules);
    StepIsManaged(p, i);
    assert PolicyRules(steps)[i] == PolicyRule(steps[i].rule);
    assert PolicyRule(steps[i].rule) in Inside(rules);
    forall r | r in rules && Applies(r, out) && Managed(r)
      ensures r == PolicyRule(steps[i].rule)
    {
      assert r in PolicyRules(steps);
      var x :| 0 <= x < |PolicyRules(steps)| && r == PolicyRules(steps)[x];
      MarksDiffer(p, i, x);
    }
  }

  lemma StepIsManaged(p: Plan, i: nat)
    requires WellFormed(p) && i < |Steps(p)|
    ensures Managed(PolicyRule(Steps(p)[i].rule))
  {
    assert Steps(p)[i].rule == if i < |p.system| then p.system[i] else p.client[i - |p.system|];
  }

  lemma MarksDiffer(p: Plan, i: nat, x: nat)
    requires WellFormed(p) && i < |Steps(p)| && x < |Steps(p)|
    ensures Steps(p)[i].rule.mark == Steps(p)[x].rule.mark <==> i == x
  {
    var m := |p.system|;
    assert Steps(p)[i].rule.mark == if i < m then SYSTEM_MARK + i + 1 else MARK + (i - m) + 1;
    assert Steps(p)[x].rule.mark == if x < m then SYSTEM_MARK + x + 1 else MARK + (x - m) + 1;
  }

  /** No foreign rule has the rule's priority. */
  predicate ManagedBand(mine: IpRule, foreign: seq<IpRule>) {
    forall r :: r in foreign ==> r.priority != mine.priority
  }

  /** A rule decides a packet if and only if its table has a route and no other applicable rule comes before it and has
      one. */
  lemma DecidedByMark(rules: seq<IpRule>, routes: seq<Route>, foreign: seq<IpRule>, mine: IpRule, out: Packet)
    requires Sorted(rules) && mine in rules && Applies(mine, out) && ManagedBand(mine, foreign)
    requires forall r :: r in rules && Applies(r, out) ==> r == mine || r in foreign
    requires forall r :: r in foreign ==> r in rules
    ensures Decider(rules, routes, out) == Some(mine) <==>
              Lookup(routes, mine.table, out.dst).Some? && !DecidedBelow(foreign, routes, out, mine.priority)
  {
    var d := Decider(rules, routes, out);
    if d.Some? {
      DeciderIsLowest(rules, routes, out);
    }
    var i :| 0 <= i < |rules| && rules[i] == mine;
    if Lookup(routes, mine.table, out.dst).Some? {
      DeciderInOrder(rules, routes, out, i);
      if DecidedBelow(foreign, routes, out, mine.priority) {
        var x :| 0 <= x < |foreign| && foreign[x].priority < mine.priority
                 && Applies(foreign[x], out) && Lookup(routes, foreign[x].table, out.dst).Some?;
        assert foreign[x] in rules;
        var y :| 0 <= y < |rules| && rules[y] == foreign[x];
        DeciderInOrder(rules, routes, out, y);
      }
    }
  }

  /** With readiness by interface a completed run leaves a route for every packet that a plan rule matches. */
  lemma HasRouteFor(p: Plan, env: Env, h: Host, i: nat, pkt: Packet)
    requires WellFormed(p) && Meaning(p, env, h).1 && i < |Steps(p)| && DeviceOnly(Tried(Steps(p), env), env)
    requires RuleMatches(Steps(p)[i].rule, pkt)
    ensures Lookup(Meaning(p, env, h).0.routes, Steps(p)[i].rule.table, pkt.dst).Some?
  {
    RoutesAreReady(p, env);
    RoutesAfter(p, env, h);
    var r :| r in Fresh(p, env) && r.At() == Steps(p)[i].rule.Where();
    assert r in Meaning(p, env, h).0.routes;
    assert Serves(r, Steps(p)[i].rule.table, pkt.dst);
  }
}
