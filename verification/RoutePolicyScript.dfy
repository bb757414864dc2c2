/** The generated route-policy scripts as command sequences, and a shell that runs them on the kernel state.
    What a run does is stated by `Meaning` and proved by `RunMeaning`. */
module RoutePolicyScript {
  import opened Common
  import opened Kernel
  import opened RoutePolicyPlan

  // ---------------------------------------------------------------- marking rules

  datatype Chain = Prerouting | Output

  datatype Match =
    | Saddr(prefix: Prefix)
    | Daddr(prefix: Prefix)
    | IpProtocol(proto: Protocol)
    | Dport(proto: Protocol, ranges: seq<PortRange>)

  datatype MarkRule = MarkRule(matches: seq<Match>, mark: nat)

  /** `nftRoutePolicyMarkCommand` */
  function MarkCommand(r: Rule): MarkRule {
    var l4 :=
      match r.protocol
      case Tcp => if r.ports == [] then [IpProtocol(Tcp)] else [Dport(Tcp, r.ports)]
      case Udp => if r.ports == [] then [IpProtocol(Udp)] else [Dport(Udp, r.ports)]
      case Icmp => [IpProtocol(Icmp)]
      case _ => [];
    MarkRule([Saddr(r.source), Daddr(r.destination)] + l4, r.mark)
  }

  // ---------------------------------------------------------------- state and commands

  /** The two marking chains; a chain that does not exist is `None`. */
  datatype Chains = Chains(prerouting: Option<seq<MarkRule>>, output: Option<seq<MarkRule>>) {
    function Get(c: Chain): Option<seq<MarkRule>> {
      if c == Prerouting then prerouting else output
    }

    function Set(c: Chain, marks: seq<MarkRule>): Chains {
      if c == Prerouting then Chains(Some(marks), output) else Chains(prerouting, Some(marks))
    }

    function Emptied(c: Chain): Chains {
      if Get(c).Some? then Set(c, []) else this
    }
  }

  datatype Host = Host(rules: seq<IpRule>, routes: seq<Route>, chains: Chains, forwarding: bool)

  /** The tools on the node, whether forwarding can be switched on, and the candidates (interface, peer) that are ready
      during a run. */
  datatype Env = Env(hasIp: bool, hasNft: bool, canForward: bool, ready: set<(string, Option<nat>)>) {
    predicate Ready(c: Candidate) {
      (c.dev, c.peer) in ready
    }
  }

  datatype Command =
    | RequireIp
    | EnableForwarding
    | DeletePriorities(low: nat, high: nat)
    | RequireNft
    | EnsureChain(chain: Chain)
    | FlushChain(chain: Chain)
    | FlushChainIfPresent(chain: Chain)
    | Flush(target: Target)
    | ClearReady
    | Try(dst: Prefix, candidate: Candidate)
    | Enforce(rule: Rule, chain: Chain)

  /** The shell: the kernel, the variable `route_policy_rule_ready`, and whether the script has exited with an error. */
  datatype Shell = Shell(host: Host, ready: bool, exited: bool)

  function RouteOf(dst: Prefix, c: Candidate): Route {
    Route(dst, c.table, c.metric, Via(c.dev, c.via))
  }

  /** `ip route delete dst [via v] dev d table t metric m` matches a route. */
  predicate Deletes(dst: Prefix, c: Candidate, r: Route) {
    && r.dst == dst && r.table == c.table && r.metric == c.metric
    && r.hop.Via? && r.hop.dev == c.dev && (c.via == "" || r.hop.gateway == c.via)
  }

  function DeleteCandidate(routes: seq<Route>, dst: Prefix, c: Candidate): seq<Route> {
    if routes == [] then []
    else if Deletes(dst, c, routes[0]) then routes[1..]
    else [routes[0]] + DeleteCandidate(routes[1..], dst, c)
  }

  /** `route_policy_replace_route` */
  function TryRoute(routes: seq<Route>, dst: Prefix, c: Candidate, env: Env): seq<Route> {
    if env.Ready(c) then ReplaceRoute(routes, RouteOf(dst, c)) else DeleteCandidate(routes, dst, c)
  }

  function PolicyRule(r: Rule): IpRule {
    IpRule(r.priority, FwMark(r.mark), r.table)
  }

  /** One command; under `set -e` a failing one ends the script. */
  function Exec(cmd: Command, env: Env, sh: Shell): Shell {
    var h := sh.host;
    if sh.exited then sh
    else
      match cmd
      case RequireIp => sh.(exited := !env.hasIp)
      case EnableForwarding =>
        if env.canForward then sh.(host := h.(forwarding := true)) else sh.(exited := true)
      case DeletePriorities(low, high) => sh.(host := h.(rules := DeleteRange(h.rules, low, high)))
      case RequireNft => sh.(exited := !env.hasNft)
      case EnsureChain(c) => if h.chains.Get(c).Some? then sh else sh.(host := h.(chains := h.chains.Set(c, [])))
      case FlushChain(c) =>
        if h.chains.Get(c).Some? then sh.(host := h.(chains := h.chains.Set(c, []))) else sh.(exited := true)
      case FlushChainIfPresent(c) => if env.hasNft then sh.(host := h.(chains := h.chains.Emptied(c))) else sh
      case Flush(t) => sh.(host := h.(routes := FlushDestination(h.routes, t)))
      case ClearReady => sh.(ready := false)
      case Try(dst, c) =>
        sh.(host := h.(routes := TryRoute(h.routes, dst, c, env)), ready := sh.ready || env.Ready(c))
      case Enforce(r, c) =>
        if !sh.ready || h.chains.Get(c).None? then sh.(exited := true)
        else
          var marked := h.(chains := h.chains.Set(c, h.chains.Get(c).value + [MarkCommand(r)]));
          if PolicyRule(r) in h.rules then sh.(host := marked, exited := true)
          else sh.(host := marked.(rules := InsertRule(h.rules, PolicyRule(r))))
  }

  function Run(cmds: seq<Command>, env: Env, sh: Shell): Shell
    decreases |cmds|
  {
    if cmds == [] then sh else Run(cmds[1..], env, Exec(cmds[0], env, sh))
  }

  lemma {:induction false} RunAppend(a: seq<Command>, b: seq<Command>, env: Env, sh: Shell)
    ensures Run(a + b, env, sh) == Run(b, env, Run(a, env, sh))
    decreases |a|
  {
    if a == [] {
      assert a + b == b;
    } else {
      assert (a + b)[0] == a[0] && (a + b)[1..] == a[1..] + b;
      RunAppend(a[1..], b, env, Exec(a[0], env, sh));
    }
  }

  lemma {:induction false} RunExited(cmds: seq<Command>, env: Env, sh: Shell)
    requires sh.exited
    ensures Run(cmds, env, sh) == sh
    decreases |cmds|
  {
    if cmds != [] {
      RunExited(cmds[1..], env, sh);
    }
  }

  // ---------------------------------------------------------------- the scripts

  /** A plan rule with the chain that carries its mark. */
  datatype Placed = Placed(rule: Rule, chain: Chain)

  function Place(rules: seq<Rule>, chain: Chain): (s: seq<Placed>)
    ensures |s| == |rules| && forall i :: 0 <= i < |s| ==> s[i] == Placed(rules[i], chain)
  {
    seq(|rules|, i requires 0 <= i < |rules| => Placed(rules[i], chain))
  }

  /** System rules first, then client rules. */
  function Steps(p: Plan): seq<Placed> {
    Place(p.system, Output) + Place(p.client, Prerouting)
  }

  function TryCommands(dst: Prefix, cs: seq<Candidate>): seq<Command> {
    if cs == [] then [] else [Try(dst, cs[0])] + TryCommands(dst, cs[1..])
  }

  /** `routePolicyRuleCommands` */
  function RuleCommands(s: Placed): seq<Command> {
    [ClearReady] + TryCommands(s.rule.destination, s.rule.candidates) + [Enforce(s.rule, s.chain)]
  }

  function StepCommands(steps: seq<Placed>): seq<Command> {
    if steps == [] then [] else RuleCommands(steps[0]) + StepCommands(steps[1..])
  }

  function FlushCommands(targets: seq<Target>): seq<Command> {
    if targets == [] then [] else [Flush(targets[0])] + FlushCommands(targets[1..])
  }

  function ChainCommands(needed: bool): seq<Command> {
    if needed
    then [RequireNft, EnsureChain(Prerouting), EnsureChain(Output), FlushChain(Prerouting), FlushChain(Output)]
    else [FlushChainIfPresent(Prerouting), FlushChainIfPresent(Output)]
  }

  function Preamble(p: Plan): seq<Command> {
    [RequireIp] + (if p.client == [] then [] else [EnableForwarding])
    + [DeletePriorities(SYSTEM_PRIORITY, SYSTEM_PRIORITY_TO), DeletePriorities(PRIORITY, PRIORITY_TO)]
    + ChainCommands(Steps(p) != [])
  }

  /** The script of `renderRoutePolicyKernelScript`. */
  function Script(p: Plan): seq<Command> {
    Preamble(p) + FlushCommands(p.targets) + StepCommands(Steps(p))
  }

  // ---------------------------------------------------------------- meaning of the scripts

  predicate Managed(r: IpRule) {
    SYSTEM_PRIORITY <= r.priority <= SYSTEM_PRIORITY_TO || PRIORITY <= r.priority <= PRIORITY_TO
  }

  /** The rules outside the two reserved ranges. */
  function Foreign(rules: seq<IpRule>): seq<IpRule> {
    if rules == [] then [] else (if Managed(rules[0]) then [] else [rules[0]]) + Foreign(rules[1..])
  }

  lemma {:induction false} ForeignIsOutsideBoth(rules: seq<IpRule>)
    ensures Outside(Outside(rules, SYSTEM_PRIORITY, SYSTEM_PRIORITY_TO), PRIORITY, PRIORITY_TO) == Foreign(rules)
  {
    if rules != [] {
      ForeignIsOutsideBoth(rules[1..]);
      var inner := Outside(rules[1..], SYSTEM_PRIORITY, SYSTEM_PRIORITY_TO);
      if SYSTEM_PRIORITY <= rules[0].priority <= SYSTEM_PRIORITY_TO {
        assert Outside(rules, SYSTEM_PRIORITY, SYSTEM_PRIORITY_TO) == inner;
      } else {
        assert Outside(rules, SYSTEM_PRIORITY, SYSTEM_PRIORITY_TO) == [rules[0]] + inner;
        assert ([rules[0]] + inner)[1..] == inner;
      }
    }
  }

  predicate AnyReady(cs: seq<Candidate>, env: Env) {
    exists i :: 0 <= i < |cs| && env.Ready(cs[i])
  }

  function TryAll(routes: seq<Route>, dst: Prefix, cs: seq<Candidate>, env: Env): seq<Route>
    decreases |cs|
  {
    if cs == [] then routes else TryAll(TryRoute(routes, dst, cs[0], env), dst, cs[1..], env)
  }

  /** The steps before the first rule without a ready candidate. */
  function ReadySteps(steps: seq<Placed>, env: Env): (n: nat)
    ensures n <= |steps|
  {
    if steps == [] || !AnyReady(steps[0].rule.candidates, env) then 0 else 1 + ReadySteps(steps[1..], env)
  }

  /** The routes after trying the candidates of every ready step and of the one that is not. */
  function Installed(routes: seq<Route>, steps: seq<Placed>, env: Env): seq<Route>
    decreases |steps|
  {
    if steps == [] then routes
    else
      var next := TryAll(routes, steps[0].rule.destination, steps[0].rule.candidates, env);
      if AnyReady(steps[0].rule.candidates, env) then Installed(next, steps[1..], env) else next
  }

  function AddRules(rules: seq<IpRule>, steps: seq<Placed>): seq<IpRule>
    decreases |steps|
  {
    if steps == [] then rules else AddRules(InsertRule(rules, PolicyRule(steps[0].rule)), steps[1..])
  }

  /** The marks the steps put on a chain, in order. */
  function Marks(steps: seq<Placed>, chain: Chain): seq<MarkRule> {
    if steps == [] then []
    else (if steps[0].chain == chain then [MarkCommand(steps[0].rule)] else []) + Marks(steps[1..], chain)
  }

  // ---------------------------------------------------------------- one rule block

  lemma {:induction false} RunTries(dst: Prefix, cs: seq<Candidate>, env: Env, sh: Shell)
    requires !sh.exited
    ensures Run(TryCommands(dst, cs), env, sh)
            == sh.(host := sh.host.(routes := TryAll(sh.host.routes, dst, cs, env)), ready :=
               sh.ready || AnyReady(cs, env))
    decreases |cs|
  {
    if cs != [] {
      var next := Exec(Try(dst, cs[0]), env, sh);
      assert TryCommands(dst, cs)[1..] == TryCommands(dst, cs[1..]);
      RunTries(dst, cs[1..], env, next);
      assert AnyReady(cs, env) <==> env.Ready(cs[0]) || AnyReady(cs[1..], env) by {
        if AnyReady(cs[1..], env) {
          var i :| 0 <= i < |cs[1..]| && env.Ready(cs[1..][i]);
          assert env.Ready(cs[i + 1]);
        }
        if AnyReady(cs, env) && !env.Ready(cs[0]) {
          var i :| 0 <= i < |cs| && env.Ready(cs[i]);
          assert env.Ready(cs[1..][i - 1]);
        }
      }
    }
  }

  predicate HasChains(h: Host) {
    h.chains.prerouting.Some? && h.chains.output.Some?
  }

  /** The kernel after one rule block. */
  function AfterRule(h: Host, s: Placed, env: Env): Host
    requires HasChains(h)
  {
    var tried := h.(routes := TryAll(h.routes, s.rule.destination, s.rule.candidates, env));
    if AnyReady(s.rule.candidates, env)
    then tried.(chains := h.chains.Set(s.chain, h.chains.Get(s.chain).value + [MarkCommand(s.rule)]),
                rules := InsertRule(h.rules, PolicyRule(s.rule)))
    else tried
  }

  lemma RunRule(s: Placed, env: Env, sh: Shell)
    requires !sh.exited && HasChains(sh.host) && PolicyRule(s.rule) !in sh.host.rules
    ensures var end := Run(RuleCommands(s), env, sh);
            end.host == AfterRule(sh.host, s, env) && (end.exited <==> !AnyReady(s.rule.candidates, env))
  {
    var tries, last := TryCommands(s.rule.destination, s.rule.candidates), [Enforce(s.rule, s.chain)];
    var cleared := sh.(ready := false);
    RunAppend([ClearReady] + tries, last, env, sh);
    RunAppend([ClearReady], tries, env, sh);
    assert [ClearReady][1..] == [] && last[1..] == [];
    assert Run([ClearReady], env, sh) == cleared;
    RunTries(s.rule.destination, s.rule.candidates, env, cleared);
    var tried := Run(tries, env, cleared);
    assert Run(last, env, tried) == Exec(last[0], env, tried);
  }

  // ---------------------------------------------------------------- all rule blocks

  /** The steps' priorities ascend and none is taken. */
  predicate Room(rules: seq<IpRule>, steps: seq<Placed>) {
    && (forall i, j :: 0 <= i < j < |steps| ==> steps[i].rule.priority < steps[j].rule.priority)
    && (forall i, r :: 0 <= i < |steps| && r in rules ==> r.priority != steps[i].rule.priority)
  }

  lemma RoomStep(rules: seq<IpRule>, steps: seq<Placed>)
    requires steps != [] && Room(rules, steps)
    ensures PolicyRule(steps[0].rule) !in rules
    ensures Room(InsertRule(rules, PolicyRule(steps[0].rule)), steps[1..])
  {
    InsertMembers(rules, PolicyRule(steps[0].rule));
  }

  function AfterSteps(h: Host, steps: seq<Placed>, env: Env): Host
    requires HasChains(h)
  {
    var done := steps[..ReadySteps(steps, env)];
    h.(routes := Installed(h.routes, steps, env),
       rules := AddRules(h.rules, done),
       chains := Chains(Some(h.chains.prerouting.value + Marks(done, Prerouting)),
         Some(h.chains.output.value + Marks(done, Output))))
  }

  lemma MarksCons(base: seq<MarkRule>, steps: seq<Placed>, chain: Chain)
    requires steps != []
    ensures base + Marks(steps, chain)
            == (if steps[0].chain == chain then base + [MarkCommand(steps[0].rule)] else base)
               + Marks(steps[1..], chain)
  {
    var own := if steps[0].chain == chain then [MarkCommand(steps[0].rule)] else [];
    ThenMarks(base, own, Marks(steps[1..], chain));
  }

  lemma ThenMarks(a: seq<MarkRule>, b: seq<MarkRule>, c: seq<MarkRule>)
    ensures a + (b + c) == a + b + c && a + [] == a
  {
  }

  lemma AfterStepsCons(h: Host, steps: seq<Placed>, env: Env)
    requires HasChains(h) && steps != [] && AnyReady(steps[0].rule.candidates, env)
    ensures HasChains(AfterRule(h, steps[0], env))
    ensures AfterSteps(h, steps, env) == AfterSteps(AfterRule(h, steps[0], env), steps[1..], env)
  {
    var n := ReadySteps(steps, env);
    var done := steps[..n];
    assert done[1..] == steps[1..][..n - 1] && done[0] == steps[0];
    MarksCons(h.chains.prerouting.value, done, Prerouting);
    MarksCons(h.chains.output.value, done, Output);
  }

  lemma AfterStepsEnd(h: Host, steps: seq<Placed>, env: Env)
    requires HasChains(h) && (steps != [] ==> !AnyReady(steps[0].rule.candidates, env))
    ensures AfterSteps(h, steps, env) == if steps == [] then h else AfterRule(h, steps[0], env)
  {
    assert steps[..0] == [];
    assert h.chains.prerouting.value + [] == h.chains.prerouting.value
        && h.chains.output.value + [] == h.chains.output.value;
  }

  lemma {:induction false} RunSteps(steps: seq<Placed>, env: Env, sh: Shell)
    requires !sh.exited && HasChains(sh.host) && Room(sh.host.rules, steps)
    ensures var end := Run(StepCommands(steps), env, sh);
            end.host == AfterSteps(sh.host, steps, env) && (end.exited <==> ReadySteps(steps, env) < |steps|)
    decreases |steps|
  {
    if steps == [] {
      AfterStepsEnd(sh.host, steps, env);
    } else {
      RoomStep(sh.host.rules, steps);
      RunRule(steps[0], env, sh);
      var next := Run(RuleCommands(steps[0]), env, sh);
      RunAppend(RuleCommands(steps[0]), StepCommands(steps[1..]), env, sh);
      if AnyReady(steps[0].rule.candidates, env) {
        AfterStepsCons(sh.host, steps, env);
        RunSteps(steps[1..], env, next);
      } else {
        RunExited(StepCommands(steps[1..]), env, next);
        AfterStepsEnd(sh.host, steps, env);
      }
    }
  }

  // ---------------------------------------------------------------- flush stage and preamble

  function TargetSet(targets: seq<Target>): set<Target> {
    set t | t in targets
  }

  lemma {:induction false} RunFlushes(targets: seq<Target>, env: Env, sh: Shell)
    requires !sh.exited
    ensures Run(FlushCommands(targets), env, sh)
            == sh.(host := sh.host.(routes := Without(sh.host.routes, TargetSet(targets))))
    decreases |targets|
  {
    if targets == [] {
      WithoutAll(sh.host.routes, {});
      assert TargetSet(targets) == {};
    } else {
      FlushDestinationExact(sh.host.routes, targets[0]);
      var next := Exec(Flush(targets[0]), env, sh);
      assert FlushCommands(targets)[1..] == FlushCommands(targets[1..]);
      RunFlushes(targets[1..], env, next);
      WithoutTwice(sh.host.routes, {targets[0]}, TargetSet(targets[1..]));
      assert {targets[0]} + TargetSet(targets[1..]) == TargetSet(targets);
    }
  }

  /** Where the run stands after the preamble. */
  datatype Start = NoIpTool | NoForwarding | NoNftTool | Started

  function StartOf(p: Plan, env: Env): Start {
    if !env.hasIp then NoIpTool
    else if p.client != [] && !env.canForward then NoForwarding
    else if Steps(p) != [] && !env.hasNft then NoNftTool
    else Started
  }

  function CleanChains(p: Plan, env: Env, chains: Chains): Chains {
    if Steps(p) != [] then Chains(Some([]), Some([]))
    else if env.hasNft then chains.Emptied(Prerouting).Emptied(Output)
    else chains
  }

  function AfterPreamble(p: Plan, env: Env, h: Host): Host {
    if StartOf(p, env) == NoIpTool || StartOf(p, env) == NoForwarding then h
    else
      var cleared := h.(rules := Foreign(h.rules), forwarding := h.forwarding || p.client != []);
      if StartOf(p, env) == NoNftTool then cleared else cleared.(chains := CleanChains(p, env, h.chains))
  }

  lemma Unroll1(a: Command, env: Env, sh: Shell)
    ensures Run([a], env, sh) == Exec(a, env, sh)
  {
    assert [a][1..] == [];
    assert Run([], env, Exec(a, env, sh)) == Exec(a, env, sh);
  }

  lemma Unroll2(a: Command, b: Command, env: Env, sh: Shell)
    ensures Run([a, b], env, sh) == Exec(b, env, Exec(a, env, sh))
  {
    assert [a, b][1..] == [b];
    Unroll1(b, env, Exec(a, env, sh));
  }

  lemma RunRebuildChains(env: Env, sh: Shell)
    requires !sh.exited
    ensures Run(ChainCommands(true), env, sh)
            == if env.hasNft then sh.(host := sh.host.(chains := Chains(Some([]), Some([])))) else sh.(exited := true)
  {
    var first, second := [RequireNft], [EnsureChain(Prerouting), EnsureChain(Output)];
    var third := [FlushChain(Prerouting), FlushChain(Output)];
    assert ChainCommands(true) == first + (second + third);
    RunAppend(first, second + third, env, sh);
    Unroll1(RequireNft, env, sh);
    var ready := Exec(RequireNft, env, sh);
    if !env.hasNft {
      RunExited(second + third, env, ready);
    } else {
      assert ready == sh;
      RunAppend(second, third, env, sh);
      Unroll2(EnsureChain(Prerouting), EnsureChain(Output), env, sh);
      var ensured := Exec(EnsureChain(Output), env, Exec(EnsureChain(Prerouting), env, sh));
      assert ensured == sh.(host := sh.host.(chains := ensured.host.chains)) && HasChains(ensured.host);
      Unroll2(FlushChain(Prerouting), FlushChain(Output), env, ensured);
    }
  }

  lemma RunChainCommands(p: Plan, env: Env, sh: Shell)
    requires !sh.exited
    ensures var end := Run(ChainCommands(Steps(p) != []), env, sh);
            if Steps(p) != [] && !env.hasNft then end == sh.(exited := true)
            else end == sh.(host := sh.host.(chains := CleanChains(p, env, sh.host.chains)))
  {
    if Steps(p) != [] {
      RunRebuildChains(env, sh);
    } else {
      Unroll2(FlushChainIfPresent(Prerouting), FlushChainIfPresent(Output), env, sh);
    }
  }

  lemma RunDeletes(env: Env, sh: Shell)
    requires !sh.exited
    ensures Run([DeletePriorities(SYSTEM_PRIORITY, SYSTEM_PRIORITY_TO), DeletePriorities(PRIORITY, PRIORITY_TO)], env,
            sh)
            == sh.(host := sh.host.(rules := Foreign(sh.host.rules)))
  {
    DeleteRangeExact(sh.host.rules, SYSTEM_PRIORITY, SYSTEM_PRIORITY_TO);
    DeleteRangeExact(Outside(sh.host.rules, SYSTEM_PRIORITY, SYSTEM_PRIORITY_TO), PRIORITY, PRIORITY_TO);
    ForeignIsOutsideBoth(sh.host.rules);
    Unroll2(DeletePriorities(SYSTEM_PRIORITY, SYSTEM_PRIORITY_TO), DeletePriorities(PRIORITY, PRIORITY_TO), env, sh);
  }

  lemma RunPreamble(p: Plan, env: Env, h: Host)
    ensures Run(Preamble(p), env, Shell(h, false, false))
            == Shell(AfterPreamble(p, env, h), false, StartOf(p, env) != Started)
  {
    var sh := Shell(h, false, false);
    var first := [RequireIp];
    var forward := if p.client == [] then [] else [EnableForwarding];
    var deletes := [DeletePriorities(SYSTEM_PRIORITY, SYSTEM_PRIORITY_TO), DeletePriorities(PRIORITY, PRIORITY_TO)];
    var chains := ChainCommands(Steps(p) != []);
    assert Preamble(p) == first + (forward + (deletes + chains));
    RunAppend(first, forward + (deletes + chains), env, sh);
    Unroll1(RequireIp, env, sh);
    var one := Run(first, env, sh);
    if !env.hasIp {
      RunExited(forward + (deletes + chains), env, one);
    } else {
      RunAppend(forward, deletes + chains, env, one);
      if p.client != [] {
        Unroll1(EnableForwarding, env, one);
      }
      var two := Run(forward, env, one);
      if two.exited {
        RunExited(deletes + chains, env, two);
      } else {
        RunAppend(deletes, chains, env, two);
        RunDeletes(env, two);
        RunChainCommands(p, env, Run(deletes, env, two));
      }
    }
  }

  // ---------------------------------------------------------------- the whole script

  /** What a run of the script does to any kernel: the final state and whether it completed. */
  function Meaning(p: Plan, env: Env, h: Host): (Host, bool) {
    var start := AfterPreamble(p, env, h);
    if StartOf(p, env) != Started then (start, false)
    else
      var steps := Steps(p);
      var flushed := start.(routes := Without(h.routes, TargetSet(p.targets)));
      if steps == [] then (flushed, true)
      else (AfterSteps(flushed, steps, env), ReadySteps(steps, env) == |steps|)
  }

  lemma {:induction false} ForeignMembers(rules: seq<IpRule>)
    ensures forall r :: r in Foreign(rules) <==> r in rules && !Managed(r)
  {
    if rules != [] {
      ForeignMembers(rules[1..]);
      assert forall r :: r in rules <==> r == rules[0] || r in rules[1..];
    }
  }

  lemma StepsHaveRoom(p: Plan, rules: seq<IpRule>)
    requires WellFormed(p)
    ensures Room(Foreign(rules), Steps(p))
  {
    ForeignMembers(rules);
    var steps, m := Steps(p), |p.system|;
    assert forall i :: 0 <= i < |steps| ==> steps[i].rule == if i < m then p.system[i] else p.client[i - m];
    forall i | 0 <= i < |steps|
      ensures Managed(PolicyRule(steps[i].rule))
    {
    }
  }

  /** The script does exactly what `Meaning` says, from every prior kernel state. */
  lemma RunMeaning(p: Plan, env: Env, h: Host)
    requires WellFormed(p)
    ensures var end := Run(Script(p), env, Shell(h, false, false)); (end.host, !end.exited) == Meaning(p, env, h)
  {
    var sh := Shell(h, false, false);
    var flushes, rest := FlushCommands(p.targets), StepCommands(Steps(p));
    RunAppend(Preamble(p) + flushes, rest, env, sh);
    RunAppend(Preamble(p), flushes, env, sh);
    RunPreamble(p, env, h);
    var started := Run(Preamble(p), env, sh);
    if StartOf(p, env) != Started {
      RunExited(flushes, env, started);
      RunExited(rest, env, started);
    } else {
      RunFlushes(p.targets, env, started);
      var flushed := Run(flushes, env, started);
      StepsHaveRoom(p, h.rules);
      if Steps(p) != [] {
        RunSteps(Steps(p), env, flushed);
      }
    }
  }

  // ---------------------------------------------------------------- the cleanup script

  /** The script of `renderRoutePolicyCleanupScript`: it does what the available tools allow and never fails. */
  function CleanupScript(s: Snapshot, env: Env): seq<Command> {
    (if env.hasIp
     then [DeletePriorities(SYSTEM_PRIORITY, SYSTEM_PRIORITY_TO), DeletePriorities(PRIORITY, PRIORITY_TO)]
          + FlushCommands(Dedupe(SnapshotTargets(s)))
     else [])
    + [FlushChainIfPresent(Prerouting), FlushChainIfPresent(Output)]
  }

  /** What it does to any kernel. */
  function Cleaned(s: Snapshot, env: Env, h: Host): Host {
    Host(if env.hasIp then Foreign(h.rules) else h.rules,
         if env.hasIp then Without(h.routes, TargetSet(SnapshotTargets(s))) else h.routes,
         if env.hasNft then h.chains.Emptied(Prerouting).Emptied(Output) else h.chains, h.forwarding)
  }

  lemma CleanupExact(s: Snapshot, env: Env, h: Host)
    ensures Run(CleanupScript(s, env), env, Shell(h, false, false)) == Shell(Cleaned(s, env, h), false, false)
  {
    var sh := Shell(h, false, false);
    var deletes := [DeletePriorities(SYSTEM_PRIORITY, SYSTEM_PRIORITY_TO), DeletePriorities(PRIORITY, PRIORITY_TO)];
    var flushes := FlushCommands(Dedupe(SnapshotTargets(s)));
    var chains := [FlushChainIfPresent(Prerouting), FlushChainIfPresent(Output)];
    if env.hasIp {
      RunAppend(deletes + flushes, chains, env, sh);
      RunAppend(deletes, flushes, env, sh);
      RunDeletes(env, sh);
      var cleared := Run(deletes, env, sh);
      RunFlushes(Dedupe(SnapshotTargets(s)), env, cleared);
      DedupeExact(SnapshotTargets(s));
      assert TargetSet(Dedupe(SnapshotTargets(s))) == TargetSet(SnapshotTargets(s));
      Unroll2(chains[0], chains[1], env, Run(flushes, env, cleared));
    } else {
      assert [] + chains == chains;
      Unroll2(chains[0], chains[1], env, sh);
    }
  }
}
