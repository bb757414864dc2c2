/** External egress: the fail-closed guard, the route script with its actions, cleanup, and what becomes of a marked
    packet over runs in which other deployments, route policy and interface losses interleave. */
module ExternalEgress {
  import opened Common
  import Blocks
  import opened Kernel
  import RoutePolicyPlan
  import RP = RoutePolicyScript
  import RC = RoutePolicyConvergence

  const FALLBACK_METRIC := 32767

  /** A decoded job: what `decodeExternalEgressJob` lets through. */
  datatype Job = Job(table: nat, metric: nat, mark: nat, dev: string, needsAddress: bool) {
    predicate Valid() {
      40000 <= table <= 48999 && 1 <= metric <= 32767 && 0x4d590000 <= mark <= 0x4d59ffff
    }

    /** `externalEgressRulePriority` */
    function Priority(): nat {
      table + 10000
    }

    function PolicyRule(): IpRule {
      IpRule(Priority(), FwMark(mark), table)
    }

    function Fallback(): Route {
      Route(DEFAULT, table, FALLBACK_METRIC, Unreachable)
    }

    function Provider(): Route {
      Route(DEFAULT, table, metric, Via(dev, ""))
    }
  }

  datatype State = State(rules: seq<IpRule>, routes: seq<Route>)

  // ---------------------------------------------------------------- actions

  /** `ip rule add`; the kernel refuses a rule that exists. */
  function AddRule(rules: seq<IpRule>, r: IpRule): (seq<IpRule>, bool) {
    if r in rules then (rules, false) else (InsertRule(rules, r), true)
  }

  /** The first four commands of the script, which are also those of `installExternalEgressFailClosedGuard`: flush the
      table, install the unreachable fallback, delete the policy rule and add it again. */
  function Guard(j: Job, s: State): (State, bool) {
    var routes := ReplaceRoute(FlushTable(s.routes, j.table), j.Fallback());
    var (rules, ok) := AddRule(DeleteExact(s.rules, j.PolicyRule()), j.PolicyRule());
    (State(rules, routes), ok)
  }

  /** How the wait for the interface and for its address ends. */
  datatype Wait = NoInterface | NoAddress | Up

  /** The waiting ends well: the interface is there, and its address if the protocol needs one. */
  predicate Ready(j: Job, wait: Wait) {
    wait == Up || (wait == NoAddress && !j.needsAddress)
  }

  /** `route-policy.sh apply`: guard, wait, then the provider route. */
  function ApplyScript(j: Job, wait: Wait, s: State): State {
    var (guarded, ok) := Guard(j, s);
    if !ok || !Ready(j, wait) then guarded
    else guarded.(routes := ReplaceRoute(guarded.routes, j.Provider()))
  }

  /** `route-policy.sh cleanup` and `cleanupExternalEgressPolicy` */
  function CleanupScript(j: Job, s: State): State {
    State(DeleteExact(s.rules, j.PolicyRule()), FlushTable(s.routes, j.table))
  }

  /** What can happen between two looks at the kernel. */
  datatype Event =
    | GuardJob(job: Job)
    | ApplyJob(job: Job, wait: Wait)
    | CleanupJob(job: Job)
    | LoseLink(dev: string)
    | RoutePolicyRun(plan: RoutePolicyPlan.Plan, env: RP.Env)
    | RoutePolicyCleanup(snapshot: RoutePolicyPlan.Snapshot, env: RP.Env)

  function Step(s: State, e: Event): State {
    match e
    case GuardJob(j) => Guard(j, s).0
    case ApplyJob(j, wait) => ApplyScript(j, wait, s)
    case CleanupJob(j) => CleanupScript(j, s)
    case LoseLink(dev) => s.(routes := LoseInterface(s.routes, dev))
    case RoutePolicyRun(p, env) =>
      var h := RP.Meaning(p, env, RP.Host(s.rules, s.routes, RP.Chains(None, None), false)).0;
      State(h.rules, h.routes)
    case RoutePolicyCleanup(snapshot, env) =>
      var h := RP.Cleaned(snapshot, env, RP.Host(s.rules, s.routes, RP.Chains(None, None), false));
      State(h.rules, h.routes)
  }

  function After(s: State, events: seq<Event>): State {
    if events == [] then s else Step(After(s, events[..|events| - 1]), events[|events| - 1])
  }

  datatype Action = CleanupAction | GuardAction | ApplyAction

  /** The node's kernel and the two ways the agent works on it: its own calls and the generated script. */
  class Node {
    var rules: seq<IpRule>
    var routes: seq<Route>

    function Abs(): State
      reads this
    {
      State(rules, routes)
    }

    constructor (s: State)
      ensures Abs() == s
    {
      rules, routes := s.rules, s.routes;
    }

    /** `installExternalEgressFailClosedGuard`, one command after the other. */
    method InstallGuard(j: Job) returns (ok: bool)
      modifies this
      ensures Abs() == Guard(j, old(Abs())).0 && ok == Guard(j, old(Abs())).1
    {
      routes := FlushTable(routes, j.table);
      routes := ReplaceRoute(routes, j.Fallback());
      rules := DeleteExact(rules, j.PolicyRule());
      if j.PolicyRule() in rules {
        return false;
      }
      rules := InsertRule(rules, j.PolicyRule());
      return true;
    }

    /** The script of `renderExternalEgressRouteScript`; `appearsAfter` and `addressAfter` are the polls after which the
        interface and its address show, if they do within the sixty that the script makes. */
    method RunScript(j: Job, action: Action, appearsAfter: Option<nat>, addressAfter: Option<nat>)
      returns (exitCode: nat)
      modifies this
      ensures action == CleanupAction ==> Abs() == CleanupScript(j, old(Abs()))
      ensures action == GuardAction ==> Abs() == Guard(j, old(Abs())).0
      ensures action == ApplyAction ==>
                Abs() == ApplyScript(j, WaitOutcome(appearsAfter, addressAfter), old(Abs()))
      ensures exitCode == 0 <==>
                || action == CleanupAction
                || (Guard(j, old(Abs())).1
                   && (action == ApplyAction ==> Ready(j, WaitOutcome(appearsAfter, addressAfter))))
    {
      if action == CleanupAction {
        rules := DeleteExact(rules, j.PolicyRule());
        routes := FlushTable(routes, j.table);
        return 0;
      }
      var ok := InstallGuard(j);
      if !ok {
        return 2;
      }
      if action == GuardAction {
        return 0;
      }
      var shown := Poll(appearsAfter);
      if !shown {
        return 1;
      }
      if j.needsAddress {
        var addressed := Poll(addressAfter);
        if !addressed {
          return 1;
        }
      }
      routes := ReplaceRoute(routes, j.Provider());
      return 0;
    }
  }

  const POLLS := 60

  /** The counting wait loop: one more poll than there are sleeps, at most sixty in all. */
  method Poll(after: Option<nat>) returns (seen: bool)
    ensures seen <==> after.Some? && after.value < POLLS
  {
    var i := 0;
    while !(after.Some? && after.value <= i)
      invariant i < POLLS
      invariant after.Some? ==> i <= after.value
      decreases POLLS - i
    {
      i := i + 1;
      if !(i < POLLS) {
        return false;
      }
    }
    return true;
  }

  function WaitOutcome(appearsAfter: Option<nat>, addressAfter: Option<nat>): Wait {
    if !(appearsAfter.Some? && appearsAfter.value < POLLS) then NoInterface
    else if !(addressAfter.Some? && addressAfter.value < POLLS) then NoAddress
    else Up
  }

  // ---------------------------------------------------------------- the invariant

  /** The policy rule is there, the table has its fallback, and every other route in it is the provider's. */
  predicate Guarded(s: State, j: Job) {
    && j.PolicyRule() in s.rules
    && j.Fallback() in s.routes
    && forall r :: r in s.routes && r.table == j.table ==> r == j.Fallback() || r == j.Provider()
  }

  /** The table is closed: the policy rule and the fallback are there, and every other route goes over the provider's
      interface. */
  predicate Closed(s: State, j: Job) {
    && j.PolicyRule() in s.rules
    && j.Fallback() in s.routes
    && forall r :: r in s.routes && r.table == j.table ==> r == j.Fallback() || OverProvider(r, j)
  }

  predicate OverProvider(r: Route, j: Job) {
    r.hop.Via? && r.hop.dev == j.dev
  }

  /** The route-policy run does not touch the table's default routes, and what it leaves in the table goes over the
      provider's interface. */
  predicate Spares(p: RoutePolicyPlan.Plan, env: RP.Env, j: Job) {
    RP.StartOf(p, env) == RP.Started ==>
      && Target(DEFAULT, j.table) !in p.targets
      && forall r :: r in RC.Fresh(p, env) && r.table == j.table ==> OverProvider(r, j)
  }

  /** The route-policy cleanup does not touch the table's default routes. */
  predicate CleanupSpares(snapshot: RoutePolicyPlan.Snapshot, env: RP.Env, j: Job) {
    env.hasIp ==> Target(DEFAULT, j.table) !in RoutePolicyPlan.SnapshotTargets(snapshot)
  }

  /** The event does not open this deployment's table: it belongs to another deployment, which has its own table and
      mark, or it is a route-policy run or cleanup that spares the table. */
  predicate Elsewhere(e: Event, j: Job) {
    match e
    case GuardJob(k) => k.table != j.table
    case ApplyJob(k, _) => k.table != j.table
    case CleanupJob(k) => k.table != j.table
    case LoseLink(_) => true
    case RoutePolicyRun(p, env) => RoutePolicyPlan.WellFormed(p) && Spares(p, env, j)
    case RoutePolicyCleanup(snapshot, env) => CleanupSpares(snapshot, env, j)
  }

  /** The deployment's own guard or apply. */
  predicate Own(e: Event, j: Job) {
    e == GuardJob(j) || (e.ApplyJob? && e.job == j)
  }

  lemma {:induction false} DeleteExactKeeps(rules: seq<IpRule>, r: IpRule)
    ensures forall x :: x in rules && x != r ==> x in DeleteExact(rules, r)
    ensures forall x :: x in DeleteExact(rules, r) ==> x in rules
  {
    if rules != [] {
      DeleteExactKeeps(rules[1..], r);
      assert forall x :: x in rules <==> x == rules[0] || x in rules[1..];
    }
  }

  lemma GuardRules(j: Job, s: State)
    ensures j.PolicyRule() in Guard(j, s).0.rules
    ensures forall x :: x in s.rules ==> x in Guard(j, s).0.rules
  {
    DeleteExactKeeps(s.rules, j.PolicyRule());
    InsertMembers(DeleteExact(s.rules, j.PolicyRule()), j.PolicyRule());
  }

  lemma GuardRoutes(j: Job, s: State)
    ensures forall r :: r in Guard(j, s).0.routes <==> r == j.Fallback() || (r in s.routes && r.table != j.table)
  {
    FlushTableMembers(s.routes, j.table);
    ReplaceMembers(FlushTable(s.routes, j.table), j.Fallback());
  }

  /** A guard establishes the invariant from any state, and so does an apply, however its waiting ends, when its
      metric is not the fallback's. */
  lemma GuardEstablishes(j: Job, wait: Wait, s: State)
    ensures Guarded(Guard(j, s).0, j)
    ensures j.metric != FALLBACK_METRIC ==> Guarded(ApplyScript(j, wait, s), j)
  {
    GuardRules(j, s);
    GuardRoutes(j, s);
    ReplaceMembers(Guard(j, s).0.routes, j.Provider());
  }

  lemma OtherDeployment(k: Job, wait: Wait, s: State, j: Job)
    requires k.table != j.table && Closed(s, j)
    ensures Closed(Guard(k, s).0, j) && Closed(ApplyScript(k, wait, s), j) && Closed(CleanupScript(k, s), j)
  {
    GuardRules(k, s);
    GuardRoutes(k, s);
    ReplaceMembers(Guard(k, s).0.routes, k.Provider());
    DeleteExactKeeps(s.rules, k.PolicyRule());
    FlushTableMembers(s.routes, k.table);
  }

  /** A route-policy run keeps every rule outside its ranges and every route away from its targets, and adds its own. */
  lemma RoutePolicyFrame(p: RoutePolicyPlan.Plan, env: RP.Env, s: State)
    requires RoutePolicyPlan.WellFormed(p)
    ensures var t := Step(s, RoutePolicyRun(p, env));
            && (forall r :: r in s.rules && !RP.Managed(r) ==> r in t.rules)
            && (if RP.StartOf(p, env) == RP.Started
                then forall r :: r in t.routes <==> (r in s.routes && r.At() !in p.targets) || r in RC.Fresh(p, env)
                else t.routes == s.routes)
  {
    var h := RP.Host(s.rules, s.routes, RP.Chains(None, None), false);
    RP.ForeignMembers(s.rules);
    if RP.StartOf(p, env) == RP.Started {
      RC.RoutesAfter(p, env, h);
      WithoutMembers(s.routes, RP.TargetSet(p.targets));
      AddRulesKeeps(RP.Foreign(s.rules), RP.Steps(p)[..RP.ReadySteps(RP.Steps(p), env)]);
    }
  }

  /** A route-policy cleanup keeps every rule outside the reserved ranges and every route away from the snapshot's
      targets, and adds nothing. */
  lemma CleanupFrame(snapshot: RoutePolicyPlan.Snapshot, env: RP.Env, s: State)
    ensures var t := Step(s, RoutePolicyCleanup(snapshot, env));
            && (forall r :: r in s.rules && !RP.Managed(r) ==> r in t.rules)
            && (forall r :: r in t.routes <==>
                  r in s.routes && !(env.hasIp && r.At() in RoutePolicyPlan.SnapshotTargets(snapshot)))
  {
    RP.ForeignMembers(s.rules);
    WithoutMembers(s.routes, RP.TargetSet(RoutePolicyPlan.SnapshotTargets(snapshot)));
  }

  lemma {:induction false} AddRulesKeeps(rules: seq<IpRule>, steps: seq<RP.Placed>)
    ensures forall r :: r in rules ==> r in RP.AddRules(rules, steps)
    decreases |steps|
  {
    if steps != [] {
      var next := InsertRule(rules, RP.PolicyRule(steps[0].rule));
      InsertMembers(rules, RP.PolicyRule(steps[0].rule));
      AddRulesKeeps(next, steps[1..]);
    }
  }

  /** Every event that is the deployment's own guard or apply, or happens elsewhere, keeps the table closed. */
  lemma ClosedStays(s: State, e: Event, j: Job)
    requires j.Valid() && j.metric != FALLBACK_METRIC && Closed(s, j) && (Own(e, j) || Elsewhere(e, j))
    ensures Closed(Step(s, e), j)
  {
    match e
    case GuardJob(k) =>
      if k == j {
        GuardEstablishes(j, Up, s);
      } else {
        OtherDeployment(k, Up, s, j);
      }
    case ApplyJob(k, wait) =>
      if k == j {
        GuardEstablishes(j, wait, s);
      } else {
        OtherDeployment(k, wait, s, j);
      }
    case CleanupJob(k) =>
      OtherDeployment(k, Up, s, j);
    case LoseLink(dev) =>
      LoseInterfaceMembers(s.routes, dev);
    case RoutePolicyRun(p, env) =>
      RoutePolicyFrame(p, env, s);
    case RoutePolicyCleanup(snapshot, env) =>
      CleanupFrame(snapshot, env, s);
  }

  predicate Permitted(events: seq<Event>, j: Job) {
    forall i :: 0 <= i < |events| ==> Own(events[i], j) || Elsewhere(events[i], j)
  }

  // ---------------------------------------------------------------- what a packet meets

  const ADDRESSES := 0x1_0000_0000

  /** The table decides every destination: the provider's interface or unreachable. */
  predicate Decides(routes: seq<Route>, j: Job, dst: nat) {
    var r := Lookup(routes, j.table, dst);
    r.Some? && (OverProvider(r.value, j) || r.value.hop == Unreachable)
  }

  /** The policy rule exists and never falls through to a later rule. */
  ghost predicate FailClosed(s: State, j: Job) {
    j.PolicyRule() in s.rules && forall dst: nat :: dst < ADDRESSES ==> Decides(s.routes, j, dst)
  }

  lemma ClosedIsFailClosed(s: State, j: Job)
    requires Closed(s, j)
    ensures FailClosed(s, j)
  {
    forall dst: nat | dst < ADDRESSES
      ensures Decides(s.routes, j, dst)
    {
      Blocks.PowerOf32();
      assert Serves(j.Fallback(), j.table, dst);
      assert Lookup(s.routes, j.table, dst).Some?;
    }
  }

  lemma {:induction false} ClosedOverRun(s: State, events: seq<Event>, g: nat, j: Job)
    requires j.Valid() && j.metric != FALLBACK_METRIC && g < |events| && Own(events[g], j) && Permitted(events[g..], j)
    ensures Closed(After(s, events), j)
    decreases |events|
  {
    var front, e := events[..|events| - 1], events[|events| - 1];
    if g == |events| - 1 {
      GuardEstablishes(j, if e.ApplyJob? then e.wait else Up, After(s, front));
    } else {
      assert front[g..] == events[g..][..|events| - 1 - g];
      ClosedOverRun(s, front, g, j);
      assert e == events[g..][|events| - 1 - g];
      ClosedStays(After(s, front), e, j);
    }
  }

  /** Fail-closed over runs: at every boundary after the deployment's first guard or apply, whatever came before and
      whatever guards, applies, interface losses, other deployments and route-policy runs follow. */
  lemma FailClosedOverRun(s: State, events: seq<Event>, g: nat, i: nat, j: Job)
    requires j.Valid() && j.metric < FALLBACK_METRIC
    requires g < i <= |events| && Own(events[g], j) && Permitted(events[g..], j)
    ensures FailClosed(After(s, events[..i]), j)
  {
    assert forall k :: 0 <= k < i - g ==> events[..i][g..][k] == events[g..][k];
    ClosedOverRun(s, events[..i], g, j);
    ClosedIsFailClosed(After(s, events[..i]), j);
  }

  /** With the fallback's own metric the provider route replaces the fallback, and the loss of the interface then
      leaves the table empty. */
  lemma FallbackMetricFallsThrough(j: Job)
    requires j.metric == FALLBACK_METRIC
    ensures var events := [GuardJob(j), ApplyJob(j, Up), LoseLink(j.dev)];
            Permitted(events, j) && After(State([], []), events).routes == []
  {
    var s, events := State([], []), [GuardJob(j), ApplyJob(j, Up), LoseLink(j.dev)];
    var one, two := events[..1], events[..2];
    assert events[..2][..1] == one && one[..0] == [];
    assert events[0] == GuardJob(j) && two[1] == ApplyJob(j, Up);
    var a := Guard(j, s).0;
    assert a == State([j.PolicyRule()], [j.Fallback()]);
    assert After(s, one) == a;
    assert FlushTable(a.routes, j.table) == [] by {
      assert a.routes[1..] == [];
    }
    assert DeleteExact(a.rules, j.PolicyRule()) == [];
    var b := ApplyScript(j, Up, a);
    assert Guard(j, a).0 == a && Guard(j, a).1;
    assert b.routes == [j.Provider()];
    assert After(s, two) == b;
    assert [j.Provider()][1..] == [];
    assert LoseInterface(b.routes, j.dev) == [];
  }

  /** Fail-closed over all permitted runs holds if and only if the metric is below the fallback's. */
  lemma FailClosedIff(j: Job)
    requires j.Valid()
    ensures (forall s: State, events: seq<Event> :: events != [] && Own(events[0], j) && Permitted(events, j) ==>
               FailClosed(After(s, events), j))
            <==> j.metric < FALLBACK_METRIC
  {
    if j.metric < FALLBACK_METRIC {
      forall s: State, events: seq<Event> | events != [] && Own(events[0], j) && Permitted(events, j)
        ensures FailClosed(After(s, events), j)
      {
        assert events[0..] == events && events[..|events|] == events;
        FailClosedOverRun(s, events, 0, |events|, j);
      }
    } else {
      FallbackMetricFallsThrough(j);
      var s, events := State([], []), [GuardJob(j), ApplyJob(j, Up), LoseLink(j.dev)];
      assert Own(events[0], j) && Permitted(events, j);
      assert !Decides(After(s, events).routes, j, 0);
      assert !FailClosed(After(s, events), j);
    }
  }

  // ---------------------------------------------------------------- route policies in the same table

  predicate ProperPlan(p: RoutePolicyPlan.Plan) {
    && RoutePolicyPlan.ProperRules(p.system) && RoutePolicyPlan.ProperRules(p.client)
  }

  lemma StepIsProper(p: RoutePolicyPlan.Plan, k: nat)
    requires ProperPlan(p) && k < |RP.Steps(p)|
    ensures RoutePolicyPlan.ProperOrDefault(RP.Steps(p)[k].rule.destination)
  {
    assert RP.Steps(p)[k].rule == if k < |p.system| then p.system[k] else p.client[k - |p.system|];
  }

  lemma FreshIsProper(p: RoutePolicyPlan.Plan, env: RP.Env, r: Route)
    requires RoutePolicyPlan.WellFormed(p) && ProperPlan(p) && r in RC.Fresh(p, env)
    ensures RoutePolicyPlan.ProperOrDefault(r.dst) && r.hop.Via? && r.At() in p.targets
  {
    var k := FreshOrigin(p, env, r);
    RC.StepUsable(p);
    StepIsProper(p, k);
  }

  lemma FreshOrigin(p: RoutePolicyPlan.Plan, env: RP.Env, r: Route) returns (k: nat)
    requires RoutePolicyPlan.WellFormed(p) && r in RC.Fresh(p, env)
    ensures k < |RP.Steps(p)| && r.hop.Via? && r.At() == RP.Steps(p)[k].rule.Where()
  {
    RC.RoutesAreReady(p, env);
    var i, c :| 0 <= i < |RP.Steps(p)| && c in RP.Steps(p)[i].rule.candidates && env.Ready(c)
                && r == RP.RouteOf(RP.Steps(p)[i].rule.destination, c) && r.At() == RP.Steps(p)[i].rule.Where();
    k := i;
  }

  lemma AfterGuard(s: State, j: Job)
    ensures After(s, [GuardJob(j)]) == Guard(j, s).0
  {
    assert [GuardJob(j)][..0] == [];
  }

  /** The run that shows what a route policy does to the table: guard, policy, loss of the interface. */
  function PolicyRun(p: RoutePolicyPlan.Plan, env: RP.Env, j: Job): seq<Event> {
    [GuardJob(j), RoutePolicyRun(p, env), LoseLink(j.dev)]
  }

  /** After that run the table has no route over the provider, and the fallback unless the policy targets it. */
  lemma PolicyRunRoutes(s: State, p: RoutePolicyPlan.Plan, env: RP.Env, j: Job, r: Route)
    requires RoutePolicyPlan.WellFormed(p) && RP.StartOf(p, env) == RP.Started && r.table == j.table
    ensures r in After(s, PolicyRun(p, env, j)).routes <==>
              !OverProvider(r, j) && ((r == j.Fallback() && r.At() !in p.targets) || r in RC.Fresh(p, env))
  {
    PolicyRunSteps(s, p, env, j);
    GuardRoutes(j, s);
    var guarded := Guard(j, s).0;
    RoutePolicyFrame(p, env, guarded);
    LoseInterfaceMembers(Step(guarded, RoutePolicyRun(p, env)).routes, j.dev);
  }

  lemma PolicyRunSteps(s: State, p: RoutePolicyPlan.Plan, env: RP.Env, j: Job)
    ensures After(s, PolicyRun(p, env, j)).routes
            == LoseInterface(Step(Guard(j, s).0, RoutePolicyRun(p, env)).routes, j.dev)
  {
    var events := PolicyRun(p, env, j);
    assert events[..2][..1] == [GuardJob(j)] && events[..2] == [GuardJob(j), RoutePolicyRun(p, env)];
    AfterGuard(s, j);
    assert After(s, events[..2]) == Step(Guard(j, s).0, RoutePolicyRun(p, env));
  }

  /** A route away from the default is better than the fallback. */
  lemma BeatsFallback(r: Route, j: Job)
    requires r.dst.Proper() && r.table == j.table && r.dst != DEFAULT
    ensures Serves(r, j.table, r.dst.base) && Better(r, j.Fallback())
  {
    Blocks.PowerOf32();
  }

  /** A run that does not spare the table opens it: after the loss of the interface this destination is neither
      unreachable nor sent to the provider. */
  lemma NotDecided(s: State, p: RoutePolicyPlan.Plan, env: RP.Env, j: Job, dst: nat)
    requires RoutePolicyPlan.WellFormed(p) && ProperPlan(p) && RP.StartOf(p, env) == RP.Started
    requires Target(DEFAULT, j.table) in p.targets
             || exists r :: r in RC.Fresh(p, env) && Serves(r, j.table, dst)
                            && !OverProvider(r, j) && Better(r, j.Fallback())
    ensures !Decides(After(s, PolicyRun(p, env, j)).routes, j, dst)
  {
    var end := After(s, PolicyRun(p, env, j));
    var best := Lookup(end.routes, j.table, dst);
    if best.Some? {
      PolicyRunRoutes(s, p, env, j, best.value);
      if best.value in RC.Fresh(p, env) {
        FreshIsProper(p, env, best.value);
      } else {
        var r :| r in RC.Fresh(p, env) && Serves(r, j.table, dst) && !OverProvider(r, j) && Better(r, j.Fallback());
        PolicyRunRoutes(s, p, env, j, r);
      }
    }
  }

  lemma NotSparedOpens(s: State, p: RoutePolicyPlan.Plan, env: RP.Env, j: Job)
    requires RoutePolicyPlan.WellFormed(p) && ProperPlan(p) && !Spares(p, env, j)
    ensures !FailClosed(After(s, PolicyRun(p, env, j)), j)
  {
    if Target(DEFAULT, j.table) in p.targets {
      NotDecided(s, p, env, j, 0);
    } else {
      var r :| r in RC.Fresh(p, env) && r.table == j.table && !OverProvider(r, j);
      FreshIsProper(p, env, r);
      BeatsFallback(r, j);
      NotDecided(s, p, env, j, r.dst.base);
      assert r.dst.base < ADDRESSES;
    }
  }

  /** Exactly which route-policy runs leave the table closed: from every state, after a guard and the run, and also
      after a loss of the interface that follows, if and only if the run spares the table. */
  lemma SparesExactly(p: RoutePolicyPlan.Plan, env: RP.Env, j: Job)
    requires j.Valid() && j.metric < FALLBACK_METRIC && RoutePolicyPlan.WellFormed(p) && ProperPlan(p)
    ensures Spares(p, env, j) <==>
              forall s: State, i :: 0 < i <= 3 ==> FailClosed(After(s, PolicyRun(p, env, j)[..i]), j)
  {
    var events := PolicyRun(p, env, j);
    if Spares(p, env, j) {
      assert Permitted(events[0..], j);
      forall s: State, i | 0 < i <= 3
        ensures FailClosed(After(s, events[..i]), j)
      {
        FailClosedOverRun(s, events, 0, i, j);
      }
    } else {
      NotSparedOpens(State([], []), p, env, j);
      assert events[..3] == events;
    }
  }

  /** A plan that targets no default route of the table and sends its own routes in the table over the provider spares
      it in every environment. */
  lemma HarmlessPlan(p: RoutePolicyPlan.Plan, env: RP.Env, j: Job)
    requires RoutePolicyPlan.WellFormed(p) && Target(DEFAULT, j.table) !in p.targets
    requires forall k, c :: 0 <= k < |RP.Steps(p)| && c in RP.Steps(p)[k].rule.candidates && c.table == j.table ==>
               c.dev == j.dev
    ensures Spares(p, env, j)
  {
    RC.RoutesAreReady(p, env);
  }

  const INSIDE := Prefix(0x0a000000, 8)

  /** Two system rules for one destination; only the second names another interface, ahead of the provider's. */
  function CoveredPlan(j: Job): RoutePolicyPlan.Plan {
    var own := RoutePolicyPlan.Candidate(j.dev, "", j.table, 50, None);
    var other := RoutePolicyPlan.Candidate("eth1", "", j.table, 50, None);
    RoutePolicyPlan.Plan(
      [RoutePolicyPlan.Rule(DEFAULT, INSIDE, RoutePolicyPlan.Any, [], j.table, [own],
                            RoutePolicyPlan.SYSTEM_PRIORITY, RoutePolicyPlan.SYSTEM_MARK + 1),
       RoutePolicyPlan.Rule(DEFAULT, INSIDE, RoutePolicyPlan.Any, [], j.table, [other, own],
                            RoutePolicyPlan.SYSTEM_PRIORITY + 1, RoutePolicyPlan.SYSTEM_MARK + 2)],
      [], [Target(INSIDE, j.table)])
  }

  /** The converse of `HarmlessPlan` fails: this plan names another interface in the table and still spares it in every
      environment, because whenever its second rule is reached the provider's candidate takes the route over. */
  lemma ForeignCandidateMaySpare(j: Job, env: RP.Env)
    requires j.dev != "eth1"
    ensures RoutePolicyPlan.WellFormed(CoveredPlan(j)) && Spares(CoveredPlan(j), env, j)
  {
    var p := CoveredPlan(j);
    var own, other := p.system[0].candidates[0], p.system[1].candidates[0];
    var a, b := RC.Attempt(INSIDE, own), RC.Attempt(INSIDE, other);
    var one, two := RP.Placed(p.system[0], RP.Output), RP.Placed(p.system[1], RP.Output);
    var steps := RP.Steps(p);
    assert steps == [one, two] && steps[1..] == [two] && [two][1..] == [];
    assert RC.Attempts(INSIDE, [own]) == [a] && RC.Attempts(INSIDE, [other, own]) == [b, a];
    var list := RC.Tried(steps, env);
    if env.Ready(own) {
      assert RP.AnyReady([own], env) by {
        assert env.Ready([own][0]);
      }
      assert RP.AnyReady([other, own], env) by {
        assert env.Ready([other, own][1]);
      }
      assert RC.Tried([], env) == [];
      assert RC.Tried([two], env) == [b, a] + [];
      assert list == [a] + [b, a] == [a, b, a];
    } else {
      assert list == [a];
    }
    RC.InstalledExactly(list, env);
    forall r | r in RC.Fresh(p, env)
      ensures OverProvider(r, j)
    {
      var i :| 0 <= i < |list| && RC.SurvivesAt(list, env, r, i);
      if i == 1 {
        assert false;
      }
    }
  }

  /** Exactly which route-policy cleanups leave the table closed: those without ip, and those whose snapshot has no
      default route in the table. */
  lemma CleanupSparesExactly(snapshot: RoutePolicyPlan.Snapshot, env: RP.Env, j: Job)
    requires j.Valid() && j.metric < FALLBACK_METRIC
    ensures CleanupSpares(snapshot, env, j) <==>
              forall s: State :: FailClosed(After(s, [GuardJob(j), RoutePolicyCleanup(snapshot, env)]), j)
  {
    var events := [GuardJob(j), RoutePolicyCleanup(snapshot, env)];
    if CleanupSpares(snapshot, env, j) {
      assert Permitted(events[0..], j);
      forall s: State
        ensures FailClosed(After(s, events), j)
      {
        assert events[..2] == events;
        FailClosedOverRun(s, events, 0, 2, j);
      }
    } else {
      var s := State([], []);
      CleanupOpens(s, snapshot, env, j);
    }
  }

  /** From every state, a cleanup that does not spare the table leaves it empty. */
  lemma CleanupOpens(s: State, snapshot: RoutePolicyPlan.Snapshot, env: RP.Env, j: Job)
    requires !CleanupSpares(snapshot, env, j)
    ensures !FailClosed(After(s, [GuardJob(j), RoutePolicyCleanup(snapshot, env)]), j)
  {
    var events := [GuardJob(j), RoutePolicyCleanup(snapshot, env)];
    assert events[..1] == [GuardJob(j)];
    AfterGuard(s, j);
    GuardRoutes(j, s);
    CleanupFrame(snapshot, env, Guard(j, s).0);
    assert After(s, events) == Step(Guard(j, s).0, RoutePolicyCleanup(snapshot, env));
    assert Lookup(After(s, events).routes, j.table, 0).None?;
    assert !Decides(After(s, events).routes, j, 0);
  }

  /** A client route to every destination in the deployment's table, as a stored snapshot holds it. */
  function RouteInTable(table: nat): RoutePolicyPlan.ClientRoute {
    RoutePolicyPlan.ClientRoute(
      true, true, true, true, Some(DEFAULT), Some(DEFAULT), true, RoutePolicyPlan.TableId(table),
      RoutePolicyPlan.RawEgress(
        [], RoutePolicyPlan.RawCandidate(true, RoutePolicyPlan.Safe("wg0"), RoutePolicyPlan.Absent, 0, None)),
      RoutePolicyPlan.Any, RoutePolicyPlan.NoPorts)
  }

  /** A failing run: the agent accepts a route policy in a deployment's table, and withdrawing it flushes the table's
      fallback, for every metric and from every state. */
  lemma WithdrawnPolicyOpensTable(s: State, j: Job, env: RP.Env)
    requires env.hasIp
    ensures var plan := RoutePolicyPlan.Render(RoutePolicyPlan.Snapshot([], []),
            RoutePolicyPlan.Snapshot([RouteInTable(j.table)], []));
            && plan.Ok? && RoutePolicyPlan.WellFormed(plan.value)
            && !FailClosed(After(s, [GuardJob(j), RoutePolicyRun(plan.value, env)]), j)
  {
    var stored := RoutePolicyPlan.Snapshot([RouteInTable(j.table)], []);
    var nothing := RoutePolicyPlan.Snapshot([], []);
    var plan := RoutePolicyPlan.Render(nothing, stored).value;
    RoutePolicyPlan.RenderOk(nothing, stored);
    assert [RouteInTable(j.table)][..0] == [];
    assert RoutePolicyPlan.ClientTargets([RouteInTable(j.table)]) == [Target(DEFAULT, j.table)];
    assert Target(DEFAULT, j.table) in RoutePolicyPlan.SnapshotTargets(stored);
    assert RP.Steps(plan) == [] && RC.Fresh(plan, env) == [];
    var events := [GuardJob(j), RoutePolicyRun(plan, env)];
    assert events[..1] == [GuardJob(j)];
    AfterGuard(s, j);
    GuardRoutes(j, s);
    RoutePolicyFrame(plan, env, Guard(j, s).0);
    var end := After(s, events);
    assert end == Step(Guard(j, s).0, RoutePolicyRun(plan, env));
    assert Lookup(end.routes, j.table, 0).None?;
    assert !Decides(end.routes, j, 0);
  }

  /** Another failing run: a cleanup of that route policy flushes the fallback too. */
  lemma CleanedPolicyOpensTable(s: State, j: Job, env: RP.Env)
    requires env.hasIp
    ensures var stored := RoutePolicyPlan.Snapshot([RouteInTable(j.table)], []);
            !FailClosed(After(s, [GuardJob(j), RoutePolicyCleanup(stored, env)]), j)
  {
    assert [RouteInTable(j.table)][..0] == [];
    assert RoutePolicyPlan.ClientTargets([RouteInTable(j.table)]) == [Target(DEFAULT, j.table)];
    CleanupOpens(s, RoutePolicyPlan.Snapshot([RouteInTable(j.table)], []), env, j);
  }

  // ---------------------------------------------------------------- rules consulted earlier

  /** A packet with the deployment's mark is decided at the deployment's priority if and only if no rule with a lower
      priority number decides it first; then, unless a foreign rule shares the priority, it goes to the provider's
      interface or is unreachable. */
  lemma MarkedPacketReachesTable(s: State, j: Job, p: Packet)
    requires Sorted(s.rules) && FailClosed(s, j) && p.mark == j.mark && p.dst < ADDRESSES
    ensures Decider(s.rules, s.routes, p).Some?
    ensures Decider(s.rules, s.routes, p).value.priority == j.Priority()
            <==> !DecidedBelow(s.rules, s.routes, p, j.Priority())
    ensures !DecidedBelow(s.rules, s.routes, p, j.Priority())
            && (forall r :: r in s.rules && r.priority == j.Priority() ==> r.table == j.table) ==>
              var route := Resolve(s.rules, s.routes, p);
              route.Some? && (OverProvider(route.value, j) || route.value.hop == Unreachable)
  {
    DeciderExact(s.rules, s.routes, p);
    assert Decides(s.routes, j, p.dst);
    var i :| 0 <= i < |s.rules| && s.rules[i] == j.PolicyRule();
    DeciderInOrder(s.rules, s.routes, p, i);
    DeciderIsLowest(s.rules, s.routes, p);
    var d := Decider(s.rules, s.routes, p).value;
    if DecidedBelow(s.rules, s.routes, p, j.Priority()) {
      var k :| 0 <= k < |s.rules| && s.rules[k].priority < j.Priority()
               && Applies(s.rules[k], p) && Lookup(s.routes, s.rules[k].table, p.dst).Some?;
      DeciderInOrder(s.rules, s.routes, p, k);
    }
  }

  /** The kernel's standard rule for the main table has priority 32766, below every managed priority: where the main
      table has a default route it decides every marked packet first, guarded or not. */
  lemma MainTableDecidesFirst(s: State, j: Job, main: nat, route: Route, p: Packet)
    requires j.Valid() && Sorted(s.rules) && IpRule(32766, Every, main) in s.rules
    requires route in s.routes && route.dst == DEFAULT && route.table == main && p.dst < ADDRESSES
    ensures DecidedBelow(s.rules, s.routes, p, j.Priority())
    ensures Decider(s.rules, s.routes, p).Some? && Decider(s.rules, s.routes, p).value.priority <= 32766 < j.Priority()
  {
    Blocks.PowerOf32();
    assert Serves(route, main, p.dst);
    var i :| 0 <= i < |s.rules| && s.rules[i] == IpRule(32766, Every, main);
    DeciderInOrder(s.rules, s.routes, p, i);
  }

  const MAIN := 254
  const MAIN_RULE := IpRule(32766, Every, MAIN)
  const MAIN_ROUTE := Route(DEFAULT, MAIN, 100, Via("eth0", "gw"))

  /** An instance: a node with a default route in its main table, then a guard.  The table is closed, and every packet
      with the deployment's mark leaves by the main table's route. */
  lemma MarkedPacketLeavesByMain(j: Job, p: Packet)
    requires j.Valid() && p.mark == j.mark && p.dst < ADDRESSES
    ensures var s := Guard(j, State([MAIN_RULE], [MAIN_ROUTE])).0;
            && FailClosed(s, j) && Sorted(s.rules)
            && Resolve(s.rules, s.routes, p) == Some(MAIN_ROUTE)
  {
    var before := State([MAIN_RULE], [MAIN_ROUTE]);
    var s := Guard(j, before).0;
    GuardEstablishes(j, Up, before);
    ClosedIsFailClosed(s, j);
    MainRules(j);
    GuardRoutes(j, before);
    assert MAIN_ROUTE in before.routes;
    OnlyRouteServes(s.routes, p.dst);
  }

  lemma MainRules(j: Job)
    requires j.Valid()
    ensures Guard(j, State([MAIN_RULE], [MAIN_ROUTE])).0.rules == [MAIN_RULE, j.PolicyRule()]
  {
    assert [MAIN_RULE][1..] == [] && DeleteExact([], j.PolicyRule()) == [];
    assert DeleteExact([MAIN_RULE], j.PolicyRule()) == [MAIN_RULE];
    assert InsertRule([], j.PolicyRule()) == [j.PolicyRule()];
    assert InsertRule([MAIN_RULE], j.PolicyRule()) == [MAIN_RULE] + [j.PolicyRule()];
  }

  lemma OnlyRouteServes(routes: seq<Route>, dst: nat)
    requires MAIN_ROUTE in routes && dst < ADDRESSES && forall r :: r in routes && r.table == MAIN ==> r == MAIN_ROUTE
    ensures Lookup(routes, MAIN, dst) == Some(MAIN_ROUTE)
  {
    Blocks.PowerOf32();
    assert Serves(MAIN_ROUTE, MAIN, dst);
  }
}
