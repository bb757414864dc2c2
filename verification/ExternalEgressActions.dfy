/** What a single guard, apply or cleanup of a deployment does to the kernel, told by membership and number of copies,
    and that a cleaned deployment leaves nothing behind. */
module ExternalEgressActions {
  import opened Common
  import Blocks
  import opened Kernel
  import opened ExternalEgress
  import RoutePolicyPlan
  import RP = RoutePolicyScript
  import RC = RoutePolicyConvergence

  function Copies(rules: seq<IpRule>, r: IpRule): nat {
    multiset(rules)[r]
  }

  // ---------------------------------------------------------------- copies of rules

  lemma DeleteExactCopies(rules: seq<IpRule>, r: IpRule)
    ensures forall x :: Copies(DeleteExact(rules, r), x) == Copies(rules, x) - if x == r && r in rules then 1 else 0
  {
    DeleteExactMultiset(rules, r);
    assert r in rules <==> r in multiset(rules);
  }

  lemma {:induction false} InsertCopies(rules: seq<IpRule>, r: IpRule)
    ensures multiset(InsertRule(rules, r)) == multiset(rules) + multiset{r}
  {
    if rules != [] && rules[0].priority <= r.priority {
      InsertCopies(rules[1..], r);
      assert rules == [rules[0]] + rules[1..];
    }
  }

  lemma {:induction false} ForeignCopies(rules: seq<IpRule>, x: IpRule)
    requires !RP.Managed(x)
    ensures Copies(RP.Foreign(rules), x) == Copies(rules, x)
  {
    if rules != [] {
      ForeignCopies(rules[1..], x);
      assert rules == [rules[0]] + rules[1..];
    }
  }

  lemma {:induction false} AddRulesCopies(rules: seq<IpRule>, steps: seq<RP.Placed>, x: IpRule)
    requires forall i :: 0 <= i < |steps| ==> RP.PolicyRule(steps[i].rule) != x
    ensures Copies(RP.AddRules(rules, steps), x) == Copies(rules, x)
    decreases |steps|
  {
    if steps != [] {
      InsertCopies(rules, RP.PolicyRule(steps[0].rule));
      AddRulesCopies(InsertRule(rules, RP.PolicyRule(steps[0].rule)), steps[1..], x);
    }
  }

  /** No step of a plan adds a deployment's rule. */
  lemma StepsAreManaged(p: RoutePolicyPlan.Plan, j: Job, i: nat)
    requires RoutePolicyPlan.WellFormed(p) && j.Valid() && i < |RP.Steps(p)|
    ensures RP.PolicyRule(RP.Steps(p)[i].rule) != j.PolicyRule()
  {
    var m := |p.system|;
    assert RP.Steps(p)[i].rule == if i < m then p.system[i] else p.client[i - m];
  }

  /** A route-policy run leaves the copies of a deployment's rule alone. */
  lemma PolicyRunCopies(s: State, p: RoutePolicyPlan.Plan, env: RP.Env, j: Job)
    requires RoutePolicyPlan.WellFormed(p) && j.Valid()
    ensures Copies(Step(s, RoutePolicyRun(p, env)).rules, j.PolicyRule()) == Copies(s.rules, j.PolicyRule())
  {
    var h := RP.Host(s.rules, s.routes, RP.Chains(None, None), false);
    ForeignCopies(s.rules, j.PolicyRule());
    if RP.StartOf(p, env) == RP.Started {
      RC.RulesOfRun(p, env, h);
      var done := RP.Steps(p)[..RP.ReadySteps(RP.Steps(p), env)];
      forall i | 0 <= i < |done|
        ensures RP.PolicyRule(done[i].rule) != j.PolicyRule()
      {
        StepsAreManaged(p, j, i);
      }
      AddRulesCopies(RP.Foreign(s.rules), done, j.PolicyRule());
    }
  }

  lemma PolicyCleanupCopies(s: State, snapshot: RoutePolicyPlan.Snapshot, env: RP.Env, j: Job)
    requires j.Valid()
    ensures Copies(Step(s, RoutePolicyCleanup(snapshot, env)).rules, j.PolicyRule()) == Copies(s.rules, j.PolicyRule())
  {
    ForeignCopies(s.rules, j.PolicyRule());
  }

  // ---------------------------------------------------------------- cleanup

  /** The rules other than `r`, in order. */
  function RulesBut(rules: seq<IpRule>, r: IpRule): seq<IpRule> {
    if rules == [] then [] else (if rules[0] == r then [] else [rules[0]]) + RulesBut(rules[1..], r)
  }

  lemma {:induction false} DeleteExactOrder(rules: seq<IpRule>, r: IpRule)
    ensures RulesBut(DeleteExact(rules, r), r) == RulesBut(rules, r)
  {
    if rules != [] && rules[0] != r {
      DeleteExactOrder(rules[1..], r);
      assert DeleteExact(rules, r)[1..] == DeleteExact(rules[1..], r);
    }
  }

  lemma {:induction false} FlushCopies(routes: seq<Route>, table: nat)
    ensures forall r: Route :: multiset(FlushTable(routes, table))[r] == if r.table == table then 0
            else multiset(routes)[r]
  {
    if routes != [] {
      FlushCopies(routes[1..], table);
      assert routes == [routes[0]] + routes[1..];
    }
  }

  /** A cleanup removes every route of the deployment's table and one copy of its policy rule; all other routes and
      rules stay, the rules in their order.  The one deletion suffices if and only if there was at most one copy. */
  lemma CleanupExactly(s: State, j: Job)
    ensures var t := Step(s, CleanupJob(j));
            && (forall r :: r in t.routes <==> r in s.routes && r.table != j.table)
            && (forall r: Route :: r.table != j.table ==> multiset(t.routes)[r] == multiset(s.routes)[r])
            && (forall x :: Copies(t.rules, x)
                            == Copies(s.rules, x) - if x == j.PolicyRule() && x in s.rules then 1 else 0)
            && RulesBut(t.rules, j.PolicyRule()) == RulesBut(s.rules, j.PolicyRule())
            && (j.PolicyRule() !in t.rules <==> Copies(s.rules, j.PolicyRule()) <= 1)
  {
    FlushTableMembers(s.routes, j.table);
    FlushCopies(s.routes, j.table);
    DeleteExactCopies(s.rules, j.PolicyRule());
    DeleteExactOrder(s.rules, j.PolicyRule());
    assert j.PolicyRule() in Step(s, CleanupJob(j)).rules <==> Copies(Step(s, CleanupJob(j)).rules, j.PolicyRule()) > 0;
  }

  // ---------------------------------------------------------------- guard and apply

  /** A guard succeeds if and only if there was at most one copy of the policy rule; then there is exactly one. */
  lemma GuardSucceedsIff(s: State, j: Job)
    ensures Guard(j, s).1 <==> Copies(s.rules, j.PolicyRule()) <= 1
    ensures Guard(j, s).1 ==> Copies(Guard(j, s).0.rules, j.PolicyRule()) == 1
    ensures forall x :: x != j.PolicyRule() ==> Copies(Guard(j, s).0.rules, x) == Copies(s.rules, x)
    ensures Copies(Guard(j, s).0.rules, j.PolicyRule()) <= if Copies(s.rules, j.PolicyRule()) <= 1 then 1
                                                           else Copies(s.rules, j.PolicyRule())
  {
    var left := DeleteExact(s.rules, j.PolicyRule());
    DeleteExactCopies(s.rules, j.PolicyRule());
    InsertCopies(left, j.PolicyRule());
    assert j.PolicyRule() in left <==> Copies(left, j.PolicyRule()) > 0;
    assert j.PolicyRule() in s.rules <==> Copies(s.rules, j.PolicyRule()) > 0;
  }

  /** After an apply the table sends every destination to the provider if the guard succeeded and the waiting ended
      well, and makes it unreachable otherwise. */
  lemma ApplyDecides(s: State, j: Job, wait: Wait, dst: nat)
    requires j.Valid() && dst < ADDRESSES
    ensures Lookup(ApplyScript(j, wait, s).routes, j.table, dst)
            == Some(if Guard(j, s).1 && Ready(j, wait) then j.Provider() else j.Fallback())
  {
    var kept, end := FlushTable(s.routes, j.table), ApplyScript(j, wait, s).routes;
    ApplyRoutes(s, j, wait);
    FlushTableMembers(s.routes, j.table);
    assert j.Fallback() in [j.Fallback()] && j.Provider() in [j.Provider()]
        && j.Provider() in [j.Fallback(), j.Provider()];
    DecidedBy(end, j, if Guard(j, s).1 && Ready(j, wait) then j.Provider() else j.Fallback(), dst);
  }

  /** A default route decides when nothing else in its table does but perhaps the worse fallback. */
  lemma DecidedBy(routes: seq<Route>, j: Job, best: Route, dst: nat)
    requires best in routes && best.dst == DEFAULT && best.table == j.table && dst < ADDRESSES
    requires forall r :: r in routes && r.table == j.table ==>
               r == best || (r == j.Fallback() && best.metric < FALLBACK_METRIC)
    ensures Lookup(routes, j.table, dst) == Some(best)
  {
    Blocks.PowerOf32();
    assert Serves(best, j.table, dst);
    assert best.metric < FALLBACK_METRIC ==> Better(best, j.Fallback());
  }

  /** The routes after an apply: those of other tables in their order, the fallback, and the provider's route, which
      takes the fallback's place when it has its metric. */
  lemma ApplyRoutes(s: State, j: Job, wait: Wait)
    ensures ApplyScript(j, wait, s).routes
            == FlushTable(s.routes, j.table)
               + if !(Guard(j, s).1 && Ready(j, wait)) then [j.Fallback()]
                 else if j.metric == FALLBACK_METRIC then [j.Provider()] else [j.Fallback(), j.Provider()]
  {
    var kept := FlushTable(s.routes, j.table);
    FlushTableMembers(s.routes, j.table);
    RC.ReplaceBehind(kept, [], j.Fallback());
    assert kept + [] == kept;
    assert ReplaceRoute([], j.Fallback()) == [j.Fallback()];
    RC.ReplaceBehind(kept, [j.Fallback()], j.Provider());
    assert [j.Fallback()][1..] == [];
    assert ReplaceRoute([], j.Provider()) == [j.Provider()];
    assert ReplaceRoute([j.Fallback()], j.Provider())
           == if j.metric == FALLBACK_METRIC then [j.Provider()] + [] else [j.Fallback()] + [j.Provider()];
  }

  // ---------------------------------------------------------------- a cleaned deployment over runs

  /** Plans are rendered ones. */
  predicate Rendered(e: Event) {
    e.RoutePolicyRun? ==> RoutePolicyPlan.WellFormed(e.plan)
  }

  /** Every event leaves at most one copy of a deployment's rule where there was at most one. */
  lemma OneCopyStays(s: State, e: Event, j: Job)
    requires j.Valid() && Rendered(e) && Copies(s.rules, j.PolicyRule()) <= 1
    ensures Copies(Step(s, e).rules, j.PolicyRule()) <= 1
  {
    match e
    case GuardJob(k) => GuardSucceedsIff(s, k);
    case ApplyJob(k, _) => GuardSucceedsIff(s, k);
    case CleanupJob(k) => DeleteExactCopies(s.rules, k.PolicyRule());
    case LoseLink(_) =>
    case RoutePolicyRun(p, env) => PolicyRunCopies(s, p, env, j);
    case RoutePolicyCleanup(snapshot, env) => PolicyCleanupCopies(s, snapshot, env, j);
  }

  lemma {:induction false} OneCopyOverRun(s: State, events: seq<Event>, j: Job)
    requires j.Valid() && Copies(s.rules, j.PolicyRule()) <= 1 && forall i :: 0 <= i < |events| ==> Rendered(events[i])
    ensures Copies(After(s, events).rules, j.PolicyRule()) <= 1
    decreases |events|
  {
    if events != [] {
      OneCopyOverRun(s, events[..|events| - 1], j);
      OneCopyStays(After(s, events[..|events| - 1]), events[|events| - 1], j);
    }
  }

  /** The event puts nothing into the deployment's table. */
  predicate Aloof(e: Event, j: Job) {
    match e
    case GuardJob(k) => k.table != j.table
    case ApplyJob(k, _) => k.table != j.table
    case RoutePolicyRun(p, _) => forall t :: t in p.targets ==> t.table != j.table
    case _ => true
  }

  /** Nothing of the deployment is in the kernel. */
  predicate Gone(s: State, j: Job) {
    j.PolicyRule() !in s.rules && forall r :: r in s.routes ==> r.table != j.table
  }

  lemma GoneStays(s: State, e: Event, j: Job)
    requires j.Valid() && Rendered(e) && Aloof(e, j) && Gone(s, j)
    ensures Gone(Step(s, e), j)
  {
    assert Copies(s.rules, j.PolicyRule()) == 0;
    match e
    case GuardJob(k) =>
      GuardSucceedsIff(s, k);
      GuardRoutes(k, s);
      assert Copies(Guard(k, s).0.rules, j.PolicyRule()) == 0;
    case ApplyJob(k, wait) =>
      GuardSucceedsIff(s, k);
      ApplyRoutes(s, k, wait);
      FlushTableMembers(s.routes, k.table);
      assert Copies(Guard(k, s).0.rules, j.PolicyRule()) == 0;
    case CleanupJob(k) =>
      CleanupExactly(s, k);
    case LoseLink(dev) =>
      LoseInterfaceMembers(s.routes, dev);
    case RoutePolicyRun(p, env) =>
      PolicyRunCopies(s, p, env, j);
      assert Copies(Step(s, e).rules, j.PolicyRule()) == 0;
      RoutePolicyFrame(p, env, s);
      FreshElsewhere(p, env, j);
    case RoutePolicyCleanup(snapshot, env) =>
      PolicyCleanupCopies(s, snapshot, env, j);
      assert Copies(Step(s, e).rules, j.PolicyRule()) == 0;
      CleanupFrame(snapshot, env, s);
  }

  lemma FreshElsewhere(p: RoutePolicyPlan.Plan, env: RP.Env, j: Job)
    requires RoutePolicyPlan.WellFormed(p) && forall t :: t in p.targets ==> t.table != j.table
    ensures forall r :: r in RC.Fresh(p, env) ==> r.table != j.table
  {
    forall r | r in RC.Fresh(p, env)
      ensures r.table != j.table
    {
      RC.FreshAtTargets(p, env);
      var i :| 0 <= i < |RC.Fresh(p, env)| && RC.Fresh(p, env)[i] == r;
      assert RC.Fresh(p, env)[i].At() in RP.TargetSet(p.targets);
    }
  }

  /** Cleanup is complete over runs: after a run whose last own event is the deployment's cleanup, nothing of it is in
      the kernel, provided that it started with at most one copy of the policy rule. */
  lemma {:induction false} CleanupIsComplete(s: State, events: seq<Event>, g: nat, j: Job)
    requires j.Valid() && Copies(s.rules, j.PolicyRule()) <= 1 && g < |events| && events[g] == CleanupJob(j)
    requires forall i :: 0 <= i < |events| ==> Rendered(events[i]) && (i > g ==> Aloof(events[i], j))
    ensures Gone(After(s, events), j)
    decreases |events|
  {
    var front, e := events[..|events| - 1], events[|events| - 1];
    if g == |events| - 1 {
      OneCopyOverRun(s, front, j);
      CleanupExactly(After(s, front), j);
    } else {
      CleanupIsComplete(s, front, g, j);
      GoneStays(After(s, front), e, j);
    }
  }
}
