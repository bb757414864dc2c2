/** What one run of the route-policy script achieves: convergence, idempotence, the routes it installs, and how a packet
    is routed afterwards. */
module RoutePolicyConvergence {
  import opened Common
  import opened Kernel
  import opened RoutePolicyPlan
  import opened RoutePolicyScript

  // ---------------------------------------------------------------- ip rules

  /** The rules in the two reserved priority ranges. */
  function Inside(rules: seq<IpRule>): seq<IpRule> {
    if rules == [] then [] else (if Managed(rules[0]) then [rules[0]] else []) + Inside(rules[1..])
  }

  function PolicyRules(steps: seq<Placed>): seq<IpRule> {
    seq(|steps|, i requires 0 <= i < |steps| => PolicyRule(steps[i].rule))
  }

  lemma {:induction false} InsideNone(rules: seq<IpRule>)
    requires forall i :: 0 <= i < |rules| ==> !Managed(rules[i])
    ensures Inside(rules) == []
  {
    if rules != [] {
      InsideNone(rules[1..]);
    }
  }

  lemma {:induction false} InsideOfForeign(rules: seq<IpRule>)
    ensures Inside(Foreign(rules)) == []
    ensures Foreign(Foreign(rules)) == Foreign(rules)
  {
    if rules != [] {
      InsideOfForeign(rules[1..]);
      if !Managed(rules[0]) {
        assert Foreign(rules) == [rules[0]] + Foreign(rules[1..]);
        assert ([rules[0]] + Foreign(rules[1..]))[1..] == Foreign(rules[1..]);
      } else {
        assert Foreign(rules) == Foreign(rules[1..]);
      }
    }
  }

  lemma {:induction false} SortedForeign(rules: seq<IpRule>)
    requires Sorted(rules)
    ensures Sorted(Foreign(rules))
  {
    if rules != [] {
      SortedForeign(rules[1..]);
      ForeignMembers(rules[1..]);
      var tail := Foreign(rules[1..]);
      forall i | 0 <= i < |tail|
        ensures rules[0].priority <= tail[i].priority
      {
        assert tail[i] in rules[1..];
      }
    }
  }

  lemma {:induction false} ForeignInsert(rules: seq<IpRule>, r: IpRule)
    requires Managed(r)
    ensures Foreign(InsertRule(rules, r)) == Foreign(rules)
  {
    if rules == [] || rules[0].priority > r.priority {
      assert ([r] + rules)[1..] == rules;
    } else {
      ForeignInsert(rules[1..], r);
      assert InsertRule(rules, r)[1..] == InsertRule(rules[1..], r);
    }
  }

  /** Every managed rule has a priority below `n`. */
  predicate Below(rules: seq<IpRule>, n: nat) {
    forall i :: 0 <= i < |rules| && Managed(rules[i]) ==> rules[i].priority < n
  }

  lemma {:induction false} BelowInsert(rules: seq<IpRule>, r: IpRule, n: nat)
    requires Below(rules, r.priority) && r.priority < n
    ensures Below(InsertRule(rules, r), n)
  {
    if rules != [] && rules[0].priority <= r.priority {
      BelowInsert(rules[1..], r, n);
    }
  }

  /** A managed rule above all managed ones goes behind them. */
  lemma {:induction false} InsideInsert(rules: seq<IpRule>, r: IpRule)
    requires Sorted(rules) && Managed(r) && Below(rules, r.priority)
    ensures Inside(InsertRule(rules, r)) == Inside(rules) + [r]
  {
    if rules == [] || rules[0].priority > r.priority {
      InsideNone(rules);
      assert ([r] + rules)[1..] == rules;
    } else {
      InsideInsert(rules[1..], r);
      assert InsertRule(rules, r)[1..] == InsertRule(rules[1..], r);
    }
  }

  predicate Ascending(steps: seq<Placed>) {
    && (forall i :: 0 <= i < |steps| ==> Managed(PolicyRule(steps[i].rule)))
    && (forall i, j :: 0 <= i < j < |steps| ==> steps[i].rule.priority < steps[j].rule.priority)
  }

  lemma Regroup(a: seq<IpRule>, b: seq<IpRule>, c: seq<IpRule>)
    ensures a + b + c == a + (b + c)
  {
  }

  /** One insertion: the rule goes behind the managed ones, and the others keep their place. */
  lemma AddOneEffect(rules: seq<IpRule>, r: IpRule)
    requires Sorted(rules) && Managed(r) && Below(rules, r.priority)
    ensures var next := InsertRule(rules, r);
            && Inside(next) == Inside(rules) + [r] && Foreign(next) == Foreign(rules) && Sorted(next)
            && forall n: nat :: r.priority < n ==> Below(next, n)
  {
    InsideInsert(rules, r);
    ForeignInsert(rules, r);
    InsertKeepsOrder(rules, r);
    forall n: nat | r.priority < n
      ensures Below(InsertRule(rules, r), n)
    {
      BelowInsert(rules, r, n);
    }
  }

  lemma AscendingTail(steps: seq<Placed>)
    requires Ascending(steps) && steps != []
    ensures Managed(PolicyRule(steps[0].rule)) && Ascending(steps[1..])
    ensures |steps| > 1 ==> steps[0].rule.priority < steps[1].rule.priority
    ensures PolicyRules(steps) == [PolicyRule(steps[0].rule)] + PolicyRules(steps[1..])
  {
  }

  lemma {:induction false} AddRulesEffect(rules: seq<IpRule>, steps: seq<Placed>)
    requires Sorted(rules) && Ascending(steps)
    requires steps != [] ==> Below(rules, steps[0].rule.priority)
    ensures Inside(AddRules(rules, steps)) == Inside(rules) + PolicyRules(steps)
    ensures Foreign(AddRules(rules, steps)) == Foreign(rules)
    ensures Sorted(AddRules(rules, steps))
    decreases |steps|
  {
    if steps == [] {
      assert Inside(rules) + [] == Inside(rules);
    } else {
      var r := PolicyRule(steps[0].rule);
      AscendingTail(steps);
      AddOneEffect(rules, r);
      AddRulesEffect(InsertRule(rules, r), steps[1..]);
      Regroup(Inside(rules), [r], PolicyRules(steps[1..]));
    }
  }

  lemma StepsAscend(p: Plan, n: nat)
    requires WellFormed(p) && n <= |Steps(p)|
    ensures Ascending(Steps(p)[..n])
  {
    var steps, m := Steps(p), |p.system|;
    assert forall i :: 0 <= i < |steps| ==> steps[i].rule == if i < m then p.system[i] else p.client[i - m];
  }

  // ---------------------------------------------------------------- routes

  /** One candidate tried for one destination. */
  datatype Attempt = Attempt(dst: Prefix, candidate: Candidate) {
    function Route(): Route {
      RouteOf(dst, candidate)
    }

    function Where(): Target {
      Target(dst, candidate.table)
    }
  }

  function Attempts(dst: Prefix, cs: seq<Candidate>): (s: seq<Attempt>)
    ensures |s| == |cs| && forall i :: 0 <= i < |s| ==> s[i] == Attempt(dst, cs[i])
  {
    seq(|cs|, i requires 0 <= i < |cs| => Attempt(dst, cs[i]))
  }

  /** Everything a run tries, up to and including the first rule without a ready candidate. */
  function Tried(steps: seq<Placed>, env: Env): seq<Attempt> {
    if steps == [] then []
    else
      var head := Attempts(steps[0].rule.destination, steps[0].rule.candidates);
      if AnyReady(steps[0].rule.candidates, env) then head + Tried(steps[1..], env) else head
  }

  function TryList(routes: seq<Route>, list: seq<Attempt>, env: Env): seq<Route> {
    if list == [] then routes
    else
      var a := list[|list| - 1];
      TryRoute(TryList(routes, list[..|list| - 1], env), a.dst, a.candidate, env)
  }

  lemma {:induction false} TryListAppend(routes: seq<Route>, x: seq<Attempt>, y: seq<Attempt>, env: Env)
    ensures TryList(routes, x + y, env) == TryList(TryList(routes, x, env), y, env)
    decreases |y|
  {
    if y == [] {
      assert x + y == x;
    } else {
      assert (x + y)[..|x + y| - 1] == x + y[..|y| - 1] && (x + y)[|x + y| - 1] == y[|y| - 1];
      TryListAppend(routes, x, y[..|y| - 1], env);
    }
  }

  lemma {:induction false} TryAllIsList(routes: seq<Route>, dst: Prefix, cs: seq<Candidate>, env: Env)
    ensures TryAll(routes, dst, cs, env) == TryList(routes, Attempts(dst, cs), env)
    decreases |cs|
  {
    if cs == [] {
      assert Attempts(dst, cs) == [];
    } else {
      var first := [Attempt(dst, cs[0])];
      assert Attempts(dst, cs) == first + Attempts(dst, cs[1..]);
      TryListAppend(routes, first, Attempts(dst, cs[1..]), env);
      assert first[..0] == [];
      TryAllIsList(TryRoute(routes, dst, cs[0], env), dst, cs[1..], env);
    }
  }

  lemma {:induction false} InstalledIsList(routes: seq<Route>, steps: seq<Placed>, env: Env)
    ensures Installed(routes, steps, env) == TryList(routes, Tried(steps, env), env)
    decreases |steps|
  {
    if steps != [] {
      var head := Attempts(steps[0].rule.destination, steps[0].rule.candidates);
      TryAllIsList(routes, steps[0].rule.destination, steps[0].rule.candidates, env);
      if AnyReady(steps[0].rule.candidates, env) {
        InstalledIsList(TryList(routes, head, env), steps[1..], env);
        TryListAppend(routes, head, Tried(steps[1..], env), env);
      }
    }
  }

  /** The routes a run installs, whatever was there before. */
  function Fresh(p: Plan, env: Env): seq<Route> {
    TryList([], Tried(Steps(p), env), env)
  }

  lemma {:induction false} ReplaceBehind(keep: seq<Route>, x: seq<Route>, r: Route)
    requires forall k :: k in keep ==> k.At() != r.At()
    ensures ReplaceRoute(keep + x, r) == keep + ReplaceRoute(x, r)
    decreases |keep|
  {
    if keep == [] {
      assert keep + x == x && [] + ReplaceRoute(x, r) == ReplaceRoute(x, r);
    } else {
      assert keep[0] in keep && forall k :: k in keep[1..] ==> k in keep;
      assert (keep + x)[0] == keep[0] && (keep + x)[1..] == keep[1..] + x;
      ReplaceBehind(keep[1..], x, r);
      assert keep == [keep[0]] + keep[1..];
    }
  }

  lemma {:induction false} DeleteBehind(keep: seq<Route>, x: seq<Route>, dst: Prefix, c: Candidate)
    requires forall k :: k in keep ==> k.At() != Target(dst, c.table)
    ensures DeleteCandidate(keep + x, dst, c) == keep + DeleteCandidate(x, dst, c)
    decreases |keep|
  {
    if keep == [] {
      assert keep + x == x && [] + DeleteCandidate(x, dst, c) == DeleteCandidate(x, dst, c);
    } else {
      assert keep[0] in keep && forall k :: k in keep[1..] ==> k in keep;
      assert (keep + x)[0] == keep[0] && (keep + x)[1..] == keep[1..] + x;
      DeleteBehind(keep[1..], x, dst, c);
      assert keep == [keep[0]] + keep[1..];
    }
  }

  /** Trying candidates of flushed destinations does not touch the routes elsewhere. */
  lemma {:induction false} TryBehind(keep: seq<Route>, list: seq<Attempt>, env: Env)
    requires forall k, i :: k in keep && 0 <= i < |list| ==> k.At() != list[i].Where()
    ensures TryList(keep, list, env) == keep + TryList([], list, env)
    decreases |list|
  {
    if list == [] {
      assert keep + [] == keep;
    } else {
      var front, a := list[..|list| - 1], list[|list| - 1];
      TryBehind(keep, front, env);
      if env.Ready(a.candidate) {
        ReplaceBehind(keep, TryList([], front, env), a.Route());
      } else {
        DeleteBehind(keep, TryList([], front, env), a.dst, a.candidate);
      }
    }
  }

  lemma {:induction false} TriedSource(steps: seq<Placed>, env: Env, i: nat)
    requires i < |Tried(steps, env)|
    requires forall k :: 0 <= k < |steps| ==> Usable(steps[k].rule)
    ensures exists k :: 0 <= k < |steps| && Tried(steps, env)[i].Where() == steps[k].rule.Where()
                        && Tried(steps, env)[i].candidate in steps[k].rule.candidates
    decreases |steps|
  {
    var head := Attempts(steps[0].rule.destination, steps[0].rule.candidates);
    if i < |head| {
      assert Tried(steps, env)[i] == head[i] && Usable(steps[0].rule);
    } else {
      assert forall k :: 0 <= k < |steps[1..]| ==> steps[1..][k] == steps[k + 1];
      TriedSource(steps[1..], env, i - |head|);
      var k :| 0 <= k < |steps[1..]| && Tried(steps[1..], env)[i - |head|].Where() == steps[1..][k].rule.Where()
               && Tried(steps[1..], env)[i - |head|].candidate in steps[1..][k].rule.candidates;
      assert Tried(steps, env)[i] == Tried(steps[1..], env)[i - |head|];
      assert steps[k + 1] == steps[1..][k];
    }
  }

  lemma StepUsable(p: Plan)
    requires WellFormed(p)
    ensures forall k :: 0 <= k < |Steps(p)| ==> Usable(Steps(p)[k].rule) && Steps(p)[k].rule.Where() in p.targets
  {
    var steps, m := Steps(p), |p.system|;
    forall k | 0 <= k < |steps|
      ensures Usable(steps[k].rule) && steps[k].rule.Where() in p.targets
    {
      if k < m {
        assert steps[k].rule == p.system[k];
      } else {
        assert steps[k].rule == p.client[k - m];
      }
    }
  }

  lemma TriedAreTargets(p: Plan, env: Env, i: nat)
    requires WellFormed(p) && i < |Tried(Steps(p), env)|
    ensures Tried(Steps(p), env)[i].Where() in p.targets
  {
    StepUsable(p);
    TriedSource(Steps(p), env, i);
  }

  /** The routes after a run: those away from the plan's targets, in their order, then the plan's own. */
  lemma RoutesAfter(p: Plan, env: Env, h: Host)
    requires WellFormed(p) && StartOf(p, env) == Started
    ensures Meaning(p, env, h).0.routes == Without(h.routes, TargetSet(p.targets)) + Fresh(p, env)
  {
    var keep, list := Without(h.routes, TargetSet(p.targets)), Tried(Steps(p), env);
    InstalledIsList(keep, Steps(p), env);
    WithoutMembers(h.routes, TargetSet(p.targets));
    forall k, i | k in keep && 0 <= i < |list|
      ensures k.At() != list[i].Where()
    {
      TriedAreTargets(p, env, i);
    }
    TryBehind(keep, list, env);
    if Steps(p) == [] {
      assert keep + [] == keep;
    }
  }

  // ---------------------------------------------------------------- convergence

  /** From every prior kernel state, a run that gets past its preamble leaves in the reserved ranges exactly one rule
      per ready plan rule and in the chains exactly their marks, in order, where the ready rules are those before the
      first rule without a ready candidate; foreign rules and routes elsewhere keep their place; and the run completes
      exactly when every plan rule is ready. */
  lemma Converges(p: Plan, env: Env, h: Host)
    requires WellFormed(p) && Sorted(h.rules) && StartOf(p, env) == Started
    ensures var (k, completed) := Meaning(p, env, h);
            var done := Steps(p)[..ReadySteps(Steps(p), env)];
            && Inside(k.rules) == PolicyRules(done)
            && Foreign(k.rules) == Foreign(h.rules) && Sorted(k.rules)
            && (Steps(p) != [] ==> k.chains == Chains(Some(Marks(done, Prerouting)), Some(Marks(done, Output))))
            && (Steps(p) == [] && env.hasNft ==> k.chains == h.chains.Emptied(Prerouting).Emptied(Output))
            && k.routes == Without(h.routes, TargetSet(p.targets)) + Fresh(p, env)
            && (completed <==> done == Steps(p))
  {
    RoutesAfter(p, env, h);
    RulesAfter(p, env, h);
    ChainsAfter(p, env, h);
    assert Steps(p)[..|Steps(p)|] == Steps(p);
  }

  /** A run gets past its preamble if and only if ip is there, forwarding can be switched on when client rules need it,
      and nft is there when any rule does.  It then leaves forwarding on for client rules.  Otherwise it fails without
      touching routes and chains: without nft it has removed the managed rules, else it changed nothing at all. */
  lemma StartedIff(p: Plan, env: Env, h: Host)
    ensures var (k, completed) := Meaning(p, env, h);
            var forwards := p.client != [] ==> env.canForward;
            && (StartOf(p, env) == Started <==>
                  env.hasIp && forwards && (p.system != [] || p.client != [] ==> env.hasNft))
            && (StartOf(p, env) == Started ==> k.forwarding == (h.forwarding || p.client != []))
            && (StartOf(p, env) != Started ==>
                  && !completed && k.routes == h.routes && k.chains == h.chains
                  && k.rules == if env.hasIp && forwards then Foreign(h.rules) else h.rules)
            && (!env.hasIp || !forwards ==> k == h)
  {
    assert |Steps(p)| == |p.system| + |p.client|;
  }

  /** Adding ascending managed rules to the foreign ones. */
  lemma AddedToForeign(rules: seq<IpRule>, steps: seq<Placed>)
    requires Sorted(rules) && Ascending(steps)
    ensures var next := AddRules(Foreign(rules), steps);
            Inside(next) == PolicyRules(steps) && Foreign(next) == Foreign(rules) && Sorted(next)
  {
    var base := Foreign(rules);
    SortedForeign(rules);
    InsideOfForeign(rules);
    ForeignMembers(rules);
    forall i | 0 <= i < |base|
      ensures !Managed(base[i])
    {
      assert base[i] in base;
    }
    AddRulesEffect(base, steps);
    assert [] + PolicyRules(steps) == PolicyRules(steps);
  }

  lemma RulesOfRun(p: Plan, env: Env, h: Host)
    requires StartOf(p, env) == Started
    ensures Meaning(p, env, h).0.rules == AddRules(Foreign(h.rules), Steps(p)[..ReadySteps(Steps(p), env)])
  {
  }

  lemma RulesAfter(p: Plan, env: Env, h: Host)
    requires WellFormed(p) && Sorted(h.rules) && StartOf(p, env) == Started
    ensures var k, done := Meaning(p, env, h).0, Steps(p)[..ReadySteps(Steps(p), env)];
            Inside(k.rules) == PolicyRules(done) && Foreign(k.rules) == Foreign(h.rules) && Sorted(k.rules)
  {
    RulesOfRun(p, env, h);
    StepsAscend(p, ReadySteps(Steps(p), env));
    AddedToForeign(h.rules, Steps(p)[..ReadySteps(Steps(p), env)]);
  }

  lemma ChainsAfter(p: Plan, env: Env, h: Host)
    requires StartOf(p, env) == Started
    ensures var k, done := Meaning(p, env, h).0, Steps(p)[..ReadySteps(Steps(p), env)];
            && (Steps(p) != [] ==> k.chains == Chains(Some(Marks(done, Prerouting)), Some(Marks(done, Output))))
            && (Steps(p) == [] && env.hasNft ==> k.chains == h.chains.Emptied(Prerouting).Emptied(Output))
  {
    var done := Steps(p)[..ReadySteps(Steps(p), env)];
    assert [] + Marks(done, Prerouting) == Marks(done, Prerouting);
    assert [] + Marks(done, Output) == Marks(done, Output);
  }

  lemma {:induction false} FreshAreTried(list: seq<Attempt>, env: Env)
    ensures forall r :: r in TryList([], list, env) ==> exists i :: 0 <= i < |list| && list[i].Where() == r.At()
    decreases |list|
  {
    if list != [] {
      var front, a := list[..|list| - 1], list[|list| - 1];
      FreshAreTried(front, env);
      var before := TryList([], front, env);
      ReplaceMembers(before, a.Route());
      DeleteMembers(before, a.dst, a.candidate);
      forall r | r in TryList([], list, env)
        ensures exists i :: 0 <= i < |list| && list[i].Where() == r.At()
      {
        if r in before {
          var i :| 0 <= i < |front| && front[i].Where() == r.At();
          assert list[i].Where() == r.At();
        } else {
          assert list[|list| - 1].Where() == r.At();
        }
      }
    }
  }

  lemma {:induction false} DeleteMembers(routes: seq<Route>, dst: Prefix, c: Candidate)
    ensures forall x :: x in DeleteCandidate(routes, dst, c) ==> x in routes
    ensures forall x :: x in routes && !Deletes(dst, c, x) ==> x in DeleteCandidate(routes, dst, c)
  {
    if routes != [] {
      DeleteMembers(routes[1..], dst, c);
      assert forall x :: x in routes <==> x == routes[0] || x in routes[1..];
    }
  }

  lemma FreshAtTargets(p: Plan, env: Env)
    requires WellFormed(p)
    ensures forall i :: 0 <= i < |Fresh(p, env)| ==> Fresh(p, env)[i].At() in TargetSet(p.targets)
  {
    var list := Tried(Steps(p), env);
    FreshAreTried(list, env);
    forall i | 0 <= i < |Fresh(p, env)|
      ensures Fresh(p, env)[i].At() in TargetSet(p.targets)
    {
      var r := Fresh(p, env)[i];
      assert r in Fresh(p, env);
      var j :| 0 <= j < |list| && list[j].Where() == r.At();
      TriedAreTargets(p, env, j);
    }
  }

  /** A run that starts depends on the kernel only through what its preamble and flush stage leave of it. */
  lemma SameStart(p: Plan, env: Env, h: Host, k: Host)
    requires StartOf(p, env) == Started && Foreign(h.rules) == Foreign(k.rules)
    requires Without(h.routes, TargetSet(p.targets)) == Without(k.routes, TargetSet(p.targets))
    requires CleanChains(p, env, h.chains) == CleanChains(p, env, k.chains)
    requires h.forwarding || p.client != [] <==> k.forwarding || p.client != []
    ensures Meaning(p, env, h) == Meaning(p, env, k)
  {
  }

  /** Flushing the targets again gives what the first flush gave. */
  lemma FlushedAgain(p: Plan, env: Env, h: Host)
    requires WellFormed(p) && StartOf(p, env) == Started
    ensures Without(Meaning(p, env, h).0.routes, TargetSet(p.targets)) == Without(h.routes, TargetSet(p.targets))
  {
    var keep, targets := Without(h.routes, TargetSet(p.targets)), TargetSet(p.targets);
    RoutesAfter(p, env, h);
    WithoutAppend(keep, Fresh(p, env), targets);
    WithoutTwice(h.routes, targets, targets);
    assert targets + targets == targets;
    FreshAtTargets(p, env);
    WithoutNone(Fresh(p, env), targets);
    assert keep + [] == keep;
  }

  lemma StartedAgain(p: Plan, env: Env, h: Host)
    requires WellFormed(p) && Sorted(h.rules) && StartOf(p, env) == Started
    ensures Meaning(p, env, Meaning(p, env, h).0) == Meaning(p, env, h)
  {
    Converges(p, env, h);
    FlushedAgain(p, env, h);
    var k := Meaning(p, env, h).0;
    assert Steps(p) == [] && !env.hasNft ==> k.chains == h.chains;
    assert k.forwarding == (h.forwarding || p.client != []);
    SameStart(p, env, k, h);
  }

  /** Running the script again in the same environment changes nothing, whether or not it completes. */
  lemma SecondRunChangesNothing(p: Plan, env: Env, h: Host)
    requires WellFormed(p) && Sorted(h.rules)
    ensures Meaning(p, env, Meaning(p, env, h).0) == Meaning(p, env, h)
  {
    if StartOf(p, env) == Started {
      StartedAgain(p, env, h);
    } else {
      InsideOfForeign(h.rules);
    }
  }

  // ---------------------------------------------------------------- which routes are installed

  predicate UniqueKeys(routes: seq<Route>) {
    forall i, j :: 0 <= i < j < |routes| ==> !SameKey(routes[i], routes[j])
  }

  /** The attempt takes the place of a route or deletes it. */
  predicate Displaces(a: Attempt, r: Route, env: Env) {
    if env.Ready(a.candidate) then SameKey(a.Route(), r) else Deletes(a.dst, a.candidate, r)
  }

  /** A ready attempt whose route no later attempt displaces. */
  predicate SurvivesAt(list: seq<Attempt>, env: Env, r: Route, i: nat)
    requires i < |list|
  {
    env.Ready(list[i].candidate) && list[i].Route() == r && forall j :: i < j < |list| ==> !Displaces(list[j], r, env)
  }

  predicate Survives(list: seq<Attempt>, env: Env, r: Route) {
    exists i :: 0 <= i < |list| && SurvivesAt(list, env, r, i)
  }

  lemma {:induction false} ReplaceUnique(routes: seq<Route>, r: Route)
    requires UniqueKeys(routes)
    ensures UniqueKeys(ReplaceRoute(routes, r))
    ensures forall x :: x in ReplaceRoute(routes, r) <==> x == r || (x in routes && !SameKey(x, r))
  {
    if routes != [] {
      var tail := routes[1..];
      ReplaceUnique(tail, r);
      assert forall x :: x in routes <==> x == routes[0] || x in tail;
      assert forall x :: x in tail ==> !SameKey(routes[0], x) by {
        forall x | x in tail
          ensures !SameKey(routes[0], x)
        {
          var i :| 0 <= i < |tail| && tail[i] == x;
          assert routes[i + 1] == x;
        }
      }
      if !SameKey(routes[0], r) {
        var out := ReplaceRoute(tail, r);
        forall i | 0 <= i < |out|
          ensures !SameKey(routes[0], out[i])
        {
          assert out[i] in out;
        }
      }
    }
  }

  lemma {:induction false} DeleteUnique(routes: seq<Route>, dst: Prefix, c: Candidate)
    requires UniqueKeys(routes)
    ensures UniqueKeys(DeleteCandidate(routes, dst, c))
    ensures forall x :: x in DeleteCandidate(routes, dst, c) <==> x in routes && !Deletes(dst, c, x)
  {
    if routes != [] {
      var tail := routes[1..];
      DeleteUnique(tail, dst, c);
      assert forall x :: x in routes <==> x == routes[0] || x in tail;
      forall x | x in tail
        ensures !SameKey(routes[0], x)
      {
        var i :| 0 <= i < |tail| && tail[i] == x;
        assert routes[i + 1] == x;
      }
      if !Deletes(dst, c, routes[0]) {
        var out := DeleteCandidate(tail, dst, c);
        forall i | 0 <= i < |out|
          ensures !SameKey(routes[0], out[i])
        {
          assert out[i] in out;
        }
      }
    }
  }

  lemma SurvivesStep(list: seq<Attempt>, env: Env, r: Route)
    requires list != []
    ensures var front, a := list[..|list| - 1], list[|list| - 1];
            Survives(list, env, r) <==>
              (env.Ready(a.candidate) && a.Route() == r) || (Survives(front, env, r) && !Displaces(a, r, env))
  {
    var front, a := list[..|list| - 1], list[|list| - 1];
    if Survives(front, env, r) && !Displaces(a, r, env) {
      var i :| 0 <= i < |front| && SurvivesAt(front, env, r, i);
      assert SurvivesAt(list, env, r, i);
    }
    if env.Ready(a.candidate) && a.Route() == r {
      assert SurvivesAt(list, env, r, |list| - 1);
    }
    if Survives(list, env, r) && !(env.Ready(a.candidate) && a.Route() == r) {
      var i :| 0 <= i < |list| && SurvivesAt(list, env, r, i);
      assert SurvivesAt(front, env, r, i);
    }
  }

  /** The installed routes are exactly the surviving ones, at most one per destination, table and metric. */
  lemma {:induction false} InstalledExactly(list: seq<Attempt>, env: Env)
    ensures UniqueKeys(TryList([], list, env))
    ensures forall r :: r in TryList([], list, env) <==> Survives(list, env, r)
    decreases |list|
  {
    if list != [] {
      var front, a := list[..|list| - 1], list[|list| - 1];
      InstalledExactly(front, env);
      ReplaceUnique(TryList([], front, env), a.Route());
      DeleteUnique(TryList([], front, env), a.dst, a.candidate);
      forall r
        ensures r in TryList([], list, env) <==> Survives(list, env, r)
      {
        SurvivesStep(list, env, r);
      }
    }
  }

  /** Whether a candidate is ready depends on its interface only. */
  predicate DeviceOnly(list: seq<Attempt>, env: Env) {
    forall i, j :: 0 <= i < |list| && 0 <= j < |list| && list[i].candidate.dev == list[j].candidate.dev ==>
      (env.Ready(list[i].candidate) <==> env.Ready(list[j].candidate))
  }

  /** Some route leads to the destination. */
  predicate Reaches(routes: seq<Route>, t: Target) {
    exists r :: r in routes && r.At() == t
  }

  /** A destination keeps a route if and only if some ready attempt for it survives; with readiness by interface the
      last ready attempt always does. */
  lemma LastReadySurvives(list: seq<Attempt>, env: Env, t: Target, i: nat)
    requires DeviceOnly(list, env) && i < |list| && env.Ready(list[i].candidate) && list[i].Where() == t
    ensures Reaches(TryList([], list, env), t)
  {
    var k := LastReady(list, env, t, i);
    InstalledExactly(list, env);
    forall j | k < j < |list|
      ensures !Displaces(list[j], list[k].Route(), env)
    {
      if env.Ready(list[j].candidate) {
        assert list[j].Where() != t;
      }
    }
    assert SurvivesAt(list, env, list[k].Route(), k);
    assert Survives(list, env, list[k].Route());
    assert list[k].Route().At() == t;
  }

  lemma LastReady(list: seq<Attempt>, env: Env, t: Target, i: nat) returns (k: nat)
    requires i < |list| && env.Ready(list[i].candidate) && list[i].Where() == t
    ensures k < |list| && env.Ready(list[k].candidate) && list[k].Where() == t
    ensures forall j :: k < j < |list| && env.Ready(list[j].candidate) ==> list[j].Where() != t
  {
    k := i;
    var m := i + 1;
    while m < |list|
      invariant i < m <= |list| && k < m && env.Ready(list[k].candidate) && list[k].Where() == t
      invariant forall j :: k < j < m && env.Ready(list[j].candidate) ==> list[j].Where() != t
    {
      if env.Ready(list[m].candidate) && list[m].Where() == t {
        k := m;
      }
      m := m + 1;
    }
  }

  lemma {:induction false} StepIsTried(steps: seq<Placed>, env: Env, k: nat) returns (i: nat)
    requires k < ReadySteps(steps, env) && forall j :: 0 <= j < |steps| ==> Usable(steps[j].rule)
    ensures i < |Tried(steps, env)| && Tried(steps, env)[i].Where() == steps[k].rule.Where()
    ensures env.Ready(Tried(steps, env)[i].candidate)
    decreases |steps|
  {
    var cs := steps[0].rule.candidates;
    var head := Attempts(steps[0].rule.destination, cs);
    if k == 0 {
      var j :| 0 <= j < |cs| && env.Ready(cs[j]);
      assert Tried(steps, env)[j] == head[j] && Usable(steps[0].rule);
      i := j;
    } else {
      assert forall j :: 0 <= j < |steps[1..]| ==> steps[1..][j] == steps[j + 1];
      var m := StepIsTried(steps[1..], env, k - 1);
      i := |head| + m;
      assert Tried(steps, env)[i] == Tried(steps[1..], env)[m];
    }
  }

  /** After a run, every route of the plan goes over a ready candidate of a plan rule for that destination and table;
      and when readiness depends on the interface only, every ready plan rule has at least one route. */
  lemma RoutesAreReady(p: Plan, env: Env)
    requires WellFormed(p)
    ensures forall r :: r in Fresh(p, env) ==>
              exists k, c :: 0 <= k < |Steps(p)| && c in Steps(p)[k].rule.candidates && env.Ready(c)
                             && r == RouteOf(Steps(p)[k].rule.destination, c) && r.At() == Steps(p)[k].rule.Where()
    ensures DeviceOnly(Tried(Steps(p), env), env) ==>
              forall k :: 0 <= k < ReadySteps(Steps(p), env) ==> Reaches(Fresh(p, env), Steps(p)[k].rule.Where())
  {
    var steps, list := Steps(p), Tried(Steps(p), env);
    StepUsable(p);
    InstalledExactly(list, env);
    forall r | r in Fresh(p, env)
      ensures exists k, c :: 0 <= k < |steps| && c in steps[k].rule.candidates && env.Ready(c)
                             && r == RouteOf(steps[k].rule.destination, c) && r.At() == steps[k].rule.Where()
    {
      var i :| 0 <= i < |list| && SurvivesAt(list, env, r, i);
      TriedSource(steps, env, i);
    }
    if DeviceOnly(list, env) {
      forall k | 0 <= k < ReadySteps(steps, env)
        ensures Reaches(Fresh(p, env), steps[k].rule.Where())
      {
        var i := StepIsTried(steps, env, k);
        LastReadySurvives(list, env, steps[k].rule.Where(), i);
      }
    }
  }

  /** Readiness by peer can undo this: a rule whose two candidates share interface, next hop and metric but not the peer
      completes without any route when only the first peer answers. */
  lemma PeersCanClash()
    ensures var c := Candidate("wg0", "", 100, 50, Some(1));
            var d := c.(peer := Some(2));
            var r := Rule(DEFAULT, DEFAULT, Any, [], 100, [c, d], SYSTEM_PRIORITY, SYSTEM_MARK + 1);
            var p := Plan([r], [], [r.Where()]);
            var env := Env(true, true, true, {("wg0", Some(1))});
            WellFormed(p) && ReadySteps(Steps(p), env) == |Steps(p)| && Fresh(p, env) == []
  {
    var c := Candidate("wg0", "", 100, 50, Some(1));
    var d := c.(peer := Some(2));
    var r := Rule(DEFAULT, DEFAULT, Any, [], 100, [c, d], SYSTEM_PRIORITY, SYSTEM_MARK + 1);
    var p := Plan([r], [], [r.Where()]);
    var env := Env(true, true, true, {("wg0", Some(1))});
    var steps := Steps(p);
    assert steps == [Placed(r, Output)];
    assert env.Ready(r.candidates[0]);
    assert steps[1..] == [];
    assert ReadySteps([], env) == 0;
    var first, second := Attempt(DEFAULT, c), Attempt(DEFAULT, d);
    assert Attempts(DEFAULT, [c, d]) == [first, second];
    assert Tried(steps, env) == [first, second];
    assert [first, second][..1] == [first] && [first][..0] == [];
    assert TryList([], [first], env) == [RouteOf(DEFAULT, c)];
    assert DeleteCandidate([RouteOf(DEFAULT, c)], DEFAULT, d) == [];
  }
}
