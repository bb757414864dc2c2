/** Runs of `applyRoutePolicy`, of the refresh timer and of `cleanupRoutePolicy` over the stored snapshot, the installed
    script and the kernel.  All applies use one output path, hence one stored snapshot. */
module RoutePolicyRuns {
  import opened Common
  import opened Kernel
  import opened RoutePolicyPlan
  import opened RoutePolicyScript
  import opened RoutePolicyConvergence
  import opened RouteTraces

  /** The kernel, the snapshot file and the plan whose script is installed. */
  datatype World = World(host: Host, stored: Option<Snapshot>, script: Option<Plan>)

  /** How far an apply gets; any step on the way can fail.  A cleanup ends early when its script cannot be written, and
      otherwise each of the two removals can fail. */
  datatype Stage = BeforeSave | BeforeInstall | BeforeRun | Whole

  datatype Event =
    | Apply(payload: Snapshot, env: Env, until: Stage)
    | Tick(env: Env)
    | Clean(payload: Snapshot, env: Env, scriptRuns: bool, keepsSnapshot: bool, keepsScript: bool)

  const NO_ROUTES := Snapshot([], [])

  /** `readRoutePolicySnapshot`; a missing file counts as an empty snapshot. */
  function Previous(w: World): Snapshot {
    if w.stored.Some? then w.stored.value else NO_ROUTES
  }

  /** The payload's and the stored snapshot's routes together. */
  function Combined(payload: Snapshot, w: World): Snapshot {
    Snapshot(payload.routes + Previous(w).routes, payload.systemRoutes + Previous(w).systemRoutes)
  }

  /** `applyRoutePolicy`: read the old snapshot, store the new one, render against the old one, and only then install
      and run the script.  A failed render leaves the new snapshot stored and the old script installed.
      `cleanupRoutePolicy`: run the cleanup script, then remove the snapshot and the installed script. */
  function Step(w: World, e: Event): World {
    match e
    case Apply(payload, env, until) =>
      var plan := Render(payload, Previous(w));
      if until.BeforeSave? then w
      else if plan.Err? || until.BeforeInstall? then w.(stored := Some(payload))
      else
        w.(stored := Some(payload), script := Some(plan.value),
           host := if until.BeforeRun? then w.host else Meaning(plan.value, env, w.host).0)
    case Tick(env) =>
      if w.script.None? then w else w.(host := Meaning(w.script.value, env, w.host).0)
    case Clean(payload, env, scriptRuns, keepsSnapshot, keepsScript) =>
      if !scriptRuns then w
      else
        World(Cleaned(Combined(payload, w), env, w.host), if keepsSnapshot then w.stored else None,
              if keepsScript then w.script else None)
  }

  function After(w: World, events: seq<Event>): World {
    if events == [] then w else Step(After(w, events[..|events| - 1]), events[|events| - 1])
  }

  /** The plan whose script the event runs past its preamble. */
  function Ran(w: World, e: Event): Option<Plan> {
    match e
    case Apply(payload, env, until) =>
      var plan := Render(payload, Previous(w));
      if until.Whole? && plan.Ok? && StartOf(plan.value, env) == Started then Some(plan.value) else None
    case Tick(env) =>
      if w.script.Some? && StartOf(w.script.value, env) == Started then w.script else None
    case Clean(_, _, _, _, _) => None
  }

  /** The installed script comes from a rendered plan. */
  predicate Runnable(w: World) {
    w.script.Some? ==> WellFormed(w.script.value)
  }

  lemma RunnableStep(w: World, e: Event)
    requires Runnable(w)
    ensures Runnable(Step(w, e)) && (Ran(w, e).Some? ==> WellFormed(Ran(w, e).value))
  {
    if e.Apply? && Render(e.payload, Previous(w)).Ok? {
      RenderOk(e.payload, Previous(w));
    }
  }

  lemma {:induction false} RunnableStays(w: World, events: seq<Event>)
    requires Runnable(w)
    ensures Runnable(After(w, events))
    decreases |events|
  {
    if events != [] {
      RunnableStays(w, events[..|events| - 1]);
      RunnableStep(After(w, events[..|events| - 1]), events[|events| - 1]);
    }
  }

  /** What an event does to the routes: a script run flushes its targets and leaves its own routes, a cleanup flushes
      the targets of both snapshots. */
  function PassOf(w: World, e: Event): Pass {
    if e.Clean? then
      if e.scriptRuns && e.env.hasIp then Pass(TargetSet(SnapshotTargets(Combined(e.payload, w))), []) else Skipped
    else
      match Ran(w, e)
      case None => Skipped
      case Some(p) => Pass(TargetSet(p.targets), Fresh(p, e.env))
  }

  /** What a script does to the routes. */
  lemma ScriptRoutes(p: Plan, env: Env, h: Host)
    requires WellFormed(p)
    ensures Meaning(p, env, h).0.routes
            == if StartOf(p, env) == Started then Without(h.routes, TargetSet(p.targets)) + Fresh(p, env) else h.routes
  {
    if StartOf(p, env) == Started {
      RoutesAfter(p, env, h);
    }
  }

  lemma ApplyRoutes(w: World, payload: Snapshot, env: Env, until: Stage)
    requires Runnable(w)
    ensures var e := Apply(payload, env, until); Step(w, e).host.routes == Over(w.host.routes, PassOf(w, e))
  {
    var plan := Render(payload, Previous(w));
    if until.Whole? && plan.Ok? {
      RenderOk(payload, Previous(w));
      ScriptRoutes(plan.value, env, w.host);
    }
  }

  lemma TickRoutes(w: World, env: Env)
    requires Runnable(w)
    ensures Step(w, Tick(env)).host.routes == Over(w.host.routes, PassOf(w, Tick(env)))
  {
    if w.script.Some? {
      ScriptRoutes(w.script.value, env, w.host);
    }
  }

  lemma CleanRoutes(w: World, e: Event)
    requires e.Clean?
    ensures Step(w, e).host.routes == Over(w.host.routes, PassOf(w, e))
  {
    var kept := Without(w.host.routes, TargetSet(SnapshotTargets(Combined(e.payload, w))));
    assert kept + [] == kept;
  }

  /** What one event does to the routes. */
  lemma StepRoutes(w: World, e: Event)
    requires Runnable(w)
    ensures Step(w, e).host.routes == Over(w.host.routes, PassOf(w, e))
  {
    match e
    case Apply(payload, env, until) => ApplyRoutes(w, payload, env, until);
    case Tick(env) => TickRoutes(w, env);
    case Clean(_, _, _, _, _) => CleanRoutes(w, e);
  }

  // ---------------------------------------------------------------- routes over whole runs

  /** The script passes of a run, one for each event. */
  function Passes(w: World, events: seq<Event>): (t: seq<Pass>)
    ensures |t| == |events| && forall k :: 0 <= k < |events| ==> t[k] == PassOf(After(w, events[..k]), events[k])
  {
    seq(|events|, k requires 0 <= k < |events| => PassOf(After(w, events[..k]), events[k]))
  }

  /** The routes before each event and at the end. */
  function RouteLists(w: World, events: seq<Event>): (lists: seq<seq<Route>>)
    ensures |lists| == |events| + 1
    ensures forall k :: 0 <= k <= |events| ==> lists[k] == After(w, events[..k]).host.routes
  {
    seq(|events| + 1, k requires 0 <= k <= |events| => After(w, events[..k]).host.routes)
  }

  lemma RoutesAt(w: World, events: seq<Event>, k: nat)
    requires Runnable(w) && k < |events|
    ensures After(w, events[..k + 1]).host.routes == Over(After(w, events[..k]).host.routes, Passes(w, events)[k])
  {
    RunnableStays(w, events[..k]);
    StepRoutes(After(w, events[..k]), events[k]);
    AfterPrefix(w, events, k);
  }

  lemma RoutesAlong(w: World, events: seq<Event>)
    requires Runnable(w)
    ensures After(w, events).host.routes == Along(w.host.routes, Passes(w, events))
  {
    var lists, t := RouteLists(w, events), Passes(w, events);
    forall k | 0 <= k < |t|
      ensures lists[k + 1] == Over(lists[k], t[k])
    {
      RoutesAt(w, events, k);
    }
    AlongSteps(lists, t, |t|);
    assert events[..|events|] == events && events[..0] == [] && t[..|t|] == t;
    assert After(w, []) == w;
  }

  /** The exact routes after any run, failed renders, failed installations and scripts that stop in their preamble
      included: a route is in the kernel if and only if it is original and no script that ran targets it, or some script
      run left it and no later script run targets it. */
  lemma RoutesOverRun(w: World, events: seq<Event>, r: Route)
    requires Runnable(w)
    ensures r in After(w, events).host.routes <==>
              (r in w.host.routes && Untouched(Passes(w, events), 0, r.At())) || RemainsSome(Passes(w, events), r)
  {
    RoutesAlong(w, events);
    AlongExact(w.host.routes, Passes(w, events), r);
  }

  // ---------------------------------------------------------------- no stale routes

  /** The stored snapshot covers what the installed script can install. */
  predicate Consistent(w: World) {
    w.script.Some? ==>
      && w.stored.Some? && WellFormed(w.script.value)
      && TargetsRules(SnapshotTargets(w.stored.value), w.script.value.system)
      && TargetsRules(SnapshotTargets(w.stored.value), w.script.value.client)
  }

  /** Every apply renders and its script gets past its preamble, every cleanup that runs has ip and does not keep the
      script without the snapshot; a tick may find the node in any state. */
  predicate AllEffective(w: World, events: seq<Event>) {
    forall i :: 0 <= i < |events| ==> Effective(After(w, events[..i]), events[i])
  }

  predicate Effective(w: World, e: Event) {
    && (e.Apply? ==> Ran(w, e).Some?)
    && (e.Clean? && e.scriptRuns ==> e.env.hasIp && (e.keepsScript ==> e.keepsSnapshot))
  }

  lemma PassWithin(w: World, e: Event)
    requires Runnable(w)
    ensures WithinTargets([PassOf(w, e)])
  {
    RunnableStep(w, e);
    if Ran(w, e).Some? {
      FreshAtTargets(Ran(w, e).value, e.env);
    }
  }

  lemma PassesWithin(w: World, events: seq<Event>)
    requires Runnable(w)
    ensures WithinTargets(Passes(w, events))
  {
    var t := Passes(w, events);
    forall i, k | 0 <= i < |t| && t[i].Pass? && 0 <= k < |t[i].left|
      ensures t[i].left[k].At() in t[i].targets
    {
      RunnableStays(w, events[..i]);
      PassWithin(After(w, events[..i]), events[i]);
      assert [t[i]][0].left[k].At() in [t[i]][0].targets;
    }
  }

  lemma FreshAtSnapshot(p: Plan, env: Env, s: Snapshot, r: Route)
    requires WellFormed(p) && TargetsRules(SnapshotTargets(s), p.system) && TargetsRules(SnapshotTargets(s), p.client)
    requires r in Fresh(p, env)
    ensures r.At() in SnapshotTargets(s)
  {
    // the plan with the snapshot's targets is well formed too, and tries the same routes
    var q := Plan(p.system, p.client, SnapshotTargets(s));
    FreshAtTargets(q, env);
    assert Steps(q) == Steps(p) && Fresh(q, env) == Fresh(p, env);
    var k :| 0 <= k < |Fresh(q, env)| && Fresh(q, env)[k] == r;
    assert Fresh(q, env)[k].At() in TargetSet(q.targets);
  }

  lemma ConsistentStep(w: World, e: Event)
    requires Consistent(w) && Effective(w, e)
    ensures Consistent(Step(w, e))
  {
    if e.Apply? {
      RenderOk(e.payload, Previous(w));
    }
  }

  /** The route is covered by the stored snapshot and by the installed script. */
  predicate Covered(w: World, r: Route) {
    w.script.Some? && r.At() in SnapshotTargets(Previous(w)) && r.At() in w.script.value.targets
  }

  /** An effective pass targets what was covered, and covers what it leaves. */
  lemma CoveredStep(w: World, e: Event, r: Route)
    requires Consistent(w) && Effective(w, e)
    ensures CoverStep(PassOf(w, e), Covered(w, r), Covered(Step(w, e), r), r)
  {
    ConsistentStep(w, e);
    if e.Apply? {
      RenderOk(e.payload, Previous(w));
    }
    if e.Clean? {
      CombinedTargets(e.payload, w);
      assert Covered(w, r) ==> r.At() in TargetSet(SnapshotTargets(Previous(w)));
    }
    if PassOf(w, e).Pass? && r in PassOf(w, e).left {
      FreshAtSnapshot(Ran(w, e).value, e.env, Previous(Step(w, e)), r);
      PassWithin(w, e);
      LeftIsTargeted([PassOf(w, e)], 0, r);
    }
  }

  lemma AfterPrefix(w: World, events: seq<Event>, k: nat)
    requires k < |events|
    ensures After(w, events[..k + 1]) == Step(After(w, events[..k]), events[k])
  {
    assert events[..k + 1][..k] == events[..k];
  }

  lemma {:induction false} ConsistentStays(w: World, events: seq<Event>, k: nat)
    requires Consistent(w) && AllEffective(w, events) && k <= |events|
    ensures Consistent(After(w, events[..k]))
    decreases k
  {
    if k > 0 {
      ConsistentStays(w, events, k - 1);
      assert Effective(After(w, events[..k - 1]), events[k - 1]);
      ConsistentStep(After(w, events[..k - 1]), events[k - 1]);
      AfterPrefix(w, events, k - 1);
    }
  }

  lemma CoveredAt(w: World, events: seq<Event>, k: nat, r: Route)
    requires Consistent(w) && AllEffective(w, events) && k < |events|
    ensures CoverStep(Passes(w, events)[k], Covered(After(w, events[..k]), r), Covered(After(w, events[..k + 1]), r), r)
  {
    ConsistentStays(w, events, k);
    assert Effective(After(w, events[..k]), events[k]);
    CoveredStep(After(w, events[..k]), events[k], r);
    AfterPrefix(w, events, k);
  }

  /** Before each event and at the end: is the route covered? */
  function Covers(w: World, events: seq<Event>, r: Route): (s: seq<bool>)
    ensures |s| == |events| + 1 && forall k :: 0 <= k <= |events| ==> s[k] == Covered(After(w, events[..k]), r)
  {
    seq(|events| + 1, k requires 0 <= k <= |events| => Covered(After(w, events[..k]), r))
  }

  /** Over effective runs the routes that remain are the latest script's, and both the stored snapshot and the installed
      script cover them. */
  lemma EffectiveRemains(w: World, events: seq<Event>, i: nat, r: Route)
    requires Consistent(w) && AllEffective(w, events) && i < |events| && Remains(Passes(w, events), i, r)
    ensures Latest(Passes(w, events), i) && Covered(After(w, events), r)
  {
    var t, covered := Passes(w, events), Covers(w, events, r);
    forall k | 0 <= k < |t|
      ensures CoverStep(t[k], covered[k], covered[k + 1], r)
    {
      CoveredAt(w, events, k, r);
    }
    RemainsIsLatest(t, covered, i, |t|, r);
    assert events[..|events|] == events;
  }

  /** In effective runs every earlier script's routes are targeted again. */
  lemma EffectiveSuperseded(w: World, events: seq<Event>, last: nat)
    requires Consistent(w) && AllEffective(w, events) && Latest(Passes(w, events), last)
    ensures Superseded(Passes(w, events), last)
  {
    var t := Passes(w, events);
    forall i, r | 0 <= i < last && LeftAt(t, i, r)
      ensures !Untouched(t, i + 1, r.At())
    {
      if Untouched(t, i + 1, r.At()) {
        EffectiveRemains(w, events, i, r);
        assert false;
      }
    }
  }

  /** No stale routes: after any run, beside untouched original routes the kernel holds only routes of the latest script
      run if and only if every earlier script's routes are targeted again later; a run in which every apply renders and
      gets past its preamble always meets this. */
  lemma NoStaleRoutes(w: World, events: seq<Event>, last: nat)
    requires Runnable(w) && Latest(Passes(w, events), last)
    ensures var t := Passes(w, events);
            && After(w, events).host.routes == Along(w.host.routes, t)
            && (NothingStale(w.host.routes, t, last) <==> Superseded(t, last))
            && (Consistent(w) && AllEffective(w, events) ==> Superseded(t, last))
  {
    RoutesAlong(w, events);
    PassesWithin(w, events);
    StaleIff(w.host.routes, Passes(w, events), last);
    if Consistent(w) && AllEffective(w, events) {
      EffectiveSuperseded(w, events, last);
    }
  }

  lemma ForeignOverScript(p: Plan, env: Env, h: Host)
    requires WellFormed(p) && Sorted(h.rules)
    ensures Foreign(Meaning(p, env, h).0.rules) == Foreign(h.rules) && Sorted(Meaning(p, env, h).0.rules)
  {
    if StartOf(p, env) == Started {
      Converges(p, env, h);
    } else {
      InsideOfForeign(h.rules);
      SortedForeign(h.rules);
    }
  }

  lemma ForeignStep(w: World, e: Event)
    requires Runnable(w) && Sorted(w.host.rules)
    ensures Foreign(Step(w, e).host.rules) == Foreign(w.host.rules) && Sorted(Step(w, e).host.rules)
  {
    RunnableStep(w, e);
    if e.Clean? {
      InsideOfForeign(w.host.rules);
      SortedForeign(w.host.rules);
    } else if Step(w, e).script.Some? {
      ForeignOverScript(Step(w, e).script.value, e.env, w.host);
    }
  }

  /** The rules outside the reserved ranges are the original ones, in order, at every point of every run. */
  lemma {:induction false} ForeignRulesStay(w: World, events: seq<Event>)
    requires Runnable(w) && Sorted(w.host.rules)
    ensures Foreign(After(w, events).host.rules) == Foreign(w.host.rules) && Sorted(After(w, events).host.rules)
    decreases |events|
  {
    if events != [] {
      var front := events[..|events| - 1];
      ForeignRulesStay(w, front);
      RunnableStays(w, front);
      ForeignStep(After(w, front), events[|events| - 1]);
    }
  }

  // ---------------------------------------------------------------- cleanup

  lemma {:induction false} SystemTargetsAppend(x: seq<SystemRoute>, y: seq<SystemRoute>)
    ensures SystemTargets(x + y) == SystemTargets(x) + SystemTargets(y)
    decreases |y|
  {
    if y == [] {
      assert x + y == x;
    } else {
      assert (x + y)[..|x + y| - 1] == x + y[..|y| - 1];
      SystemTargetsAppend(x, y[..|y| - 1]);
    }
  }

  lemma {:induction false} ClientTargetsAppend(x: seq<ClientRoute>, y: seq<ClientRoute>)
    ensures ClientTargets(x + y) == ClientTargets(x) + ClientTargets(y)
    decreases |y|
  {
    if y == [] {
      assert x + y == x;
    } else {
      assert (x + y)[..|x + y| - 1] == x + y[..|y| - 1];
      ClientTargetsAppend(x, y[..|y| - 1]);
    }
  }

  lemma CombinedTargets(payload: Snapshot, w: World)
    ensures TargetSet(SnapshotTargets(Combined(payload, w)))
            == TargetSet(SnapshotTargets(payload)) + TargetSet(SnapshotTargets(Previous(w)))
  {
    SystemTargetsAppend(payload.systemRoutes, Previous(w).systemRoutes);
    ClientTargetsAppend(payload.routes, Previous(w).routes);
  }

  /** Cleanup after any run leaves no managed rule and no mark; of the routes it leaves the original ones away from what
      was ever targeted, and those that scripts added and that neither the payload nor the stored snapshot covers. */
  lemma CleanupAfterRun(w: World, events: seq<Event>, payload: Snapshot, env: Env)
    requires Runnable(w) && Sorted(w.host.rules) && env.hasIp && env.hasNft
    ensures var before, t := After(w, events), Passes(w, events);
            var targets := TargetSet(SnapshotTargets(Combined(payload, before)));
            var end := Step(before, Clean(payload, env, true, false, false));
            && end.host.rules == Foreign(w.host.rules)
            && end.host.routes == Without(w.host.routes, Ever(t) + targets) + Without(Added(t), targets)
            && (end.host.chains.prerouting.Some? ==> end.host.chains.prerouting.value == [])
            && (end.host.chains.output.Some? ==> end.host.chains.output.value == [])
  {
    var before := After(w, events);
    CleanedWorld(before, payload, env);
    ForeignRulesStay(w, events);
    CleanupRoutes(w, events, TargetSet(SnapshotTargets(Combined(payload, before))));
  }

  lemma CleanedWorld(w: World, payload: Snapshot, env: Env)
    requires env.hasIp && env.hasNft
    ensures var end := Step(w, Clean(payload, env, true, false, false));
            && end.host.rules == Foreign(w.host.rules)
            && end.host.routes == Without(w.host.routes, TargetSet(SnapshotTargets(Combined(payload, w))))
            && (end.host.chains.prerouting.Some? ==> end.host.chains.prerouting.value == [])
            && (end.host.chains.output.Some? ==> end.host.chains.output.value == [])
  {
  }

  lemma CleanupRoutes(w: World, events: seq<Event>, targets: set<Target>)
    requires Runnable(w)
    ensures var t := Passes(w, events);
            Without(After(w, events).host.routes, targets)
            == Without(w.host.routes, Ever(t) + targets) + Without(Added(t), targets)
  {
    var t := Passes(w, events);
    RoutesAlong(w, events);
    AlongInOrder(w.host.routes, t);
    WithoutAppend(Without(w.host.routes, Ever(t)), Added(t), targets);
    WithoutTwice(w.host.routes, Ever(t), targets);
  }

  /** No route of any script is left if and only if the snapshots cover what scripts added and did not remove; after a
      run in which every apply renders and gets past its preamble they always do. */
  lemma CleanupLeavesNothing(w: World, events: seq<Event>, payload: Snapshot)
    requires Runnable(w)
    ensures var t, covered := Passes(w, events), TargetSet(SnapshotTargets(Combined(payload, After(w, events))));
            && (Without(Added(t), covered) == [] <==> forall r :: RemainsSome(t, r) ==> r.At() in covered)
            && (Consistent(w) && AllEffective(w, events) ==> Without(Added(t), covered) == [])
  {
    var before, t := After(w, events), Passes(w, events);
    var covered := TargetSet(SnapshotTargets(Combined(payload, before)));
    NoneLeftIff(t, covered);
    if Consistent(w) && AllEffective(w, events) {
      forall r | RemainsSome(t, r)
        ensures r.At() in covered
      {
        var i :| 0 <= i < |t| && Remains(t, i, r);
        EffectiveRemains(w, events, i, r);
        CombinedTargets(payload, before);
        assert r.At() in TargetSet(SnapshotTargets(Previous(before)));
      }
    }
  }

  // ---------------------------------------------------------------- routes no payload names

  /** Nothing on the node names the target: not the stored snapshot, and not the installed script. */
  predicate Unnamed(w: World, t: Target) {
    !Names(Previous(w), t) && (w.script.Some? ==> t !in w.script.value.targets)
  }

  predicate Silent(e: Event, t: Target) {
    !e.Tick? ==> !Names(e.payload, t)
  }

  lemma UnnamedStep(w: World, e: Event, t: Target)
    requires Unnamed(w, t) && Silent(e, t)
    ensures Unnamed(Step(w, e), t) && (PassOf(w, e).Pass? ==> t !in PassOf(w, e).targets)
  {
    assert !Names(NO_ROUTES, t);
    match e
    case Tick(_) =>
    case Apply(payload, _, _) =>
      if Render(payload, Previous(w)).Ok? {
        RenderNames(payload, Previous(w), t);
      }
    case Clean(payload, _, _, _, _) =>
      CombinedTargets(payload, w);
      TargetsExact(payload, t);
      TargetsExact(Previous(w), t);
  }

  lemma {:induction false} UnnamedStays(w: World, events: seq<Event>, t: Target, k: nat)
    requires Unnamed(w, t) && k <= |events| && forall i :: 0 <= i < |events| ==> Silent(events[i], t)
    ensures Unnamed(After(w, events[..k]), t)
    decreases k
  {
    if k > 0 {
      UnnamedStays(w, events, t, k - 1);
      UnnamedStep(After(w, events[..k - 1]), events[k - 1], t);
      AfterPrefix(w, events, k - 1);
    }
  }

  /** The operator's own routes survive: a route whose destination and table nothing on the node and no payload names is
      there after any run of applies, timer ticks and cleanups. */
  lemma UnnamedRoutesStay(w: World, events: seq<Event>, r: Route)
    requires Runnable(w) && r in w.host.routes && Unnamed(w, r.At())
    requires forall i :: 0 <= i < |events| ==> Silent(events[i], r.At())
    ensures r in After(w, events).host.routes
  {
    var t := Passes(w, events);
    forall k | 0 <= k < |t| && t[k].Pass?
      ensures r.At() !in t[k].targets
    {
      UnnamedStays(w, events, r.At(), k);
      UnnamedStep(After(w, events[..k]), events[k], r.At());
    }
    RoutesOverRun(w, events, r);
  }

  // ---------------------------------------------------------------- runs that leave stale routes

  lemma ForgottenTargets(w: World, c: Snapshot, env: Env, r: Route)
    requires Runnable(w) && r in w.host.routes && Ran(w, Apply(c, env, Whole)).Some?
    ensures var plan := Render(c, Previous(w)).value;
            && Step(w, Apply(c, env, Whole)).host.routes
               == Without(w.host.routes, TargetSet(plan.targets)) + Fresh(plan, env)
            && (r in Without(w.host.routes, TargetSet(plan.targets)) <==>
                  r.At() !in SnapshotTargets(Previous(w)) && r.At() !in RuleTargets(plan.system)
                  && r.At() !in RuleTargets(plan.client))
  {
    StepRoutes(w, Apply(c, env, Whole));
    TargetsOfRender(c, Previous(w), w.host.routes, r);
  }

  lemma TargetsOfRender(c: Snapshot, previous: Snapshot, routes: seq<Route>, r: Route)
    requires Render(c, previous).Ok? && r in routes
    ensures var plan := Render(c, previous).value;
            r in Without(routes, TargetSet(plan.targets)) <==>
              r.At() !in SnapshotTargets(previous) && r.At() !in RuleTargets(plan.system)
              && r.At() !in RuleTargets(plan.client)
  {
    RenderOk(c, previous);
    WithoutMembers(routes, TargetSet(Render(c, previous).value.targets));
  }

  /** After any run, the next apply that runs leaves a route in place exactly when neither its own rules nor the last
      saved payload cover it: what an earlier payload covered is forgotten, whether its script ran or not. */
  lemma StaleAfterFailedRender(w: World, events: seq<Event>, c: Snapshot, env: Env, r: Route)
    requires Runnable(w) && r in After(w, events).host.routes && Ran(After(w, events), Apply(c, env, Whole)).Some?
    ensures var before := After(w, events);
            var plan := Render(c, Previous(before)).value;
            && After(w, events + [Apply(c, env, Whole)]).host.routes
               == Without(before.host.routes, TargetSet(plan.targets)) + Fresh(plan, env)
            && (r in Without(before.host.routes, TargetSet(plan.targets)) <==>
                  r.At() !in SnapshotTargets(Previous(before)) && r.At() !in RuleTargets(plan.system)
                  && r.At() !in RuleTargets(plan.client))
  {
    var longer := events + [Apply(c, env, Whole)];
    assert longer[..|longer| - 1] == events;
    RunnableStays(w, events);
    ForgottenTargets(After(w, events), c, env, r);
  }

  /** A payload whose render fails: an active candidate route with an unsafe table name. */
  const UNSAFE := ClientRoute(true, true, true, true, Some(DEFAULT), Some(DEFAULT), true, UnsafeTable,
                              RawEgress([], RawCandidate(true, Absent, Absent, 0, None)), Any, NoPorts)

  lemma AfterTwo(w: World, a: Event, b: Event)
    ensures After(w, [a, b]) == Step(Step(w, a), b)
  {
    assert [a, b][..1] == [a] && [a][..0] == [];
    assert After(w, [a]) == Step(w, a);
  }

  /** First failing run: every route of the earlier plan survives a failed render followed by an empty policy. */
  lemma FailedRenderLeavesRoutes(w: World, env: Env)
    requires env.hasIp
    ensures After(w, [Apply(Snapshot([UNSAFE], []), env, Whole), Apply(NO_ROUTES, env, Whole)]).host.routes
            == w.host.routes
  {
    var b, c := Snapshot([UNSAFE], []), NO_ROUTES;
    assert [UNSAFE][..0] == [];
    assert ClientRules([UNSAFE]).Err? && ClientTargets([UNSAFE]) == [];
    AfterTwo(w, Apply(b, env, Whole), Apply(c, env, Whole));
    assert Render(b, Previous(w)).Err?;
    EmptyPolicyRun(w.(stored := Some(b)), env);
    assert SnapshotTargets(b) == [] && TargetSet([]) == {};
    WithoutAll(w.host.routes, {});
  }

  /** An empty policy removes exactly what the stored snapshot covers. */
  lemma EmptyPolicyRun(w: World, env: Env)
    requires env.hasIp
    ensures Step(w, Apply(NO_ROUTES, env, Whole)).host.routes
            == Without(w.host.routes, TargetSet(SnapshotTargets(Previous(w))))
  {
    EmptyPlan(Previous(w));
  }

  lemma EmptyPlan(previous: Snapshot)
    ensures Render(NO_ROUTES, previous).Ok?
    ensures var plan := Render(NO_ROUTES, previous).value;
            Steps(plan) == [] && plan.client == [] && TargetSet(plan.targets) == TargetSet(SnapshotTargets(previous))
  {
    DedupeExact([] + [] + SnapshotTargets(previous));
    assert [] + [] + SnapshotTargets(previous) == SnapshotTargets(previous);
  }

  /** A payload with one enforceable client route. */
  const SOME_ROUTE := ClientRoute(true, true, true, true, Some(DEFAULT), Some(DEFAULT), true, TableId(100),
                                  RawEgress([], RawCandidate(true, Safe("wg0"), Absent, 0, None)), Any, NoPorts)

  /** Second failing run: all renders succeed, but on a node without nft the first script stops in its preamble; the
      empty policy after it removes nothing but the one destination of the payload in between. */
  lemma UnstartedScriptLeavesRoutes(w: World, env: Env)
    requires env.hasIp && !env.hasNft
    ensures var b := Snapshot([SOME_ROUTE], []);
            && Render(b, Previous(w)).Ok? && Render(NO_ROUTES, b).Ok?
            && After(w, [Apply(b, env, Whole), Apply(NO_ROUTES, env, Whole)]).host.routes
               == Without(w.host.routes, {Target(DEFAULT, 100)})
  {
    var b := Snapshot([SOME_ROUTE], []);
    SomeRoutePlan(Previous(w));
    UnstartedStep(w, b, env);
    AfterTwo(w, Apply(b, env, Whole), Apply(NO_ROUTES, env, Whole));
    EmptyPolicyRun(Step(w, Apply(b, env, Whole)), env);
    assert TargetSet([Target(DEFAULT, 100)]) == {Target(DEFAULT, 100)};
  }

  /** A script that needs nft and does not find it changes no route, but its payload is stored. */
  lemma UnstartedStep(w: World, payload: Snapshot, env: Env)
    requires Render(payload, Previous(w)).Ok? && Steps(Render(payload, Previous(w)).value) != [] && !env.hasNft
    ensures var next := Step(w, Apply(payload, env, Whole));
            Previous(next) == payload && next.host.routes == w.host.routes
  {
    RenderOk(payload, Previous(w));
    ScriptRoutes(Render(payload, Previous(w)).value, env, w.host);
  }

  lemma SomeRoutePlan(previous: Snapshot)
    ensures var b := Snapshot([SOME_ROUTE], []);
            Render(b, previous).Ok? && Steps(Render(b, previous).value) != []
              && SnapshotTargets(b) == [Target(DEFAULT, 100)]
  {
    assert [SOME_ROUTE][..0] == [];
    assert ClientRules([SOME_ROUTE][..0]) == Ok([]);
    assert ClientTargets([SOME_ROUTE]) == [Target(DEFAULT, 100)];
    assert Candidates(SOME_ROUTE.egress, 100).Ok? && Candidates(SOME_ROUTE.egress, 100).value != [];
    assert BuildClientRule(SOME_ROUTE, 0).Built?;
    assert ClientRules([SOME_ROUTE]).Ok? && ClientRules([SOME_ROUTE]).value != [];
  }

  // ---------------------------------------------------------------- the agent

  /** The agent's state on a node and the operations that change it. */
  class Agent {
    var host: Host
    var stored: Option<Snapshot>
    var script: Option<Plan>

    function Abs(): World
      reads this
    {
      World(host, stored, script)
    }

    constructor (host: Host)
      ensures Abs() == World(host, None, None)
    {
      this.host, stored, script := host, None, None;
    }

    method RunInstalled(plan: Plan, env: Env) returns (completed: bool)
      requires WellFormed(plan)
      modifies this`host
      ensures (host, completed) == Meaning(plan, env, old(host))
    {
      RunMeaning(plan, env, host);
      var end := Run(Script(plan), env, Shell(host, false, false));
      host := end.host;
      return !end.exited;
    }

    /** `applyRoutePolicy`, in its order: read the stored snapshot, overwrite it, render, install, run; `until` says how
        far its calls succeed. */
    method ApplyRoutePolicy(payload: Snapshot, env: Env, until: Stage, timerStarts: bool) returns (enforced: bool)
      modifies this
      ensures Abs() == Step(old(Abs()), Apply(payload, env, until))
      ensures enforced <==>
                && until.Whole? && timerStarts && Render(payload, Previous(old(Abs()))).Ok?
                && Meaning(Render(payload, Previous(old(Abs()))).value, env, old(host)).1
      ensures enforced ==>
                script.Some? && WellFormed(script.value) && Meaning(script.value, env, old(host)) == (host, true)
    {
      var previous := if stored.Some? then stored.value else NO_ROUTES;
      if until.BeforeSave? {
        return false;
      }
      stored := Some(payload);
      var plan := RenderPlan(payload, previous);
      if plan.Err? || until.BeforeInstall? {
        return false;
      }
      script := Some(plan.value);
      if until.BeforeRun? {
        return false;
      }
      var completed := RunInstalled(plan.value, env);
      return timerStarts && completed;
    }

    /** The refresh timer runs the installed script again. */
    method RunTimer(env: Env)
      requires Runnable(Abs())
      modifies this`host
      ensures Abs() == Step(old(Abs()), Tick(env))
    {
      if script.Some? {
        var _ := RunInstalled(script.value, env);
      }
    }

    /** `cleanupRoutePolicy` */
    method CleanupRoutePolicy(payload: Snapshot, env: Env, scriptRuns: bool, keepsSnapshot: bool, keepsScript: bool)
      returns (completed: bool)
      modifies this
      ensures Abs() == Step(old(Abs()), Clean(payload, env, scriptRuns, keepsSnapshot, keepsScript))
      ensures completed == scriptRuns
    {
      var file := if stored.Some? then stored.value else NO_ROUTES;
      var combined := Snapshot(payload.routes + file.routes, payload.systemRoutes + file.systemRoutes);
      if !scriptRuns {
        return false;
      }
      CleanupExact(combined, env, host);
      host := Run(CleanupScript(combined, env), env, Shell(host, false, false)).host;
      if !keepsSnapshot {
        stored := None;
      }
      if !keepsScript {
        script := None;
      }
      return true;
    }
  }
}
