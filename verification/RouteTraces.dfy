/** What a run of script passes does to a list of routes: each pass removes the routes at its targets and leaves
    routes of its own. */
module RouteTraces {
  import opened Kernel

  datatype Pass = Skipped | Pass(targets: set<Target>, left: seq<Route>)

  function Over(routes: seq<Route>, p: Pass): seq<Route> {
    if p.Skipped? then routes else Without(routes, p.targets) + p.left
  }

  /** The routes after all passes. */
  function Along(routes: seq<Route>, t: seq<Pass>): seq<Route> {
    if t == [] then routes else Over(Along(routes, t[..|t| - 1]), t[|t| - 1])
  }

  /** Route lists of which each comes from the one before by its pass. */
  lemma {:induction false} AlongSteps(lists: seq<seq<Route>>, t: seq<Pass>, n: nat)
    requires |lists| == |t| + 1 && n <= |t|
    requires forall k :: 0 <= k < |t| ==> lists[k + 1] == Over(lists[k], t[k])
    ensures lists[n] == Along(lists[0], t[..n])
  {
    if n > 0 {
      AlongSteps(lists, t, n - 1);
      assert t[..n][..n - 1] == t[..n - 1];
      assert lists[n - 1 + 1] == Over(lists[n - 1], t[n - 1]);
    }
  }

  predicate TargetedAt(t: seq<Pass>, i: nat, at: Target)
    requires i < |t|
  {
    t[i].Pass? && at in t[i].targets
  }

  predicate LeftAt(t: seq<Pass>, i: nat, r: Route)
    requires i < |t|
  {
    t[i].Pass? && r in t[i].left
  }

  /** No pass from `i` on targets the destination. */
  predicate Untouched(t: seq<Pass>, i: nat, at: Target) {
    forall j :: i <= j < |t| ==> !TargetedAt(t, j, at)
  }

  /** Pass `i` leaves the route and no later one targets it. */
  predicate Remains(t: seq<Pass>, i: nat, r: Route)
    requires i < |t|
  {
    LeftAt(t, i, r) && Untouched(t, i + 1, r.At())
  }

  predicate RemainsSome(t: seq<Pass>, r: Route) {
    exists i :: 0 <= i < |t| && Remains(t, i, r)
  }

  /** Every target of every pass. */
  function Ever(t: seq<Pass>): set<Target> {
    if t == [] then {}
    else
      var p := t[|t| - 1];
      Ever(t[..|t| - 1]) + if p.Pass? then p.targets else {}
  }

  /** The routes that passes have added and not removed again, in order. */
  function Added(t: seq<Pass>): seq<Route> {
    if t == [] then [] else Over(Added(t[..|t| - 1]), t[|t| - 1])
  }

  /** The original routes away from everything ever targeted, in their order, and behind them what passes have added
      and not removed. */
  lemma {:induction false} AlongInOrder(routes: seq<Route>, t: seq<Pass>)
    ensures Along(routes, t) == Without(routes, Ever(t)) + Added(t)
  {
    if t == [] {
      WithoutAll(routes, {});
      assert routes + [] == routes;
    } else {
      var front, p := t[..|t| - 1], t[|t| - 1];
      AlongInOrder(routes, front);
      if p.Pass? {
        WithoutAppend(Without(routes, Ever(front)), Added(front), p.targets);
        WithoutTwice(routes, Ever(front), p.targets);
        var kept, rest := Without(routes, Ever(front) + p.targets), Without(Added(front), p.targets);
        assert Along(routes, t) == kept + rest + p.left;
        assert Ever(t) == Ever(front) + p.targets && Added(t) == rest + p.left;
        assert kept + rest + p.left == kept + (rest + p.left);
      } else {
        assert Ever(t) == Ever(front);
      }
    }
  }

  lemma UntouchedSnoc(front: seq<Pass>, p: Pass, i: nat, at: Target)
    requires i <= |front|
    ensures Untouched(front + [p], i, at) <==> Untouched(front, i, at) && !(p.Pass? && at in p.targets)
  {
    var t := front + [p];
    assert TargetedAt(t, |front|, at) <==> p.Pass? && at in p.targets;
    assert forall j :: 0 <= j < |front| ==> (TargetedAt(t, j, at) <==> TargetedAt(front, j, at));
  }

  lemma RemainsSnoc(front: seq<Pass>, p: Pass, r: Route)
    ensures RemainsSome(front + [p], r) <==>
              (p.Pass? && r in p.left) || (RemainsSome(front, r) && !(p.Pass? && r.At() in p.targets))
  {
    var t := front + [p];
    forall i: nat | i < |front|
      ensures Remains(t, i, r) <==> Remains(front, i, r) && !(p.Pass? && r.At() in p.targets)
    {
      UntouchedSnoc(front, p, i + 1, r.At());
    }
    assert Remains(t, |front|, r) <==> p.Pass? && r in p.left;
  }

  lemma {:induction false} EverExact(t: seq<Pass>, at: Target)
    ensures at in Ever(t) <==> !Untouched(t, 0, at)
  {
    if t != [] {
      EverExact(t[..|t| - 1], at);
      assert t == t[..|t| - 1] + [t[|t| - 1]];
      UntouchedSnoc(t[..|t| - 1], t[|t| - 1], 0, at);
    }
  }

  lemma {:induction false} AddedExact(t: seq<Pass>, r: Route)
    ensures r in Added(t) <==> RemainsSome(t, r)
  {
    if t != [] {
      var front, p := t[..|t| - 1], t[|t| - 1];
      AddedExact(front, r);
      assert t == front + [p];
      RemainsSnoc(front, p, r);
      if p.Pass? {
        WithoutMembers(Added(front), p.targets);
      }
    }
  }

  /** A route is there at the end if and only if it is original and no pass targets it, or some pass left it and no
      later one targets it. */
  lemma AlongExact(routes: seq<Route>, t: seq<Pass>, r: Route)
    ensures r in Along(routes, t) <==> (r in routes && Untouched(t, 0, r.At())) || RemainsSome(t, r)
  {
    AlongInOrder(routes, t);
    WithoutMembers(routes, Ever(t));
    EverExact(t, r.At());
    AddedExact(t, r);
  }

  // ---------------------------------------------------------------- stale routes

  /** A pass leaves routes at its own targets only. */
  predicate WithinTargets(t: seq<Pass>) {
    forall i, k :: 0 <= i < |t| && t[i].Pass? && 0 <= k < |t[i].left| ==> t[i].left[k].At() in t[i].targets
  }

  predicate Latest(t: seq<Pass>, last: nat) {
    last < |t| && t[last].Pass? && forall j :: last < j < |t| ==> t[j].Skipped?
  }

  /** Beside untouched original routes there are only routes of the latest pass. */
  ghost predicate NothingStale(routes: seq<Route>, t: seq<Pass>, last: nat)
    requires last < |t|
  {
    forall r :: r in Along(routes, t) ==> (r in routes && Untouched(t, 0, r.At())) || LeftAt(t, last, r)
  }

  /** Every route that an earlier pass left is targeted by some later one. */
  ghost predicate Superseded(t: seq<Pass>, last: nat)
    requires last < |t|
  {
    forall i, r :: 0 <= i < last && LeftAt(t, i, r) ==> !Untouched(t, i + 1, r.At())
  }

  lemma LeftIsTargeted(t: seq<Pass>, i: nat, r: Route)
    requires WithinTargets(t) && i < |t| && LeftAt(t, i, r)
    ensures TargetedAt(t, i, r.At())
  {
    var k :| 0 <= k < |t[i].left| && t[i].left[k] == r;
  }

  lemma StaleIff(routes: seq<Route>, t: seq<Pass>, last: nat)
    requires WithinTargets(t) && Latest(t, last)
    ensures NothingStale(routes, t, last) <==> Superseded(t, last)
  {
    if Superseded(t, last) {
      forall r | r in Along(routes, t)
        ensures (r in routes && Untouched(t, 0, r.At())) || LeftAt(t, last, r)
      {
        AlongExact(routes, t, r);
        if i :| 0 <= i < |t| && Remains(t, i, r) {
          assert i <= last;
        }
      }
    }
    if NothingStale(routes, t, last) {
      forall i, r | 0 <= i < last && LeftAt(t, i, r)
        ensures !Untouched(t, i + 1, r.At())
      {
        if Untouched(t, i + 1, r.At()) {
          StaleRoute(routes, t, i, last, r);
        }
      }
    }
  }

  /** A route that an earlier pass left and that none targets again is stale. */
  lemma StaleRoute(routes: seq<Route>, t: seq<Pass>, i: nat, last: nat, r: Route)
    requires WithinTargets(t) && Latest(t, last) && i < last && Remains(t, i, r)
    ensures r in Along(routes, t) && !Untouched(t, 0, r.At()) && !LeftAt(t, last, r)
  {
    AlongExact(routes, t, r);
    LeftIsTargeted(t, i, r);
    if LeftAt(t, last, r) {
      LeftIsTargeted(t, last, r);
    }
  }

  lemma NoneLeftIff(t: seq<Pass>, covered: set<Target>)
    ensures Without(Added(t), covered) == [] <==> forall r :: RemainsSome(t, r) ==> r.At() in covered
  {
    var added := Added(t);
    WithoutMembers(added, covered);
    forall r
      ensures r in added <==> RemainsSome(t, r)
    {
      AddedExact(t, r);
    }
    if forall r :: RemainsSome(t, r) ==> r.At() in covered {
      forall k | 0 <= k < |added|
        ensures added[k].At() in covered
      {
        assert added[k] in added;
      }
      WithoutNone(added, covered);
    } else {
      var r :| RemainsSome(t, r) && r.At() !in covered;
      assert r in Without(added, covered);
    }
  }

  /** Let `covered[k]` say that a route is covered before pass `k`.  If passes target what is covered, skipped ones
      keep it covered, and a pass covers what it leaves, then a route that remains was left by the latest pass and is
      covered. */
  lemma {:induction false} RemainsIsLatest(t: seq<Pass>, covered: seq<bool>, i: nat, n: nat, r: Route)
    requires i < n <= |t| && |covered| == |t| + 1 && LeftAt(t, i, r)
    requires forall j :: i < j < n ==> !TargetedAt(t, j, r.At())
    requires forall k :: 0 <= k < |t| ==> CoverStep(t[k], covered[k], covered[k + 1], r)
    ensures covered[n] && forall j :: i < j < n ==> t[j].Skipped?
  {
    assert CoverStep(t[n - 1], covered[n - 1], covered[n - 1 + 1], r);
    if i < n - 1 {
      RemainsIsLatest(t, covered, i, n - 1, r);
      assert !TargetedAt(t, n - 1, r.At());
    }
  }

  predicate CoverStep(p: Pass, before: bool, after: bool, r: Route) {
    if p.Skipped? then before ==> after
    else (before ==> r.At() in p.targets) && (r in p.left ==> after)
  }
}
