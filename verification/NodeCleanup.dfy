/** The managed resource families and the emergency cleanup that tells them apart. */
module NodeCleanup {
  import opened Kernel
  import opened ExternalEgress
  import RoutePolicyPlan
  import RP = RoutePolicyScript

  // ---------------------------------------------------------------- resource families

  /** `externalEgressProxyPort` */
  function ProxyPort(table: nat): int {
    20000 + table - 40000
  }

  /** The rules that `parseEmergencyExternalEgressRules` accepts. */
  predicate Selected(r: IpRule) {
    && r.sel.FwMark?
    && 40000 <= r.table <= 48999 && 0x4d590000 <= r.sel.mark <= 0x4d59ffff && r.priority == r.table + 10000
  }

  /** Emergency cleanup selects exactly the rules that some valid deployment installs. */
  lemma SelectedIffExternalEgress(r: IpRule)
    ensures Selected(r) <==> exists j: Job :: j.Valid() && j.PolicyRule() == r
  {
    if Selected(r) {
      var j := Job(r.table, 1, r.sel.mark, "", false);
      assert j.Valid() && j.PolicyRule() == r;
    }
  }

  /** Route policy and external egress never share a priority, a mark or a rule; the proxy port is valid and belongs
      to one table. */
  lemma FamiliesAreDisjoint(p: RoutePolicyPlan.Plan, i: nat, j: Job, k: Job)
    requires RoutePolicyPlan.WellFormed(p) && i < |RP.Steps(p)| && j.Valid() && k.Valid()
    ensures var r := RP.Steps(p)[i].rule;
            && r.priority != j.Priority() && r.mark != j.mark
            && !Selected(RP.PolicyRule(r)) && RP.Managed(RP.PolicyRule(r)) && !RP.Managed(j.PolicyRule())
    ensures 1 <= ProxyPort(j.table) <= 65535
    ensures ProxyPort(j.table) == ProxyPort(k.table) <==> j.table == k.table
  {
    var steps, m := RP.Steps(p), |p.system|;
    assert steps[i].rule == if i < m then p.system[i] else p.client[i - m];
  }

  /** A route-policy run or cleanup deletes no external-egress rule. */
  lemma RoutePolicyKeepsEgressRules(p: RoutePolicyPlan.Plan, snapshot: RoutePolicyPlan.Snapshot, env: RP.Env, s: State,
          j: Job)
    requires RoutePolicyPlan.WellFormed(p) && j.Valid() && j.PolicyRule() in s.rules
    ensures j.PolicyRule() in Step(s, RoutePolicyRun(p, env)).rules
    ensures j.PolicyRule() in Step(s, RoutePolicyCleanup(snapshot, env)).rules
  {
    RoutePolicyFrame(p, env, s);
    CleanupFrame(snapshot, env, s);
  }

  // ---------------------------------------------------------------- emergency cleanup

  function SelectedRules(rules: seq<IpRule>): seq<IpRule> {
    if rules == [] then [] else (if Selected(rules[0]) then [rules[0]] else []) + SelectedRules(rules[1..])
  }

  function OtherRules(rules: seq<IpRule>): seq<IpRule> {
    if rules == [] then [] else (if Selected(rules[0]) then [] else [rules[0]]) + OtherRules(rules[1..])
  }

  lemma {:induction false} SelectedMembers(rules: seq<IpRule>)
    ensures forall r :: r in SelectedRules(rules) <==> r in rules && Selected(r)
    ensures forall r :: r in OtherRules(rules) <==> r in rules && !Selected(r)
  {
    if rules != [] {
      SelectedMembers(rules[1..]);
      assert forall r :: r in rules <==> r == rules[0] || r in rules[1..];
    }
  }

  lemma {:induction false} DeleteSelected(rules: seq<IpRule>, x: IpRule)
    requires Selected(x)
    ensures OtherRules(DeleteExact(rules, x)) == OtherRules(rules)
    ensures SelectedRules(rules) != [] && SelectedRules(rules)[0] == x ==>
              SelectedRules(DeleteExact(rules, x)) == SelectedRules(rules)[1..]
  {
    if rules != [] && rules[0] != x {
      DeleteSelected(rules[1..], x);
      assert DeleteExact(rules, x)[1..] == DeleteExact(rules[1..], x);
    }
  }

  lemma {:induction false} NoneSelected(rules: seq<IpRule>)
    requires SelectedRules(rules) == []
    ensures OtherRules(rules) == rules
  {
    if rules != [] {
      NoneSelected(rules[1..]);
      assert rules == [rules[0]] + rules[1..];
    }
  }

  function TablesOf(rules: seq<IpRule>): set<nat> {
    set r | r in rules :: r.table
  }

  /** The routes away from the given tables. */
  function AwayFrom(routes: seq<Route>, tables: set<nat>): seq<Route> {
    if routes == [] then []
    else (if routes[0].table in tables then [] else [routes[0]]) + AwayFrom(routes[1..], tables)
  }

  lemma {:induction false} AwayMembers(routes: seq<Route>, tables: set<nat>)
    ensures forall r :: r in AwayFrom(routes, tables) <==> r in routes && r.table !in tables
  {
    if routes != [] {
      AwayMembers(routes[1..], tables);
      assert forall r :: r in routes <==> r == routes[0] || r in routes[1..];
    }
  }

  lemma {:induction false} FlushIsAway(routes: seq<Route>, tables: set<nat>, t: nat)
    ensures FlushTable(AwayFrom(routes, tables), t) == AwayFrom(routes, tables + {t})
  {
    if routes != [] {
      FlushIsAway(routes[1..], tables, t);
      if routes[0].table !in tables {
        assert AwayFrom(routes, tables)[1..] == AwayFrom(routes[1..], tables);
      } else {
        assert AwayFrom(routes, tables) == AwayFrom(routes[1..], tables);
      }
    }
  }

  lemma {:induction false} AwayFromNone(routes: seq<Route>)
    ensures AwayFrom(routes, {}) == routes
  {
    if routes != [] {
      AwayFromNone(routes[1..]);
      assert routes == [routes[0]] + routes[1..];
    }
  }

  /** The rules among the first `n` found whose deletion works. */
  function Deleted(found: seq<IpRule>, deleteFails: set<nat>, n: nat): multiset<IpRule>
    requires n <= |found|
  {
    if n == 0 then multiset{}
    else Deleted(found, deleteFails, n - 1) + if n - 1 in deleteFails then multiset{} else multiset{found[n - 1]}
  }

  /** The tables of those for which the flush works too. */
  function Flushed(found: seq<IpRule>, fails: set<nat>, n: nat): set<nat>
    requires n <= |found|
  {
    if n == 0 then {} else Flushed(found, fails, n - 1) + if n - 1 in fails then {} else {found[n - 1].table}
  }

  /** How many of the first `n` fail. */
  function Failures(fails: set<nat>, n: nat): nat {
    if n == 0 then 0 else Failures(fails, n - 1) + if n - 1 in fails then 1 else 0
  }

  /** The state after the turns of the first `n` found rules; a failed deletion skips the flush. */
  ghost function Along(s: State, found: seq<IpRule>, n: nat, deleteFails: set<nat>, fails: set<nat>): State
    requires n <= |found|
  {
    if n == 0 then s
    else
      var t, rule := Along(s, found, n - 1, deleteFails, fails), found[n - 1];
      t.(rules := if n - 1 in deleteFails then t.rules else DeleteExact(t.rules, rule),
         routes := if n - 1 in fails then t.routes else FlushTable(t.routes, rule.table))
  }

  lemma {:induction false} NothingFails(found: seq<IpRule>, fails: set<nat>, n: nat)
    requires n <= |found| && Failures(fails, n) == 0
    ensures Flushed(found, fails, n) == TablesOf(found[..n])
  {
    if n == 0 {
      assert found[..0] == [];
    } else {
      NothingFails(found, fails, n - 1);
      assert found[..n] == found[..n - 1] + [found[n - 1]];
    }
  }

  lemma {:induction false} RoutesAlong(s: State, found: seq<IpRule>, n: nat, deleteFails: set<nat>, fails: set<nat>)
    requires n <= |found|
    ensures Along(s, found, n, deleteFails, fails).routes == AwayFrom(s.routes, Flushed(found, fails, n))
  {
    if n == 0 {
      AwayFromNone(s.routes);
    } else {
      RoutesAlong(s, found, n - 1, deleteFails, fails);
      var flushed := Flushed(found, fails, n - 1);
      FlushIsAway(s.routes, flushed, found[n - 1].table);
      assert flushed + {} == flushed;
    }
  }

  lemma DeletedOne(rules: seq<IpRule>, x: IpRule, all: multiset<IpRule>, gone: multiset<IpRule>)
    requires multiset(rules) == all - gone
    ensures multiset(DeleteExact(rules, x)) == all - (gone + multiset{x})
  {
    DeleteExactMultiset(rules, x);
  }

  lemma {:induction false} CountsAlong(s: State, found: seq<IpRule>, n: nat, deleteFails: set<nat>, fails: set<nat>,
      end: seq<IpRule>, gone: multiset<IpRule>)
    requires n <= |found| && end == Along(s, found, n, deleteFails, fails).rules
    requires gone == Deleted(found, deleteFails, n)
    ensures multiset(end) == multiset(s.rules) - gone
  {
    if n == 0 {
      assert end == s.rules && gone == multiset{};
    } else {
      var rules, before := Along(s, found, n - 1, deleteFails, fails).rules, Deleted(found, deleteFails, n - 1);
      CountsAlong(s, found, n - 1, deleteFails, fails, rules, before);
      if n - 1 in deleteFails {
        assert end == rules && gone == before;
      } else {
        assert end == DeleteExact(rules, found[n - 1]) && gone == before + multiset{found[n - 1]};
        DeletedOne(rules, found[n - 1], multiset(s.rules), before);
      }
    }
  }

  lemma {:induction false} OthersAlong(s: State, found: seq<IpRule>, n: nat, deleteFails: set<nat>, fails: set<nat>)
    requires n <= |found| && forall i :: 0 <= i < |found| ==> Selected(found[i])
    ensures OtherRules(Along(s, found, n, deleteFails, fails).rules) == OtherRules(s.rules)
  {
    if n > 0 {
      OthersAlong(s, found, n - 1, deleteFails, fails);
      DeleteSelected(Along(s, found, n - 1, deleteFails, fails).rules, found[n - 1]);
    }
  }

  lemma {:induction false} SelectedAlong(s: State, found: seq<IpRule>, n: nat, deleteFails: set<nat>, fails: set<nat>)
    requires n <= |found| && found == SelectedRules(s.rules) && deleteFails <= fails && Failures(fails, n) == 0
    ensures SelectedRules(Along(s, found, n, deleteFails, fails).rules) == found[n..]
  {
    if n == 0 {
      assert found[0..] == found;
    } else {
      SelectedAlong(s, found, n - 1, deleteFails, fails);
      SelectedMembers(s.rules);
      DeleteSelected(Along(s, found, n - 1, deleteFails, fails).rules, found[n - 1]);
      assert found[n - 1..][0] == found[n - 1] && found[n - 1..][1..] == found[n..];
    }
  }

  /** `emergencyCleanupExternalEgressPolicies`: list the rules, then for each selected one delete it and flush its
      table.  Which commands fail is given: the listing, and by position the deletions and the flushes.  A failed
      listing ends it with one warning.  Otherwise exactly the rules whose deletion works are deleted, exactly the
      tables for which both work are flushed, and each failure is one warning; without any nothing of any deployment
      remains. */
  method EmergencyCleanup(s: State, listFails: bool, deleteFails: set<nat>, flushFails: set<nat>)
    returns (end: State, removed: nat, warnings: nat)
    ensures listFails ==> end == s && removed == 0 && warnings == 1
    ensures !listFails ==>
              var found, fails := SelectedRules(s.rules), deleteFails + flushFails;
              && removed + warnings == |found| && warnings == Failures(fails, |found|)
              && multiset(end.rules) == multiset(s.rules) - Deleted(found, deleteFails, |found|)
              && end.routes == AwayFrom(s.routes, Flushed(found, fails, |found|))
    ensures OtherRules(end.rules) == OtherRules(s.rules)
    ensures warnings == 0 ==>
              && end.rules == OtherRules(s.rules)
              && (forall r :: r in end.rules <==> r in s.rules && !Selected(r))
              && end.routes == AwayFrom(s.routes, TablesOf(SelectedRules(s.rules)))
              && (forall r :: r in end.routes <==>
                    r in s.routes && forall x :: x in s.rules && Selected(x) ==> x.table != r.table)
  {
    end, removed, warnings := s, 0, 0;
    if listFails {
      warnings := 1;
      return;
    }
    var found := SelectedRules(s.rules);
    ghost var fails := deleteFails + flushFails;
    for i := 0 to |found|
      invariant removed + warnings == i && warnings == Failures(fails, i)
      invariant end == Along(s, found, i, deleteFails, fails)
    {
      var rule := found[i];
      if i in deleteFails {
        warnings := warnings + 1;
        continue;
      }
      end := end.(rules := DeleteExact(end.rules, rule));
      if i in flushFails {
        warnings := warnings + 1;
        continue;
      }
      end := end.(routes := FlushTable(end.routes, rule.table));
      removed := removed + 1;
    }
    AllAlong(s, found, deleteFails, fails);
    SelectedMembers(s.rules);
    AwayMembers(s.routes, TablesOf(found));
  }

  lemma AllAlong(s: State, found: seq<IpRule>, deleteFails: set<nat>, fails: set<nat>)
    requires found == SelectedRules(s.rules) && deleteFails <= fails
    ensures var end := Along(s, found, |found|, deleteFails, fails);
            && multiset(end.rules) == multiset(s.rules) - Deleted(found, deleteFails, |found|)
            && end.routes == AwayFrom(s.routes, Flushed(found, fails, |found|))
            && OtherRules(end.rules) == OtherRules(s.rules)
            && (Failures(fails, |found|) == 0 ==>
                  end.rules == OtherRules(s.rules) && end.routes == AwayFrom(s.routes, TablesOf(found)))
  {
    var end := Along(s, found, |found|, deleteFails, fails);
    SelectedMembers(s.rules);
    RoutesAlong(s, found, |found|, deleteFails, fails);
    CountsAlong(s, found, |found|, deleteFails, fails, end.rules, Deleted(found, deleteFails, |found|));
    OthersAlong(s, found, |found|, deleteFails, fails);
    if Failures(fails, |found|) == 0 {
      SelectedAlong(s, found, |found|, deleteFails, fails);
      assert found[|found|..] == [] && found[..|found|] == found;
      NoneSelected(end.rules);
      NothingFails(found, fails, |found|);
    }
  }
}
