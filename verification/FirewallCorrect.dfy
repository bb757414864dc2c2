/** The compiled firewall does what the payload asks, loads exactly when its set references are defined, and keeps its
    safety promises whatever the operator rules say. */
module FirewallCorrect {
  import opened Common
  import opened Blocks
  import opened Firewall
  import opened FirewallNft
  import opened FirewallMeaning

  // ---------------------------------------------------------------- the order of rules

  lemma {:induction false} LexIrreflexive(a: string)
    ensures !LexLess(a, a)
  {
    if a != "" {
      LexIrreflexive(a[1..]);
    }
  }

  lemma {:induction false} LexTransitive(a: string, b: string, c: string)
    requires LexLess(a, b) && LexLess(b, c)
    ensures LexLess(a, c)
  {
    if a != "" && a[0] == b[0] && b[0] == c[0] {
      LexTransitive(a[1..], b[1..], c[1..]);
    }
  }

  lemma {:induction false} LexTotal(a: string, b: string)
    ensures LexLess(a, b) || LexLess(b, a) || a == b
  {
    if a != "" && b != "" && a[0] == b[0] {
      LexTotal(a[1..], b[1..]);
      assert a == [a[0]] + a[1..] && b == [b[0]] + b[1..];
    }
  }

  /** The comparison is a strict weak order. */
  /** At the first position where two texts differ, the first one ends or has the smaller character. */
  ghost predicate DiffersAt(a: string, b: string, n: nat) {
    n <= |a| && n < |b| && a[..n] == b[..n] && (n == |a| || a[n] < b[n])
  }

  ghost predicate Earlier(a: string, b: string) {
    exists n: nat :: DiffersAt(a, b, n)
  }

  lemma SameHeads(a: string, b: string, n: nat)
    ensures DiffersAt(a, b, n) && n > 0 ==> a[0] == b[0]
  {
    if DiffersAt(a, b, n) && n > 0 {
      assert a[..n][0] == b[..n][0];
    }
  }

  /** Go's comparison is the order by the first difference. */
  lemma {:induction false} LexLessIff(a: string, b: string)
    ensures LexLess(a, b) <==> Earlier(a, b)
  {
    if a == "" || b == "" || a[0] != b[0] {
      if b != "" && (a == "" || a[0] < b[0]) {
        assert DiffersAt(a, b, 0);
      }
      forall n: nat | DiffersAt(a, b, n)
        ensures LexLess(a, b)
      {
        SameHeads(a, b, n);
      }
    } else {
      LexLessIff(a[1..], b[1..]);
      if n: nat :| DiffersAt(a[1..], b[1..], n) {
        assert a[..n + 1] == [a[0]] + a[1..][..n] && b[..n + 1] == [b[0]] + b[1..][..n];
        assert DiffersAt(a, b, n + 1);
      }
      if n: nat :| DiffersAt(a, b, n) {
        assert n > 0 && a[1..][..n - 1] == a[..n][1..] && b[1..][..n - 1] == b[..n][1..];
        assert DiffersAt(a[1..], b[1..], n - 1);
      }
    }
  }

  lemma BeforeWeakOrder(a: Rule, b: Rule, c: Rule)
    ensures !Before(a, a)
    ensures Before(a, b) ==> !Before(b, a)
    ensures Before(a, b) && !Before(c, b) ==> Before(a, c)
    ensures Before(a, b) && Before(b, c) ==> Before(a, c)
  {
    LexIrreflexive(a.id);
    LexTotal(b.id, c.id);
    if LexLess(a.id, b.id) && LexLess(b.id, c.id) {
      LexTransitive(a.id, b.id, c.id);
    }
    if LexLess(a.id, b.id) && LexLess(b.id, a.id) {
      LexTransitive(a.id, b.id, a.id);
    }
  }

  predicate InOrder(s: seq<Rule>) {
    forall i, j :: 0 <= i < j < |s| ==> !Before(s[j], s[i])
  }

  lemma {:induction false} InsertSortedMembers(s: seq<Rule>, r: Rule)
    ensures forall x :: x in InsertSorted(s, r) <==> x == r || x in s
  {
    if s != [] && !Before(r, s[0]) {
      InsertSortedMembers(s[1..], r);
      assert forall x :: x in s <==> x == s[0] || x in s[1..];
    }
  }

  lemma {:induction false} InsertSortedOrder(s: seq<Rule>, r: Rule)
    requires InOrder(s)
    ensures InOrder(InsertSorted(s, r))
  {
    if s != [] {
      if Before(r, s[0]) {
        forall j | 0 <= j < |s|
          ensures !Before(s[j], r)
        {
          BeforeWeakOrder(r, s[0], s[j]);
          BeforeWeakOrder(r, s[j], r);
        }
      } else {
        InsertSortedOrder(s[1..], r);
        InsertSortedMembers(s[1..], r);
        var tail := InsertSorted(s[1..], r);
        forall j | 0 <= j < |tail|
          ensures !Before(tail[j], s[0])
        {
          assert tail[j] in tail;
        }
      }
    }
  }

  lemma {:induction false} SortedInOrder(rules: seq<Rule>)
    ensures InOrder(SortRules(rules))
    ensures forall x :: x in SortRules(rules) <==> x in rules
  {
    if rules != [] {
      var front, r := rules[..|rules| - 1], rules[|rules| - 1];
      SortedInOrder(front);
      InsertSortedOrder(SortRules(front), r);
      InsertSortedMembers(SortRules(front), r);
      assert rules == front + [r];
    }
  }

  /** The first relevant rule of a list. */
  function FirstRelevant(s: seq<Rule>, lists: Lists, c: Chain, p: Packet): Option<Rule> {
    if s == [] then None
    else if Relevant(s[0], lists, c, p) then Some(s[0])
    else FirstRelevant(s[1..], lists, c, p)
  }

  lemma {:induction false} FirstRelevantMember(s: seq<Rule>, lists: Lists, c: Chain, p: Packet)
    ensures var f := FirstRelevant(s, lists, c, p); f.Some? ==> f.value in s && Relevant(f.value, lists, c, p)
    ensures FirstRelevant(s, lists, c, p).None? ==> forall x :: x in s ==> !Relevant(x, lists, c, p)
  {
    if s != [] {
      FirstRelevantMember(s[1..], lists, c, p);
      assert forall x :: x in s <==> x == s[0] || x in s[1..];
    }
  }

  /** Inserting a rule changes the first relevant one exactly when it is relevant and comes before it. */
  lemma {:induction false} FirstAfterInsert(s: seq<Rule>, r: Rule, lists: Lists, c: Chain, p: Packet)
    requires InOrder(s)
    ensures var f := FirstRelevant(s, lists, c, p);
            FirstRelevant(InsertSorted(s, r), lists, c, p)
            == if Relevant(r, lists, c, p) && (f.None? || Before(r, f.value)) then Some(r) else f
  {
    if s == [] {
      assert [r] + s == [r] && [r][1..] == [];
    } else if Before(r, s[0]) {
      assert ([r] + s)[1..] == s;
      FirstRelevantMember(s, lists, c, p);
      var f := FirstRelevant(s, lists, c, p);
      if f.Some? {
        var j :| 0 <= j < |s| && s[j] == f.value;
        assert j == 0 || !Before(s[j], s[0]);
        BeforeWeakOrder(r, s[0], f.value);
      }
    } else {
      FirstAfterInsert(s[1..], r, lists, c, p);
      assert InsertSorted(s, r)[1..] == InsertSorted(s[1..], r);
    }
  }

  /** No relevant rule comes before the deciding one. */
  lemma DecidingIsMinimal(rules: seq<Rule>, lists: Lists, c: Chain, p: Packet, b: nat, j: nat)
    requires b < |rules| && j < |rules| && Deciding(rules, lists, c, p, b) && Relevant(rules[j], lists, c, p)
    ensures !Before(rules[j], rules[b])
  {
    BeforeWeakOrder(rules[b], rules[j], rules[b]);
  }

  /** A last rule that comes before the deciding one decides in its place. */
  lemma LastTakesOver(rules: seq<Rule>, lists: Lists, c: Chain, p: Packet, b: nat)
    requires b < |rules| - 1 && Deciding(rules[..|rules| - 1], lists, c, p, b)
    requires Relevant(rules[|rules| - 1], lists, c, p) && Before(rules[|rules| - 1], rules[b])
    ensures Deciding(rules, lists, c, p, |rules| - 1)
  {
    var front, n := rules[..|rules| - 1], |rules| - 1;
    forall j | 0 <= j < n && Relevant(rules[j], lists, c, p)
      ensures Before(rules[n], rules[j])
    {
      DecidingIsMinimal(front, lists, c, p, b, j);
      BeforeWeakOrder(rules[n], rules[b], rules[j]);
    }
  }

  /** Otherwise the deciding rule stays. */
  lemma LastStaysBehind(rules: seq<Rule>, lists: Lists, c: Chain, p: Packet, b: nat)
    requires b < |rules| - 1 && Deciding(rules[..|rules| - 1], lists, c, p, b)
    requires Relevant(rules[|rules| - 1], lists, c, p) ==> !Before(rules[|rules| - 1], rules[b])
    ensures Deciding(rules, lists, c, p, b)
  {
    var front, n := rules[..|rules| - 1], |rules| - 1;
    forall j | 0 <= j < |rules| && j != b && Relevant(rules[j], lists, c, p)
      ensures if j < b then Before(rules[b], rules[j]) else !Before(rules[j], rules[b])
    {
      if j < n {
        assert front[j] == rules[j];
      }
    }
  }

  /** The payload position of the first relevant rule after sorting. */
  lemma {:induction false} SortedFirstDecides(rules: seq<Rule>, lists: Lists, c: Chain, p: Packet)
    returns (at: Option<nat>)
    ensures at.Some? ==> at.value < |rules| && Deciding(rules, lists, c, p, at.value)
    ensures FirstRelevant(SortRules(rules), lists, c, p) == if at.Some? then Some(rules[at.value]) else None
    ensures at.None? ==> forall i :: 0 <= i < |rules| ==> !Relevant(rules[i], lists, c, p)
    decreases |rules|
  {
    if rules == [] {
      return None;
    }
    var front, n := rules[..|rules| - 1], |rules| - 1;
    var before := SortedFirstDecides(front, lists, c, p);
    SortedInOrder(front);
    FirstAfterInsert(SortRules(front), rules[n], lists, c, p);
    if Relevant(rules[n], lists, c, p) && (before.None? || Before(rules[n], rules[before.value])) {
      if before.None? {
        assert forall j :: 0 <= j < n ==> front[j] == rules[j];
      } else {
        LastTakesOver(rules, lists, c, p, before.value);
      }
      return Some(n);
    }
    if before.Some? {
      LastStaysBehind(rules, lists, c, p, before.value);
    }
    return before;
  }

  // ---------------------------------------------------------------- operator lines

  predicate AllPortsNeedTransport(rules: seq<Rule>) {
    forall i :: 0 <= i < |rules| ==> PortsNeedTransport(rules[i])
  }

  lemma {:induction false} ParsedPorts(raws: seq<RawRule>)
    requires ParseAll(raws).Ok?
    ensures AllPortsNeedTransport(ParseAll(raws).value)
  {
    if raws != [] {
      ParsedPorts(raws[..|raws| - 1]);
    }
  }

  lemma SortedPorts(rules: seq<Rule>)
    requires AllPortsNeedTransport(rules)
    ensures AllPortsNeedTransport(SortRules(rules))
  {
    SortedInOrder(rules);
    var s := SortRules(rules);
    forall i | 0 <= i < |s|
      ensures PortsNeedTransport(s[i])
    {
      assert s[i] in s;
    }
  }

  function ActionOf(r: Option<Rule>): Option<Verdict> {
    if r.Some? then Some(r.value.action) else None
  }

  lemma {:induction false} FirstRelevantSnoc(front: seq<Rule>, r: Rule, lists: Lists, c: Chain, p: Packet)
    ensures var f := FirstRelevant(front, lists, c, p);
            FirstRelevant(front + [r], lists, c, p)
            == if f.Some? then f else if Relevant(r, lists, c, p) then Some(r) else None
    decreases |front|
  {
    if front == [] {
      assert front + [r] == [r] && [r][1..] == [];
    } else {
      assert (front + [r])[0] == front[0] && (front + [r])[1..] == front[1..] + [r];
      FirstRelevantSnoc(front[1..], r, lists, c, p);
    }
  }

  predicate AllRefsDefined(rules: seq<NftRule>, sets: Sets) {
    forall i :: 0 <= i < |rules| ==> RefsDefined(rules[i], sets)
  }

  /** The operator lines give every packet the action of the first relevant rule. */
  lemma {:induction false} OperatorLinesExact(rules: seq<Rule>, lists: Lists, c: Chain, p: Packet)
    requires AllPortsNeedTransport(rules) && RefsOrdered(lists) && Typed(SetMap(lists.ordered))
             && OperatorLines(rules, lists).Ok?
    ensures FirstVerdict(OperatorLines(rules, lists).value, SetMap(lists.ordered), c, p)
            == ActionOf(FirstRelevant(rules, lists, c, p))
    ensures AllRefsDefined(OperatorLines(rules, lists).value, SetMap(lists.ordered))
    decreases |rules|
  {
    if rules != [] {
      var front, r, sets := rules[..|rules| - 1], rules[|rules| - 1], SetMap(lists.ordered);
      OperatorLinesExact(front, lists, c, p);
      assert rules == front + [r];
      FirstRelevantSnoc(front, r, lists, c, p);
      if r.live {
        RuleLinesExact(r, lists, c, p);
        FirstVerdictAppend(OperatorLines(front, lists).value, RuleLines(r, lists).value, sets, c, p);
      }
    }
  }

  // ---------------------------------------------------------------- safety lines

  lemma SingletonHolds(m: Match, sets: Sets, p: Packet)
    ensures AllHold([m], sets, p) <==> Holds(m, sets, p)
  {
    if Holds(m, sets, p) {
      assert forall i :: 0 <= i < 1 ==> [m][i] == m;
    } else {
      assert [m][0] == m;
    }
  }

  lemma PairHolds(a: Match, b: Match, sets: Sets, p: Packet)
    ensures AllHold([a, b], sets, p) <==> Holds(a, sets, p) && Holds(b, sets, p)
  {
    assert [a, b] == [a] + [b];
    AllHoldAppend([a], [b], sets, p);
    SingletonHolds(a, sets, p);
    SingletonHolds(b, sets, p);
  }

  lemma TripleHolds(a: Match, b: Match, d: Match, sets: Sets, p: Packet)
    ensures AllHold([a, b, d], sets, p) <==> Holds(a, sets, p) && Holds(b, sets, p) && Holds(d, sets, p)
  {
    assert [a, b, d] == [a, b] + [d];
    AllHoldAppend([a, b], [d], sets, p);
    PairHolds(a, b, sets, p);
    SingletonHolds(d, sets, p);
  }

  /** A rule or a group of rules accepts a packet or says nothing. */
  function Grant(b: bool): Option<Verdict> {
    if b then Some(Accept) else None
  }

  lemma EstablishedExact(on: Chain, sets: Sets, c: Chain, p: Packet)
    ensures FirstVerdict([EstablishedLine(on)], sets, c, p)
            == Grant(c == on && (p.state == Established || p.state == Related))
  {
    FirstOfOne(EstablishedLine(on), sets, c, p);
    SingletonHolds(Ct([Established, Related]), sets, p);
  }

  lemma LoopbackExact(sets: Sets, c: Chain, p: Packet)
    ensures FirstVerdict([NftRule(Input, [LoopbackIn], Accept)], sets, c, p) == Grant(c == Input && p.fromLoopback)
    ensures FirstVerdict([NftRule(Out, [LoopbackOut], Accept)], sets, c, p) == Grant(c == Out && p.toLoopback)
  {
    FirstOfOne(NftRule(Input, [LoopbackIn], Accept), sets, c, p);
    FirstOfOne(NftRule(Out, [LoopbackOut], Accept), sets, c, p);
    SingletonHolds(LoopbackIn, sets, p);
    SingletonHolds(LoopbackOut, sets, p);
  }

  /** The state, protocol and port part of an SSH bootstrap rule. */
  predicate SshShape(ports: seq<nat>, p: Packet) {
    (p.state == New || p.state == Established) && p.protocol == Tcp && SshPort(ports, p.dport)
  }

  /** The ranges in the rule open exactly the bootstrap ports. */
  lemma SshPortsExact(ports: seq<nat>, port: nat)
    ensures InRanges(SshPorts(ports), port) <==> SshPort(ports, port)
  {
    var ranges := SshPorts(ports);
    if ports == [] {
      assert ranges[0] == PortRange(22, 22);
    } else {
      assert forall i :: 0 <= i < |ports| ==> ranges[i] == PortRange(ports[i], ports[i]);
      if port in ports {
        var i :| 0 <= i < |ports| && ports[i] == port;
        assert ranges[i].low <= port <= ranges[i].high;
      }
    }
  }

  lemma SshLineExact(lists: Lists, l: AddressList, f: Family, ports: seq<nat>, c: Chain, p: Packet)
    ensures FirstVerdict([SshLine(l, f, SshPorts(ports))], SetMap(lists.ordered), c, p)
            == Grant(c == Input && p.family == f && SshShape(ports, p) && NameContains(lists, l.name, p.At(Src)))
  {
    var sets, line := SetMap(lists.ordered), SshLine(l, f, SshPorts(ports));
    FirstOfOne(line, sets, c, p);
    TripleHolds(line.matches[0], line.matches[1], line.matches[2], sets, p);
    SetMapExact(lists.ordered, l.name, f, p.At(Src));
    SshPortsExact(ports, p.dport);
  }

  lemma SshLinesForExact(lists: Lists, key: string, ports: seq<nat>, c: Chain, p: Packet)
    ensures FirstVerdict(SshLinesFor(lists, key, SshPorts(ports)), SetMap(lists.ordered), c, p)
            == Grant(c == Input && SshShape(ports, p) && Bootstraps(lists, key)
               && NameContains(lists, lists.byRef[key].name, p.At(Src)))
  {
    if Bootstraps(lists, key) {
      var l := lists.byRef[key];
      FirstOfTwo(SshLine(l, V4, SshPorts(ports)), SshLine(l, V6, SshPorts(ports)), SetMap(lists.ordered), c, p);
      SshLineExact(lists, l, V4, ports, c, p);
      SshLineExact(lists, l, V6, ports, c, p);
    }
  }

  lemma SshLinesExact(lists: Lists, ports: seq<nat>, c: Chain, p: Packet)
    ensures FirstVerdict(SshLines(lists, ports), SetMap(lists.ordered), c, p)
            == Grant(c == Input && SshBootstrap(lists, ports, p))
  {
    var k0, k1 := BOOTSTRAP_LISTS[0], BOOTSTRAP_LISTS[1];
    FirstVerdictAppend(SshLinesFor(lists, k0, SshPorts(ports)), SshLinesFor(lists, k1, SshPorts(ports)),
      SetMap(lists.ordered), c, p);
    SshLinesForExact(lists, k0, ports, c, p);
    SshLinesForExact(lists, k1, ports, c, p);
    var one := Bootstraps(lists, k0) && NameContains(lists, lists.byRef[k0].name, p.At(Src));
    var two := Bootstraps(lists, k1) && NameContains(lists, lists.byRef[k1].name, p.At(Src));
    assert SshBootstrap(lists, ports, p) <==> SshShape(ports, p) && (one || two) by {
      if one {
        assert BOOTSTRAP_LISTS[0] == k0;
      }
      if two {
        assert BOOTSTRAP_LISTS[1] == k1;
      }
    }
  }

  lemma ControlPlaneExact(cp: ControlPlane, rules: seq<Rule>, sets: Sets, c: Chain, p: Packet)
    requires ControlPlaneLine(cp, rules).Ok?
    ensures FirstVerdict(ControlPlaneLine(cp, rules).value, sets, c, p)
            == Grant(c == Out && cp.Literal? && p.At(Dst) == cp.addr && p.protocol == Tcp && p.dport == cp.port)
  {
    if cp.Literal? {
      var line := ControlPlaneLine(cp, rules).value[0];
      FirstOfOne(line, sets, c, p);
      PairHolds(line.matches[0], line.matches[1], sets, p);
      var host := Cidr(cp.addr.family, cp.addr.value, Width(cp.addr.family));
      assert host.Size() == 1;
      assert Masked(p.dst, 1) == p.dst && Masked(cp.addr.value, 1) == cp.addr.value;
      assert InRanges([PortRange(cp.port, cp.port)], p.dport) <==> p.dport == cp.port by {
        if p.dport == cp.port {
          assert [PortRange(cp.port, cp.port)][0].low <= p.dport;
        }
      }
    }
  }

  lemma InputSafety(d: Defaults, lists: Lists, ports: seq<nat>, c: Chain, p: Packet)
    ensures var lines := [EstablishedLine(Input), NftRule(Input, [LoopbackIn], Accept)] + SshLines(lists, ports);
            FirstVerdict(lines, SetMap(lists.ordered), c, p)
            == Grant(c == Input && (p.state == Established || p.state == Related || p.fromLoopback
               || SshBootstrap(lists, ports, p)))
  {
    var sets := SetMap(lists.ordered);
    FirstVerdictAppend([EstablishedLine(Input), NftRule(Input, [LoopbackIn], Accept)], SshLines(lists, ports), sets,
      c, p);
    FirstOfTwo(EstablishedLine(Input), NftRule(Input, [LoopbackIn], Accept), sets, c, p);
    EstablishedExact(Input, sets, c, p);
    LoopbackExact(sets, c, p);
    SshLinesExact(lists, ports, c, p);
  }

  lemma OutputSafety(cp: ControlPlane, rules: seq<Rule>, sets: Sets, c: Chain, p: Packet)
    requires ControlPlaneLine(cp, rules).Ok?
    ensures var lines := [EstablishedLine(Out), NftRule(Out, [LoopbackOut], Accept)]
            + ControlPlaneLine(cp, rules).value;
            FirstVerdict(lines, sets, c, p)
            == Grant(c == Out && (p.state == Established || p.state == Related || p.toLoopback
                                  || (cp.Literal? && p.At(Dst) == cp.addr && p.protocol == Tcp && p.dport == cp.port)))
  {
    FirstVerdictAppend([EstablishedLine(Out), NftRule(Out, [LoopbackOut], Accept)], ControlPlaneLine(cp, rules).value,
      sets, c, p);
    FirstOfTwo(EstablishedLine(Out), NftRule(Out, [LoopbackOut], Accept), sets, c, p);
    EstablishedExact(Out, sets, c, p);
    LoopbackExact(sets, c, p);
    ControlPlaneExact(cp, rules, sets, c, p);
  }

  /** The safety lines accept exactly the safe packets and say nothing about the others. */
  lemma SafetyLinesExact(d: Defaults, payload: Payload, rules: seq<Rule>, lists: Lists, c: Chain, p: Packet)
    requires SafetyLines(d, payload, rules, lists).Ok?
    ensures FirstVerdict(SafetyLines(d, payload, rules, lists).value, SetMap(lists.ordered), c, p)
            == Grant(SafePacket(d, payload, lists, c, p))
  {
    if d.enforce {
      var sets := SetMap(lists.ordered);
      var input := if d.input == Accept then [] else
        [EstablishedLine(Input), NftRule(Input, [LoopbackIn], Accept)] + SshLines(lists, payload.sshPorts);
      var forward := if d.forward == Accept then [] else [EstablishedLine(Forward)];
      InputSafety(d, lists, payload.sshPorts, c, p);
      EstablishedExact(Forward, sets, c, p);
      FirstVerdictAppend(input, forward, sets, c, p);
      if d.output != Accept {
        var cp := ControlPlaneLine(payload.controlPlane, rules).value;
        FirstVerdictAppend(input + forward, [EstablishedLine(Out), NftRule(Out, [LoopbackOut], Accept)] + cp, sets, c,
          p);
        OutputSafety(payload.controlPlane, rules, sets, c, p);
      }
    }
  }

  // ---------------------------------------------------------------- default policy

  lemma RejectLineExact(d: Defaults, on: Chain, sets: Sets, c: Chain, p: Packet)
    ensures FirstVerdict(RejectLine(d, on), sets, c, p)
            == if c == on && d.enforce && d.For(on) == Reject then Some(Reject) else None
  {
    if d.enforce && d.For(on) == Reject {
      FirstOfOne(NftRule(on, [], Reject), sets, c, p);
    }
  }

  lemma RejectLinesExact(d: Defaults, sets: Sets, c: Chain, p: Packet)
    ensures FirstVerdict(RejectLines(d), sets, c, p) == if d.enforce && d.For(c) == Reject then Some(Reject) else None
  {
    var i, f, o := RejectLine(d, Input), RejectLine(d, Forward), RejectLine(d, Out);
    FirstVerdictAppend(i + f, o, sets, c, p);
    FirstVerdictAppend(i, f, sets, c, p);
    RejectLineExact(d, Input, sets, c, p);
    RejectLineExact(d, Forward, sets, c, p);
    RejectLineExact(d, Out, sets, c, p);
  }

  // ---------------------------------------------------------------- loading

  lemma {:induction false} RunRuleCommands(rules: seq<NftRule>, t: Table)
    requires forall c: Chain :: t.policies.For(c).Some?
    ensures Run(RuleCommands(rules), HasTable(t))
            == if AllRefsDefined(rules, t.sets) then HasTable(t.(rules := t.rules + rules)) else Refused
    decreases |rules|
  {
    if rules == [] {
      assert t.rules + rules == t.rules;
    } else {
      var cmds := RuleCommands(rules);
      assert cmds[1..] == RuleCommands(rules[1..]);
      assert AllRefsDefined(rules, t.sets) <==> RefsDefined(rules[0], t.sets) && AllRefsDefined(rules[1..], t.sets) by {
        if RefsDefined(rules[0], t.sets) && AllRefsDefined(rules[1..], t.sets) {
          forall i | 0 <= i < |rules|
            ensures RefsDefined(rules[i], t.sets)
          {
            assert i > 0 ==> rules[i] == rules[1..][i - 1];
          }
        }
      }
      if RefsDefined(rules[0], t.sets) {
        RunRuleCommands(rules[1..], t.(rules := t.rules + [rules[0]]));
        assert t.rules + [rules[0]] + rules[1..] == t.rules + rules;
      } else {
        RunRefused(cmds[1..]);
      }
    }
  }

  function PoliciesOf(d: Defaults): Policies {
    Policies(Some(BasePolicy(d.input, d.enforce)), Some(BasePolicy(d.forward, d.enforce)),
      Some(BasePolicy(d.output, d.enforce)))
  }

  lemma RunReset(d: Defaults, t: Table)
    ensures Run(ResetCommands(d), HasTable(t)) == HasTable(Table(PoliciesOf(d), map[], []))
  {
    var i, f, o := AddChain(Input, BasePolicy(d.input, d.enforce)), AddChain(Forward, BasePolicy(d.forward, d.enforce)),
                   AddChain(Out, BasePolicy(d.output, d.enforce));
    assert ResetCommands(d)[1..] == [AddTable, i, f, o] && [AddTable, i, f, o][1..] == [i, f, o];
    assert [i, f, o][1..] == [f, o] && [f, o][1..] == [o] && [o][1..] == [];
    var empty := HasTable(EMPTY);
    assert Run(ResetCommands(d), HasTable(t)) == Run([AddTable, i, f, o], NoTable) == Run([i, f, o], empty);
    var one := Exec(i, empty);
    var two := Exec(f, one);
    assert Run([i, f, o], empty) == Run([f, o], one) == Run([o], two);
    assert Run([o], two) == Exec(o, two);
  }

  function Loaded(k: Compiled): Table {
    Table(PoliciesOf(k.defaults), SetMap(k.lists.ordered), k.Rules())
  }

  /** The script either loads the compiled table or, when some rule names an undefined set, is refused as a whole. */
  lemma ScriptLoads(k: Compiled, t: Table)
    ensures Run(k.Script(), HasTable(t))
            == if AllRefsDefined(k.Rules(), SetMap(k.lists.ordered)) then HasTable(Loaded(k)) else Refused
  {
    RunAppend(ResetCommands(k.defaults) + SetCommands(k.lists.ordered), RuleCommands(k.Rules()), HasTable(t));
    RunAppend(ResetCommands(k.defaults), SetCommands(k.lists.ordered), HasTable(t));
    RunReset(k.defaults, t);
    var reset := Table(PoliciesOf(k.defaults), map[], []);
    RunSetCommands(k.lists.ordered, reset);
    var ready := reset.(sets := SetMap(k.lists.ordered));
    RunRuleCommands(k.Rules(), ready);
    assert [] + k.Rules() == k.Rules();
  }

  /** The SSH bootstrap rules name the sets of both families of a list; this is when all those sets exist. */
  predicate BootstrapSetsDefined(k: Compiled) {
    k.defaults.enforce && k.defaults.input != Accept ==>
      forall i, f: Family :: 0 <= i < |BOOTSTRAP_LISTS| && Bootstraps(k.lists, BOOTSTRAP_LISTS[i]) ==>
        NameHas(k.lists.ordered, k.lists.byRef[BOOTSTRAP_LISTS[i]].name, f)
  }

  lemma AllRefsAppend(a: seq<NftRule>, b: seq<NftRule>, sets: Sets)
    ensures AllRefsDefined(a + b, sets) <==> AllRefsDefined(a, sets) && AllRefsDefined(b, sets)
  {
    if AllRefsDefined(a + b, sets) {
      forall i | 0 <= i < |a|
        ensures RefsDefined(a[i], sets)
      {
        assert (a + b)[i] == a[i];
      }
      forall i | 0 <= i < |b|
        ensures RefsDefined(b[i], sets)
      {
        assert (a + b)[|a| + i] == b[i];
      }
    }
  }

  lemma SshRefs(lists: Lists, key: string, ports: seq<PortRange>)
    requires Typed(SetMap(lists.ordered))
    ensures AllRefsDefined(SshLinesFor(lists, key, ports), SetMap(lists.ordered)) <==>
              (Bootstraps(lists, key) ==>
                 NameHas(lists.ordered, lists.byRef[key].name, V4) && NameHas(lists.ordered, lists.byRef[key].name, V6))
  {
    if Bootstraps(lists, key) {
      var l, sets, lines := lists.byRef[key], SetMap(lists.ordered), SshLinesFor(lists, key, ports);
      SetMapExact(lists.ordered, l.name, V4, Addr(V4, 0));
      SetMapExact(lists.ordered, l.name, V6, Addr(V6, 0));
      assert RefsDefined(lines[0], sets) <==> SetName(l.name, V4) in sets by {
        assert lines[0].matches[1].InSet?;
      }
      assert RefsDefined(lines[1], sets) <==> SetName(l.name, V6) in sets by {
        assert lines[1].matches[1].InSet?;
      }
    }
  }

  lemma FixedLineRefs(c: Chain, m: Match, sets: Sets)
    requires !m.InSet?
    ensures AllRefsDefined([EstablishedLine(c)], sets)
            && AllRefsDefined([EstablishedLine(c), NftRule(c, [m], Accept)], sets)
  {
  }

  lemma ControlPlaneRefs(cp: ControlPlane, rules: seq<Rule>, sets: Sets)
    requires ControlPlaneLine(cp, rules).Ok?
    ensures AllRefsDefined(ControlPlaneLine(cp, rules).value, sets)
  {
  }

  lemma RejectRefs(d: Defaults, sets: Sets)
    ensures AllRefsDefined(RejectLines(d), sets)
  {
  }

  /** Of three groups of lines of which two name no set, the first decides. */
  lemma ThreeGroups(a: seq<NftRule>, b: seq<NftRule>, c: seq<NftRule>, sets: Sets)
    requires AllRefsDefined(b, sets) && AllRefsDefined(c, sets)
    ensures AllRefsDefined(a + b, sets) <==> AllRefsDefined(a, sets)
    ensures AllRefsDefined(a + b + c, sets) <==> AllRefsDefined(a, sets)
  {
    AllRefsAppend(a, b, sets);
    AllRefsAppend(a + b, c, sets);
  }

  /** Apart from SSH bootstrap, no safety rule names a set. */
  lemma SafetyRefs(d: Defaults, payload: Payload, rules: seq<Rule>, lists: Lists, sets: Sets)
    requires SafetyLines(d, payload, rules, lists).Ok?
    ensures AllRefsDefined(SafetyLines(d, payload, rules, lists).value, sets) <==>
              (d.enforce && d.input != Accept ==> AllRefsDefined(SshLines(lists, payload.sshPorts), sets))
  {
    if d.enforce {
      var ssh := SshLines(lists, payload.sshPorts);
      var first := [EstablishedLine(Input), NftRule(Input, [LoopbackIn], Accept)];
      var input := if d.input == Accept then [] else first + ssh;
      var forward := if d.forward == Accept then [] else [EstablishedLine(Forward)];
      FixedLineRefs(Input, LoopbackIn, sets);
      FixedLineRefs(Forward, LoopbackOut, sets);
      FixedLineRefs(Out, LoopbackOut, sets);
      AllRefsAppend(first, ssh, sets);
      if d.output == Accept {
        ThreeGroups(input, forward, [], sets);
      } else {
        var output, cp := [EstablishedLine(Out), NftRule(Out, [LoopbackOut], Accept)],
          ControlPlaneLine(payload.controlPlane, rules).value;
        ControlPlaneRefs(payload.controlPlane, rules, sets);
        AllRefsAppend(output, cp, sets);
        ThreeGroups(input, forward, output + cp, sets);
      }
    }
  }

  lemma SshLinesRefs(k: Compiled, ports: seq<nat>)
    requires Typed(SetMap(k.lists.ordered)) && k.defaults.enforce && k.defaults.input != Accept
    ensures AllRefsDefined(SshLines(k.lists, ports), SetMap(k.lists.ordered)) <==> BootstrapSetsDefined(k)
  {
    var lists, k0, k1 := k.lists, BOOTSTRAP_LISTS[0], BOOTSTRAP_LISTS[1];
    AllRefsAppend(SshLinesFor(lists, k0, SshPorts(ports)), SshLinesFor(lists, k1, SshPorts(ports)),
      SetMap(lists.ordered));
    SshRefs(lists, k0, SshPorts(ports));
    SshRefs(lists, k1, SshPorts(ports));
    var one := Bootstraps(lists, k0)
      ==> NameHas(lists.ordered, lists.byRef[k0].name, V4) && NameHas(lists.ordered, lists.byRef[k0].name, V6);
    var two := Bootstraps(lists, k1)
      ==> NameHas(lists.ordered, lists.byRef[k1].name, V4) && NameHas(lists.ordered, lists.byRef[k1].name, V6);
    if BootstrapSetsDefined(k) {
      assert BOOTSTRAP_LISTS[0] == k0 && BOOTSTRAP_LISTS[1] == k1;
      assert one && two;
    }
    if one && two {
      forall i, f: Family | 0 <= i < |BOOTSTRAP_LISTS| && Bootstraps(lists, BOOTSTRAP_LISTS[i])
        ensures NameHas(lists.ordered, lists.byRef[BOOTSTRAP_LISTS[i]].name, f)
      {
        assert f == V4 || f == V6;
      }
    }
  }

  /** What a successful compilation gives its parts. */
  lemma CompiledParts(slug: Slug, payload: Payload)
    requires Compile(slug, payload).Ok?
    ensures var k := Compile(slug, payload).value;
            && RefsOrdered(k.lists) && Typed(SetMap(k.lists.ordered)) && AllPortsNeedTransport(SortRules(k.rules))
            && SafetyLines(k.defaults, payload, SortRules(k.rules), k.lists) == Ok(k.safety)
            && OperatorLines(SortRules(k.rules), k.lists) == Ok(k.operator)
  {
    var k := Compile(slug, payload).value;
    ParsedRefsOrdered(slug, payload.lists);
    RunSetCommands(k.lists.ordered, EMPTY);
    ParsedPorts(payload.rules);
    SortedPorts(k.rules);
  }

  /** A compiled plan loads if and only if every SSH bootstrap list that gets a rule has entries in both families;
      operator rules never stand in the way. */
  lemma LoadsIff(slug: Slug, payload: Payload, t: Table)
    requires Compile(slug, payload).Ok?
    ensures var k := Compile(slug, payload).value;
            Run(k.Script(), HasTable(t)) == if BootstrapSetsDefined(k) then HasTable(Loaded(k)) else Refused
  {
    var k := Compile(slug, payload).value;
    CompiledParts(slug, payload);
    ScriptLoads(k, t);
    var sets, sorted := SetMap(k.lists.ordered), SortRules(k.rules);
    OperatorLinesExact(sorted, k.lists, Input, Packet(V4, 0, 0, Any, 0, 0, New, false, false));
    RejectRefs(k.defaults, sets);
    ThreeGroups(k.safety, k.operator, RejectLines(k.defaults), sets);
    SafetyRefs(k.defaults, payload, sorted, k.lists, sets);
    if k.defaults.enforce && k.defaults.input != Accept {
      SshLinesRefs(k, payload.sshPorts);
    }
  }

  // ---------------------------------------------------------------- the main theorem

  /** Compilation preserves meaning: on every chain the loaded table gives every packet the verdict the payload asks
      for. */
  lemma CompiledMeaning(slug: Slug, payload: Payload, c: Chain, p: Packet)
    requires Compile(slug, payload).Ok?
    ensures var k := Compile(slug, payload).value;
            Evaluate(Loaded(k), c, p).Some? && Asks(payload, k, c, p, Evaluate(Loaded(k), c, p).value)
  {
    var k := Compile(slug, payload).value;
    CompiledParts(slug, payload);
    var sets, sorted := SetMap(k.lists.ordered), SortRules(k.rules);
    FirstVerdictAppend(k.safety + k.operator, RejectLines(k.defaults), sets, c, p);
    FirstVerdictAppend(k.safety, k.operator, sets, c, p);
    SafetyLinesExact(k.defaults, payload, sorted, k.lists, c, p);
    OperatorLinesExact(sorted, k.lists, c, p);
    RejectLinesExact(k.defaults, sets, c, p);
    var at := SortedFirstDecides(k.rules, k.lists, c, p);
  }

  /** Safety for all operator rules: with an enforced default other than accept, established and related packets,
      loopback packets, and TCP to the control plane's literal address and port are accepted. */
  lemma SafetyHolds(slug: Slug, payload: Payload, c: Chain, p: Packet)
    requires Compile(slug, payload).Ok? && payload.enforce && Compile(slug, payload).value.defaults.For(c) != Accept
    requires || p.state == Established || p.state == Related
             || (c == Input && p.fromLoopback) || (c == Out && p.toLoopback)
             || (c == Out && payload.controlPlane.Literal? && p.At(Dst) == payload.controlPlane.addr
                 && p.protocol == Tcp && p.dport == payload.controlPlane.port)
    ensures Evaluate(Loaded(Compile(slug, payload).value), c, p) == Some(Accept)
  {
    CompiledMeaning(slug, payload, c, p);
  }

  /** With distinct set names, being in a list is being covered by one of its own entries. */
  lemma DistinctNames(lists: Lists, i: nat, a: Addr)
    requires i < |lists.ordered|
    requires forall x, y :: 0 <= x < y < |lists.ordered| ==> lists.ordered[x].name != lists.ordered[y].name
    ensures ListContains(lists, lists.ordered[i], a) <==> ContainsAny(lists.ordered[i].Of(a.family), a)
  {
    if ListContains(lists, lists.ordered[i], a) {
      var j :| 0 <= j < |lists.ordered| && lists.ordered[j].name == lists.ordered[i].name
        && ContainsAny(lists.ordered[j].Of(a.family), a);
      assert i == j;
    }
  }
}
