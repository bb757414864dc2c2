/** From a route-policy payload to a plan: the rule builders, the cleanup targets and `renderRoutePolicyKernelScript` up
    to the script text.  Text fields appear in parsed form. */
module RoutePolicyPlan {
  import opened Common
  import opened Kernel

  const SYSTEM_PRIORITY := 21900
  const SYSTEM_PRIORITY_TO := 21949
  const PRIORITY := 22000
  const PRIORITY_TO := 22999
  const SYSTEM_MARK := 0x4d550000
  const MARK := 0x4d560000

  // ---------------------------------------------------------------- payload

  /** A trimmed text that must be a safe network token. */
  datatype Token = Absent | Unsafe | Safe(name: string)

  datatype TableField = NoTable | MainTable | UnsafeTable | TableId(id: nat)

  datatype DestinationField = Missing | Invalid | Valid(prefix: Prefix)

  datatype PortRange = PortRange(low: nat, high: nat)

  datatype PortsField = NoPorts | BadPorts | Ports(ranges: seq<PortRange>)

  datatype Protocol = Any | Tcp | Udp | Icmp | OtherProtocol

  datatype RawCandidate = RawCandidate(present: bool, dev: Token, via: Token, metric: int, peer: Option<nat>)

  datatype RawEgress = RawEgress(backhauls: seq<RawCandidate>, single: RawCandidate)

  datatype SystemRoute = SystemRoute(present: bool, active: bool, source: Option<Prefix>, destination: DestinationField,
                                     table: TableField, egress: RawEgress)

  datatype ClientRoute = ClientRoute(present: bool, candidateMode: bool, active: bool, allow: bool,
                                     source: Option<Prefix>, destination: Option<Prefix>, egressCandidate: bool,
                                     table: TableField, egress: RawEgress, protocol: Protocol, ports: PortsField)

  /** `routePolicyCleanupSnapshot` */
  datatype Snapshot = Snapshot(routes: seq<ClientRoute>, systemRoutes: seq<SystemRoute>)

  // ---------------------------------------------------------------- plan

  datatype Candidate = Candidate(dev: string, via: string, table: nat, metric: nat, peer: Option<nat>)

  datatype Rule = Rule(source: Prefix, destination: Prefix, protocol: Protocol, ports: seq<PortRange>, table: nat,
                       candidates: seq<Candidate>, priority: nat, mark: nat) {
    function Where(): Target {
      Target(destination, table)
    }
  }

  datatype Plan = Plan(system: seq<Rule>, client: seq<Rule>, targets: seq<Target>)

  datatype Build = Skip | Fail(error: string) | Built(rule: Rule)

  /** `routePolicyKernelCandidateFromMap` */
  function BuildCandidate(raw: RawCandidate, table: nat): Result<Option<Candidate>> {
    if !raw.present || raw.dev.Absent? then Ok(None)
    else if raw.dev.Unsafe? then Err("unsafe dev token")
    else if raw.via.Unsafe? then Err("unsafe next-hop token")
    else
      Ok(Some(Candidate(raw.dev.name, if raw.via.Safe? then raw.via.name else "", table,
                        if raw.metric <= 0 then 50 else raw.metric, raw.peer)))
  }

  function ListCandidates(raws: seq<RawCandidate>, table: nat): Result<seq<Candidate>> {
    if raws == [] then Ok([])
    else
      var front :- ListCandidates(raws[..|raws| - 1], table);
      var c :- BuildCandidate(raws[|raws| - 1], table);
      Ok(if c.Some? then front + [c.value] else front)
  }

  /** `routePolicyKernelCandidatesFromEgress`: the managed backhauls, or else the single interface. */
  function Candidates(egress: RawEgress, table: nat): Result<seq<Candidate>> {
    var listed :- ListCandidates(egress.backhauls, table);
    if listed != [] then Ok(listed)
    else
      var c :- BuildCandidate(egress.single, table);
      Ok(if c.Some? then [c.value] else [])
  }

  /** `routePolicyKernelRuleFromSystemRoute` */
  function BuildSystemRule(raw: SystemRoute, idx: nat): Build {
    if !raw.present || !raw.active || raw.source.None? || raw.destination.Invalid? || raw.table.NoTable?
      || raw.table.MainTable? then Skip
    else if raw.table.UnsafeTable? then Fail("unsafe table token")
    else
      var table := raw.table.id;
      var candidates := Candidates(raw.egress, table);
      if candidates.Err? then Fail(candidates.error)
      else if candidates.value == [] then Skip
      else if SYSTEM_PRIORITY + idx > SYSTEM_PRIORITY_TO then Fail("too many system route policy rules")
      else Built(Rule(raw.source.value,
                      if raw.destination.Missing? then DEFAULT else raw.destination.prefix, Any, [], table,
                      candidates.value, SYSTEM_PRIORITY + idx, SYSTEM_MARK + idx + 1))
  }

  /** `routePolicyKernelRuleFromRoute` */
  function BuildClientRule(raw: ClientRoute, idx: nat): Build {
    if !raw.active || !raw.allow || raw.source.None? || raw.destination.None? || !raw.egressCandidate
       || raw.table.NoTable? || raw.table.MainTable? then Skip
    else if raw.table.UnsafeTable? then Fail("unsafe table token")
    else
      var table := raw.table.id;
      var candidates := Candidates(raw.egress, table);
      if candidates.Err? then Fail(candidates.error)
      else if candidates.value == [] || raw.protocol.OtherProtocol? then Skip
      else if raw.ports.BadPorts? then Fail("invalid route policy port")
      else
        var ports := if raw.ports.NoPorts? then [] else raw.ports.ranges;
        if ports != [] && !raw.protocol.Tcp? && !raw.protocol.Udp? then Skip
        else if PRIORITY + idx > PRIORITY_TO then Fail("too many route policy rules")
        else Built(Rule(raw.source.value, raw.destination.value, raw.protocol, ports, table, candidates.value,
                        PRIORITY + idx, MARK + idx + 1))
  }

  function SystemRules(raws: seq<SystemRoute>): Result<seq<Rule>> {
    if raws == [] then Ok([])
    else
      var front :- SystemRules(raws[..|raws| - 1]);
      match BuildSystemRule(raws[|raws| - 1], |front|)
      case Skip => Ok(front)
      case Fail(e) => Err(e)
      case Built(rule) => Ok(front + [rule])
  }

  /** A payload entry that is not an enforceable candidate is passed over silently. */
  function ClientRules(raws: seq<ClientRoute>): Result<seq<Rule>> {
    if raws == [] then Ok([])
    else
      var front :- ClientRules(raws[..|raws| - 1]);
      var raw := raws[|raws| - 1];
      if !raw.present || !raw.candidateMode then Ok(front)
      else
        match BuildClientRule(raw, |front|)
        case Skip => Ok(front)
        case Fail(e) => Err(e)
        case Built(rule) => Ok(front + [rule])
  }

  // ---------------------------------------------------------------- cleanup targets

  function RuleTargets(rules: seq<Rule>): seq<Target> {
    if rules == [] then [] else RuleTargets(rules[..|rules| - 1]) + [rules[|rules| - 1].Where()]
  }

  function SystemTarget(raw: SystemRoute): Option<Target> {
    if raw.present && raw.active && !raw.destination.Invalid? && raw.table.TableId?
    then Some(Target(if raw.destination.Missing? then DEFAULT else raw.destination.prefix, raw.table.id))
    else None
  }

  function ClientTarget(raw: ClientRoute): Option<Target> {
    if raw.present && raw.active && raw.allow && raw.candidateMode && raw.egressCandidate && raw.destination.Some?
      && raw.table.TableId?
    then Some(Target(raw.destination.value, raw.table.id))
    else None
  }

  function SystemTargets(raws: seq<SystemRoute>): seq<Target> {
    if raws == [] then []
    else
      var t := SystemTarget(raws[|raws| - 1]);
      SystemTargets(raws[..|raws| - 1]) + if t.Some? then [t.value] else []
  }

  function ClientTargets(raws: seq<ClientRoute>): seq<Target> {
    if raws == [] then []
    else
      var t := ClientTarget(raws[|raws| - 1]);
      ClientTargets(raws[..|raws| - 1]) + if t.Some? then [t.value] else []
  }

  /** `routePolicyCleanupTargetsFromSnapshot` */
  function SnapshotTargets(s: Snapshot): seq<Target> {
    SystemTargets(s.systemRoutes) + ClientTargets(s.routes)
  }

  /** `dedupeRoutePolicyCleanupTargets`: the first occurrence of each target. */
  function Dedupe(targets: seq<Target>): seq<Target> {
    if targets == [] then []
    else
      var front, t := Dedupe(targets[..|targets| - 1]), targets[|targets| - 1];
      if t in front then front else front + [t]
  }

  lemma {:induction false} DedupeExact(targets: seq<Target>)
    ensures forall t :: t in Dedupe(targets) <==> t in targets
    ensures forall i, j :: 0 <= i < j < |Dedupe(targets)| ==> Dedupe(targets)[i] != Dedupe(targets)[j]
  {
    if targets != [] {
      DedupeExact(targets[..|targets| - 1]);
      assert targets == targets[..|targets| - 1] + [targets[|targets| - 1]];
    }
  }

  /** The plan for a payload, given the snapshot that was stored before it. */
  function Render(s: Snapshot, previous: Snapshot): Result<Plan> {
    var system :- SystemRules(s.systemRoutes);
    var client :- ClientRules(s.routes);
    Ok(Plan(system, client, Dedupe(RuleTargets(system) + RuleTargets(client) + SnapshotTargets(previous))))
  }

  // ---------------------------------------------------------------- the loops of the code

  method CollectSystemRules(raws: seq<SystemRoute>) returns (r: Result<seq<Rule>>)
    ensures r == SystemRules(raws)
  {
    var rules: seq<Rule> := [];
    assert raws[..0] == [];
    for i := 0 to |raws|
      invariant SystemRules(raws[..i]) == Ok(rules)
    {
      assert raws[..i + 1][..i] == raws[..i];
      match BuildSystemRule(raws[i], |rules|)
      case Skip =>
      case Fail(e) =>
        SystemErrorStays(raws, i + 1);
        return Err(e);
      case Built(rule) =>
        rules := rules + [rule];
    }
    assert raws[..|raws|] == raws;
    return Ok(rules);
  }

  method CollectClientRules(raws: seq<ClientRoute>) returns (r: Result<seq<Rule>>)
    ensures r == ClientRules(raws)
  {
    var rules: seq<Rule> := [];
    assert raws[..0] == [];
    for i := 0 to |raws|
      invariant ClientRules(raws[..i]) == Ok(rules)
    {
      assert raws[..i + 1][..i] == raws[..i];
      if !raws[i].present || !raws[i].candidateMode {
        continue;
      }
      match BuildClientRule(raws[i], |rules|)
      case Skip =>
      case Fail(e) =>
        ClientErrorStays(raws, i + 1);
        return Err(e);
      case Built(rule) =>
        rules := rules + [rule];
    }
    assert raws[..|raws|] == raws;
    return Ok(rules);
  }

  lemma {:induction false} SystemErrorStays(raws: seq<SystemRoute>, n: nat)
    requires n <= |raws| && SystemRules(raws[..n]).Err?
    ensures SystemRules(raws) == SystemRules(raws[..n])
    decreases |raws|
  {
    if n < |raws| {
      var front := raws[..|raws| - 1];
      assert front[..n] == raws[..n];
      SystemErrorStays(front, n);
    } else {
      assert raws[..n] == raws;
    }
  }

  lemma {:induction false} ClientErrorStays(raws: seq<ClientRoute>, n: nat)
    requires n <= |raws| && ClientRules(raws[..n]).Err?
    ensures ClientRules(raws) == ClientRules(raws[..n])
    decreases |raws|
  {
    if n < |raws| {
      var front := raws[..|raws| - 1];
      assert front[..n] == raws[..n];
      ClientErrorStays(front, n);
    } else {
      assert raws[..n] == raws;
    }
  }

  method DedupeTargets(targets: seq<Target>) returns (out: seq<Target>)
    ensures out == Dedupe(targets)
  {
    out := [];
    var seen: set<Target> := {};
    assert targets[..0] == [];
    for i := 0 to |targets|
      invariant out == Dedupe(targets[..i])
      invariant forall t :: t in seen <==> t in out
    {
      assert targets[..i + 1][..i] == targets[..i];
      if targets[i] in seen {
        continue;
      }
      seen := seen + {targets[i]};
      out := out + [targets[i]];
    }
    assert targets[..|targets|] == targets;
  }

  // ---------------------------------------------------------------- what every plan satisfies

  /** Priorities and marks number the rules of a family from its base on. */
  predicate Numbered(rules: seq<Rule>, priority: nat, last: nat, mark: nat) {
    && priority + |rules| <= last + 1
    && forall i :: 0 <= i < |rules| ==> rules[i].priority == priority + i && rules[i].mark == mark + i + 1
  }

  lemma {:induction false} ListCandidatesOk(raws: seq<RawCandidate>, table: nat)
    requires ListCandidates(raws, table).Ok?
    ensures forall i :: 0 <= i < |ListCandidates(raws, table).value| ==>
              ListCandidates(raws, table).value[i].table == table
  {
    if raws != [] {
      ListCandidatesOk(raws[..|raws| - 1], table);
    }
  }

  predicate Usable(r: Rule) {
    && r.candidates != []
    && (forall i :: 0 <= i < |r.candidates| ==> r.candidates[i].table == r.table)
    && !r.protocol.OtherProtocol?
    && (r.ports != [] ==> r.protocol.Tcp? || r.protocol.Udp?)
  }

  predicate AllUsable(rules: seq<Rule>) {
    forall i :: 0 <= i < |rules| ==> Usable(rules[i])
  }

  lemma CandidatesOk(egress: RawEgress, table: nat)
    requires Candidates(egress, table).Ok?
    ensures forall i :: 0 <= i < |Candidates(egress, table).value| ==> Candidates(egress, table).value[i].table == table
  {
    ListCandidatesOk(egress.backhauls, table);
  }

  /** Rules, marks and priorities of a system plan, and each rule's target among the snapshot's cleanup targets. */
  lemma {:induction false} SystemRulesOk(raws: seq<SystemRoute>)
    requires SystemRules(raws).Ok?
    ensures var rules := SystemRules(raws).value;
            && Numbered(rules, SYSTEM_PRIORITY, SYSTEM_PRIORITY_TO, SYSTEM_MARK) && AllUsable(rules)
            && forall i :: 0 <= i < |rules| ==> rules[i].Where() in SystemTargets(raws)
  {
    if raws != [] {
      var front, raw := raws[..|raws| - 1], raws[|raws| - 1];
      SystemRulesOk(front);
      if raw.table.TableId? && Candidates(raw.egress, raw.table.id).Ok? {
        CandidatesOk(raw.egress, raw.table.id);
      }
    }
  }

  lemma {:induction false} ClientRulesOk(raws: seq<ClientRoute>)
    requires ClientRules(raws).Ok?
    ensures var rules := ClientRules(raws).value;
            && Numbered(rules, PRIORITY, PRIORITY_TO, MARK) && AllUsable(rules)
            && forall i :: 0 <= i < |rules| ==> rules[i].Where() in ClientTargets(raws)
  {
    if raws != [] {
      var front, raw := raws[..|raws| - 1], raws[|raws| - 1];
      ClientRulesOk(front);
      if raw.table.TableId? && Candidates(raw.egress, raw.table.id).Ok? {
        CandidatesOk(raw.egress, raw.table.id);
      }
    }
  }

  lemma {:induction false} RuleTargetsExact(rules: seq<Rule>, t: Target)
    ensures t in RuleTargets(rules) <==> exists i :: 0 <= i < |rules| && rules[i].Where() == t
  {
    if rules != [] {
      RuleTargetsExact(rules[..|rules| - 1], t);
      assert rules == rules[..|rules| - 1] + [rules[|rules| - 1]];
    }
  }

  predicate TargetsRules(targets: seq<Target>, rules: seq<Rule>) {
    forall i :: 0 <= i < |rules| ==> rules[i].Where() in targets
  }

  /** A well-formed plan: what the script needs. */
  predicate WellFormed(p: Plan) {
    && Numbered(p.system, SYSTEM_PRIORITY, SYSTEM_PRIORITY_TO, SYSTEM_MARK) && AllUsable(p.system)
    && Numbered(p.client, PRIORITY, PRIORITY_TO, MARK) && AllUsable(p.client)
    && TargetsRules(p.targets, p.system) && TargetsRules(p.targets, p.client)
  }

  /** Every rendered plan is well formed; its targets are its own rules' and the previous snapshot's; and every
      destination and table its rules use is among the cleanup targets of the payload it came from. */
  lemma RenderOk(s: Snapshot, previous: Snapshot)
    requires Render(s, previous).Ok?
    ensures var p := Render(s, previous).value;
            && WellFormed(p)
            && (forall t :: t in p.targets <==>
                  t in RuleTargets(p.system) || t in RuleTargets(p.client) || t in SnapshotTargets(previous))
            && TargetsRules(SnapshotTargets(s), p.system) && TargetsRules(SnapshotTargets(s), p.client)
  {
    var p := Render(s, previous).value;
    SystemRulesOk(s.systemRoutes);
    ClientRulesOk(s.routes);
    DedupeExact(RuleTargets(p.system) + RuleTargets(p.client) + SnapshotTargets(previous));
    forall i | 0 <= i < |p.system|
      ensures p.system[i].Where() in p.targets
    {
      RuleTargetsExact(p.system, p.system[i].Where());
    }
    forall i | 0 <= i < |p.client|
      ensures p.client[i].Where() in p.targets
    {
      RuleTargetsExact(p.client, p.client[i].Where());
    }
  }

  // ---------------------------------------------------------------- which routes become rules

  predicate Offered(raw: RawCandidate) {
    raw.present && !raw.dev.Absent?
  }

  function OfferedOf(raws: seq<RawCandidate>): seq<RawCandidate> {
    if raws == [] then [] else OfferedOf(raws[..|raws| - 1]) + if Offered(raws[|raws| - 1]) then [raws[|raws| - 1]]
      else []
  }

  /** The interfaces an egress offers: its backhauls, or without any its own. */
  function Offers(egress: RawEgress): seq<RawCandidate> {
    if OfferedOf(egress.backhauls) != [] then OfferedOf(egress.backhauls) else OfferedOf([egress.single])
  }

  predicate CandidateOf(c: Candidate, raw: RawCandidate, table: nat) {
    && raw.dev == Safe(c.dev) && c.table == table && c.peer == raw.peer
    && (if raw.via.Absent? then c.via == "" else raw.via == Safe(c.via))
    && (if raw.metric > 0 then c.metric == raw.metric else c.metric == 50)
  }

  predicate CandidatesOf(cs: seq<Candidate>, raws: seq<RawCandidate>, table: nat) {
    |cs| == |raws| && forall i :: 0 <= i < |cs| ==> CandidateOf(cs[i], raws[i], table)
  }

  lemma {:induction false} ListedCandidates(raws: seq<RawCandidate>, table: nat)
    requires ListCandidates(raws, table).Ok?
    ensures CandidatesOf(ListCandidates(raws, table).value, OfferedOf(raws), table)
  {
    if raws != [] {
      ListedCandidates(raws[..|raws| - 1], table);
    }
  }

  lemma OfferedCandidates(egress: RawEgress, table: nat)
    requires Candidates(egress, table).Ok?
    ensures CandidatesOf(Candidates(egress, table).value, Offers(egress), table)
  {
    ListedCandidates(egress.backhauls, table);
    var own := [egress.single];
    assert own[..0] == [] && OfferedOf(own[..0]) == [];
    assert OfferedOf(own) == if Offered(egress.single) then own else [];
  }

  /** A client route that the script must enforce. */
  predicate ClientEnforceable(raw: ClientRoute) {
    && raw.present && raw.candidateMode && raw.active && raw.allow && raw.egressCandidate
    && raw.source.Some? && raw.destination.Some? && raw.table.TableId? && Offers(raw.egress) != []
    && !raw.protocol.OtherProtocol?
       && (raw.ports.Ports? && raw.ports.ranges != [] ==> raw.protocol.Tcp? || raw.protocol.Udp?)
  }

  predicate SystemEnforceable(raw: SystemRoute) {
    && raw.present && raw.active && raw.source.Some? && !raw.destination.Invalid? && raw.table.TableId?
    && Offers(raw.egress) != []
  }

  function EnforceableClients(raws: seq<ClientRoute>): seq<ClientRoute> {
    if raws == [] then []
    else EnforceableClients(raws[..|raws| - 1]) + if ClientEnforceable(raws[|raws| - 1]) then [raws[|raws| - 1]] else []
  }

  function EnforceableSystems(raws: seq<SystemRoute>): seq<SystemRoute> {
    if raws == [] then []
    else EnforceableSystems(raws[..|raws| - 1]) + if SystemEnforceable(raws[|raws| - 1]) then [raws[|raws| - 1]] else []
  }

  /** The rule says what the client route says. */
  predicate ClientRealizes(r: Rule, raw: ClientRoute) {
    && raw.source == Some(r.source) && raw.destination == Some(r.destination) && raw.table == TableId(r.table)
    && raw.protocol == r.protocol && (if raw.ports.Ports? then raw.ports.ranges == r.ports else r.ports == [])
    && CandidatesOf(r.candidates, Offers(raw.egress), r.table)
  }

  /** The rule says what the system route says; a missing destination means every destination. */
  predicate SystemRealizes(r: Rule, raw: SystemRoute) {
    && raw.source == Some(r.source) && raw.table == TableId(r.table)
    && (if raw.destination.Missing? then r.destination == DEFAULT else raw.destination == Valid(r.destination))
    && r.protocol == Any && r.ports == [] && CandidatesOf(r.candidates, Offers(raw.egress), r.table)
  }

  lemma ClientBuilt(raw: ClientRoute, idx: nat)
    requires raw.present && raw.candidateMode
    ensures var b := BuildClientRule(raw, idx);
            (b.Built? ==> ClientEnforceable(raw) && ClientRealizes(b.rule, raw))
              && (b.Skip? ==> !ClientEnforceable(raw))
  {
    if raw.table.TableId? && Candidates(raw.egress, raw.table.id).Ok? {
      OfferedCandidates(raw.egress, raw.table.id);
    }
  }

  lemma SystemBuilt(raw: SystemRoute, idx: nat)
    ensures var b := BuildSystemRule(raw, idx);
            (b.Built? ==> SystemEnforceable(raw) && SystemRealizes(b.rule, raw))
              && (b.Skip? ==> !SystemEnforceable(raw))
  {
    if raw.table.TableId? && Candidates(raw.egress, raw.table.id).Ok? {
      OfferedCandidates(raw.egress, raw.table.id);
    }
  }

  /** The client rules are the enforceable client routes, one rule each and in their order. */
  lemma {:induction false} ClientRulesRealize(raws: seq<ClientRoute>)
    requires ClientRules(raws).Ok?
    ensures var rules, routes := ClientRules(raws).value, EnforceableClients(raws);
            |rules| == |routes| && forall i :: 0 <= i < |rules| ==> ClientRealizes(rules[i], routes[i])
  {
    if raws != [] {
      var raw := raws[|raws| - 1];
      ClientRulesRealize(raws[..|raws| - 1]);
      if raw.present && raw.candidateMode {
        ClientBuilt(raw, |ClientRules(raws[..|raws| - 1]).value|);
      }
    }
  }

  /** The system rules are the enforceable system routes, one rule each and in their order. */
  lemma {:induction false} SystemRulesRealize(raws: seq<SystemRoute>)
    requires SystemRules(raws).Ok?
    ensures var rules, routes := SystemRules(raws).value, EnforceableSystems(raws);
            |rules| == |routes| && forall i :: 0 <= i < |rules| ==> SystemRealizes(rules[i], routes[i])
  {
    if raws != [] {
      SystemRulesRealize(raws[..|raws| - 1]);
      SystemBuilt(raws[|raws| - 1], |SystemRules(raws[..|raws| - 1]).value|);
    }
  }

  // ---------------------------------------------------------------- when rendering fails

  predicate UnsafeCandidate(raw: RawCandidate) {
    Offered(raw) && (raw.dev.Unsafe? || raw.via.Unsafe?)
  }

  predicate SomeUnsafe(raws: seq<RawCandidate>) {
    exists i :: 0 <= i < |raws| && UnsafeCandidate(raws[i])
  }

  /** The single interface is looked at only without offered backhauls. */
  predicate UnsafeEgress(egress: RawEgress) {
    SomeUnsafe(egress.backhauls) || (OfferedOf(egress.backhauls) == [] && UnsafeCandidate(egress.single))
  }

  /** An unsafe name in a route in force, or bad ports in one that has an interface and a known protocol. */
  predicate ClientBroken(raw: ClientRoute) {
    && raw.present && raw.candidateMode && raw.active && raw.allow && raw.egressCandidate
    && raw.source.Some? && raw.destination.Some?
    && (|| raw.table.UnsafeTable?
        || (raw.table.TableId? && UnsafeEgress(raw.egress))
        || (raw.table.TableId? && Offers(raw.egress) != [] && !raw.protocol.OtherProtocol? && raw.ports.BadPorts?))
  }

  predicate SystemBroken(raw: SystemRoute) {
    && raw.present && raw.active && raw.source.Some? && !raw.destination.Invalid?
    && (raw.table.UnsafeTable? || (raw.table.TableId? && UnsafeEgress(raw.egress)))
  }

  lemma {:induction false} ListedIff(raws: seq<RawCandidate>, table: nat)
    ensures ListCandidates(raws, table).Err? <==> SomeUnsafe(raws)
  {
    if raws != [] {
      var front := raws[..|raws| - 1];
      ListedIff(front, table);
      assert forall i :: 0 <= i < |front| ==> front[i] == raws[i];
      assert BuildCandidate(raws[|front|], table).Err? <==> UnsafeCandidate(raws[|front|]);
    }
  }

  lemma CandidatesIff(egress: RawEgress, table: nat)
    ensures Candidates(egress, table).Err? <==> UnsafeEgress(egress)
    ensures Candidates(egress, table).Ok? ==> (Candidates(egress, table).value == [] <==> Offers(egress) == [])
  {
    ListedIff(egress.backhauls, table);
    if Candidates(egress, table).Ok? {
      OfferedCandidates(egress, table);
    }
    if ListCandidates(egress.backhauls, table).Ok? {
      ListedCandidates(egress.backhauls, table);
    }
  }

  lemma ClientBuildFails(raw: ClientRoute, idx: nat)
    requires raw.present && raw.candidateMode
    ensures BuildClientRule(raw, idx).Fail? <==> ClientBroken(raw) || (ClientEnforceable(raw) && idx >= 1000)
  {
    if raw.table.TableId? {
      CandidatesIff(raw.egress, raw.table.id);
    }
  }

  lemma SystemBuildFails(raw: SystemRoute, idx: nat)
    ensures BuildSystemRule(raw, idx).Fail? <==> SystemBroken(raw) || (SystemEnforceable(raw) && idx >= 50)
  {
    if raw.table.TableId? {
      CandidatesIff(raw.egress, raw.table.id);
    }
  }

  lemma {:induction false} ClientRulesFail(raws: seq<ClientRoute>)
    ensures ClientRules(raws).Err? <==>
            |EnforceableClients(raws)| > 1000 || exists i :: 0 <= i < |raws| && ClientBroken(raws[i])
  {
    if raws != [] {
      var front, raw := raws[..|raws| - 1], raws[|raws| - 1];
      ClientRulesFail(front);
      assert forall i :: 0 <= i < |front| ==> front[i] == raws[i];
      if ClientRules(front).Ok? && raw.present && raw.candidateMode {
        ClientRulesRealize(front);
        ClientBuildFails(raw, |ClientRules(front).value|);
      }
    }
  }

  lemma {:induction false} SystemRulesFail(raws: seq<SystemRoute>)
    ensures SystemRules(raws).Err? <==>
            |EnforceableSystems(raws)| > 50 || exists i :: 0 <= i < |raws| && SystemBroken(raws[i])
  {
    if raws != [] {
      var front, raw := raws[..|raws| - 1], raws[|raws| - 1];
      SystemRulesFail(front);
      assert forall i :: 0 <= i < |front| ==> front[i] == raws[i];
      if SystemRules(front).Ok? {
        SystemRulesRealize(front);
        SystemBuildFails(raw, |SystemRules(front).value|);
      }
    }
  }

  /** Rendering fails if and only if a route is broken, or there are more than 50 enforceable system routes or more than
      1000 enforceable client routes. */
  lemma RenderFailsIff(s: Snapshot, previous: Snapshot)
    ensures Render(s, previous).Err? <==>
            || |EnforceableSystems(s.systemRoutes)| > 50 || |EnforceableClients(s.routes)| > 1000
            || (exists i :: 0 <= i < |s.systemRoutes| && SystemBroken(s.systemRoutes[i]))
            || (exists i :: 0 <= i < |s.routes| && ClientBroken(s.routes[i]))
  {
    SystemRulesFail(s.systemRoutes);
    ClientRulesFail(s.routes);
  }

  // ---------------------------------------------------------------- which destinations a snapshot names

  /** Some source and some offered interface. */
  const ANY_EGRESS := RawEgress([], RawCandidate(true, Safe("dev"), Absent, 0, None))

  /** The client route leads to the target, and would be enforced with a source, an interface and a protocol. */
  predicate ClientNames(raw: ClientRoute, t: Target) {
    && raw.destination == Some(t.dst) && raw.table == TableId(t.table)
    && ClientEnforceable(raw.(source := Some(DEFAULT), egress := ANY_EGRESS, protocol := Any, ports := NoPorts))
  }

  predicate SystemNames(raw: SystemRoute, t: Target) {
    && raw.table == TableId(t.table)
    && (if raw.destination.Missing? then t.dst == DEFAULT else raw.destination == Valid(t.dst))
    && SystemEnforceable(raw.(source := Some(DEFAULT), egress := ANY_EGRESS))
  }

  predicate Names(s: Snapshot, t: Target) {
    || (exists i :: 0 <= i < |s.routes| && ClientNames(s.routes[i], t))
    || (exists i :: 0 <= i < |s.systemRoutes| && SystemNames(s.systemRoutes[i], t))
  }

  lemma AnyEgressOffers()
    ensures Offers(ANY_EGRESS) != []
  {
    var own := [ANY_EGRESS.single];
    assert own[..0] == [] && OfferedOf(own[..0]) == [];
    assert OfferedOf(own) == own;
  }

  lemma {:induction false} ClientTargetsExact(raws: seq<ClientRoute>, t: Target)
    ensures t in ClientTargets(raws) <==> exists i :: 0 <= i < |raws| && ClientNames(raws[i], t)
  {
    if raws != [] {
      var front, raw := raws[..|raws| - 1], raws[|raws| - 1];
      ClientTargetsExact(front, t);
      AnyEgressOffers();
      assert ClientNames(raw, t) <==> ClientTarget(raw) == Some(t);
      assert forall i :: 0 <= i < |front| ==> front[i] == raws[i];
    }
  }

  lemma {:induction false} SystemTargetsExact(raws: seq<SystemRoute>, t: Target)
    ensures t in SystemTargets(raws) <==> exists i :: 0 <= i < |raws| && SystemNames(raws[i], t)
  {
    if raws != [] {
      var front, raw := raws[..|raws| - 1], raws[|raws| - 1];
      SystemTargetsExact(front, t);
      AnyEgressOffers();
      assert SystemNames(raw, t) <==> SystemTarget(raw) == Some(t);
      assert forall i :: 0 <= i < |front| ==> front[i] == raws[i];
    }
  }

  /** A snapshot's cleanup targets are exactly the destinations of the routes that lack at most a source, an interface
      or a protocol to be enforced. */
  lemma TargetsExact(s: Snapshot, t: Target)
    ensures t in SnapshotTargets(s) <==> Names(s, t)
  {
    ClientTargetsExact(s.routes, t);
    SystemTargetsExact(s.systemRoutes, t);
  }

  /** A plan targets exactly what its own rules and the previous snapshot name. */
  lemma RenderNames(s: Snapshot, previous: Snapshot, t: Target)
    requires Render(s, previous).Ok?
    ensures t in Render(s, previous).value.targets ==> Names(s, t) || Names(previous, t)
    ensures Names(previous, t) ==> t in Render(s, previous).value.targets
  {
    var p := Render(s, previous).value;
    RenderOk(s, previous);
    RuleTargetsExact(p.system, t);
    RuleTargetsExact(p.client, t);
    TargetsExact(s, t);
    TargetsExact(previous, t);
  }

  // ---------------------------------------------------------------- destinations

  predicate ProperRules(rules: seq<Rule>) {
    forall i :: 0 <= i < |rules| ==> ProperOrDefault(rules[i].destination)
  }

  predicate ProperSystems(raws: seq<SystemRoute>) {
    forall i :: 0 <= i < |raws| && raws[i].destination.Valid? ==> raws[i].destination.prefix.Proper()
  }

  predicate ProperClients(raws: seq<ClientRoute>) {
    forall i :: 0 <= i < |raws| && raws[i].destination.Some? ==> raws[i].destination.value.Proper()
  }

  /** Destinations are in the form that parsing gives them. */
  predicate ProperSnapshot(s: Snapshot) {
    ProperSystems(s.systemRoutes) && ProperClients(s.routes)
  }

  predicate ProperOrDefault(dst: Prefix) {
    dst == DEFAULT || dst.Proper()
  }

  lemma SystemRuleIsProper(raw: SystemRoute, idx: nat)
    requires ProperSystems([raw]) && BuildSystemRule(raw, idx).Built?
    ensures ProperOrDefault(BuildSystemRule(raw, idx).rule.destination)
  {
    SystemBuilt(raw, idx);
    assert [raw][0] == raw;
  }

  lemma {:induction false} ProperSystemRules(raws: seq<SystemRoute>)
    requires SystemRules(raws).Ok? && ProperSystems(raws)
    ensures ProperRules(SystemRules(raws).value)
  {
    if raws != [] {
      var front, raw := raws[..|raws| - 1], raws[|raws| - 1];
      var rules := SystemRules(front).value;
      ProperSystemRules(front);
      if BuildSystemRule(raw, |rules|).Built? {
        SystemRuleIsProper(raw, |rules|);
        assert SystemRules(raws).value == rules + [BuildSystemRule(raw, |rules|).rule];
      } else {
        assert SystemRules(raws).value == rules;
      }
    }
  }

  lemma ClientRuleIsProper(raw: ClientRoute, idx: nat)
    requires ProperClients([raw]) && BuildClientRule(raw, idx).Built?
    ensures ProperOrDefault(BuildClientRule(raw, idx).rule.destination)
  {
    assert [raw][0] == raw;
  }

  lemma {:induction false} ProperClientRules(raws: seq<ClientRoute>)
    requires ClientRules(raws).Ok? && ProperClients(raws)
    ensures ProperRules(ClientRules(raws).value)
  {
    if raws != [] {
      var front, raw := raws[..|raws| - 1], raws[|raws| - 1];
      ProperClientRules(front);
      if BuildClientRule(raw, |ClientRules(front).value|).Built? {
        ClientRuleIsProper(raw, |ClientRules(front).value|);
      }
    }
  }

  /** A plan's destinations are in that form too. */
  lemma RenderProper(s: Snapshot, previous: Snapshot)
    requires Render(s, previous).Ok? && ProperSnapshot(s)
    ensures ProperRules(Render(s, previous).value.system) && ProperRules(Render(s, previous).value.client)
  {
    ProperSystemRules(s.systemRoutes);
    ProperClientRules(s.routes);
  }

  // ---------------------------------------------------------------- rendering

  /** `renderRoutePolicyKernelScript` up to the plan. */
  method RenderPlan(s: Snapshot, previous: Snapshot) returns (r: Result<Plan>)
    ensures r == Render(s, previous)
    ensures r.Ok? ==> WellFormed(r.value)
  {
    var system := CollectSystemRules(s.systemRoutes);
    if system.Err? {
      return Err(system.error);
    }
    var client := CollectClientRules(s.routes);
    if client.Err? {
      return Err(client.error);
    }
    var targets := DedupeTargets(RuleTargets(system.value) + RuleTargets(client.value) + SnapshotTargets(previous));
    r := Ok(Plan(system.value, client.value, targets));
    RenderOk(s, previous);
  }
}
