/** When the compiler refuses a payload, told by the payload's own fields. */
module FirewallRefusal {
  import opened Common
  import opened Firewall
  import opened FirewallMeaning
  import opened FirewallCorrect
  import opened FirewallPayload

  // ---------------------------------------------------------------- the condition

  /** An active entry must be valid, and a range must go upwards within one family. */
  predicate EntryIsGood(e: RawEntry) {
    && !(e.active && e.value.BadValue?)
    && (e.active && e.value.RangeValue? ==>
          e.value.low.family == e.value.high.family && e.value.low.value <= e.value.high.value)
  }

  predicate ListIsGood(raw: RawList) {
    Kept(raw) ==> forall j :: 0 <= j < |raw.entries| ==> EntryIsGood(raw.entries[j])
  }

  /** Known words, prefixes and ports, and ports only with a transport protocol; a rule out of force must obey too. */
  predicate FieldsAreGood(raw: RawRule) {
    && raw.chain.Some? && raw.action.Some? && raw.protocol.Some?
    && !raw.src.BadCidr? && !raw.dst.BadCidr? && !raw.srcPorts.BadPorts? && !raw.dstPorts.BadPorts?
    && ((raw.srcPorts.Ports? && raw.srcPorts.ranges != []) || (raw.dstPorts.Ports? && raw.dstPorts.ranges != []) ==>
          raw.protocol.value == Tcp || raw.protocol.value == Udp)
  }

  /** One side can match addresses of the family: its reference leads to a list with an active entry of it. */
  predicate SideOffers(raws: seq<RawList>, id: string, key: string, cidr: CidrField, f: Family) {
    if id == "" && key == "" then cidr.CidrOf? ==> cidr.cidr.family == f
    else
      var at := if FindList(raws, id).Some? then FindList(raws, id) else FindList(raws, key);
      at.Some? && SomeHas(raws[at.value].entries, f)
  }

  predicate RuleOffers(raws: seq<RawList>, raw: RawRule, f: Family) {
    && SideOffers(raws, raw.srcListId, raw.srcListKey, raw.src, f)
    && SideOffers(raws, raw.dstListId, raw.dstListKey, raw.dst, f)
    && (raw.protocol == Some(Icmp) ==> f == V4) && (raw.protocol == Some(Icmpv6) ==> f == V6)
  }

  predicate RuleIsGood(raws: seq<RawList>, raw: RawRule) {
    && FieldsAreGood(raw)
    && (raw.enabled && raw.active ==> RuleOffers(raws, raw, V4) || RuleOffers(raws, raw, V6))
  }

  /** A rule that the agent takes for an explicit permission to reach the control plane. */
  predicate Permits(raw: RawRule, port: nat) {
    && raw.enabled && raw.active && raw.chain == Some(Out) && raw.action == Some(Accept)
    && (raw.states == [] || New in raw.states)
    && (|| (raw.protocol == Some(Tcp) && (raw.dstPorts.Ports? && raw.dstPorts.ranges != [] ==>
              exists i :: 0 <= i < |raw.dstPorts.ranges|
                && raw.dstPorts.ranges[i].low <= port <= raw.dstPorts.ranges[i].high))
        || (raw.protocol == Some(Any) && !(raw.dstPorts.Ports? && raw.dstPorts.ranges != [])))
    && (if raw.dst.CidrOf? then raw.dst.cidr.bits > 0 else raw.dstListId != "" || raw.dstListKey != "")
  }

  predicate SomePermits(raws: seq<RawRule>, port: nat) {
    exists i :: 0 <= i < |raws| && Permits(raws[i], port)
  }

  /** With a filtered output the control plane must be a literal address, or a name that some rule permits. */
  predicate ControlPlaneIsGood(payload: Payload) {
    payload.enforce && payload.output != Some(Accept) ==>
      || payload.controlPlane.Literal?
      || (payload.controlPlane.Dns? && SomePermits(payload.rules, payload.controlPlane.port))
  }

  predicate IsGood(payload: Payload) {
    && payload.input.Some? && payload.forward.Some? && payload.output.Some?
    && (forall i :: 0 <= i < |payload.lists| ==> ListIsGood(payload.lists[i]))
    && (forall i :: 0 <= i < |payload.rules| ==> RuleIsGood(payload.lists, payload.rules[i]))
    && ControlPlaneIsGood(payload)
  }

  // ---------------------------------------------------------------- parsing

  lemma {:induction false} EntriesParseIff(es: seq<RawEntry>, empty: AddressList)
    ensures ParseEntries(es, empty).Ok? <==> forall j :: 0 <= j < |es| ==> EntryIsGood(es[j])
  {
    if es != [] {
      var front := es[..|es| - 1];
      EntriesParseIff(front, empty);
      assert forall j :: 0 <= j < |front| ==> front[j] == es[j];
      assert EntryIsGood(es[|es| - 1]) <==> !es[|es| - 1].active || NormalizeEntry(es[|es| - 1].value).Ok?;
    }
  }

  lemma {:induction false} ListsParseIff(slug: Slug, raws: seq<RawList>)
    ensures ParseLists(slug, raws).Ok? <==> forall i :: 0 <= i < |raws| ==> ListIsGood(raws[i])
  {
    if raws != [] {
      var front, raw := raws[..|raws| - 1], raws[|raws| - 1];
      ListsParseIff(slug, front);
      assert forall j :: 0 <= j < |front| ==> front[j] == raws[j];
      EntriesParseIff(raw.entries, AddressList(raw.id, raw.key, slug(First(raw.key, raw.id)), [], []));
    }
  }

  lemma FieldsParseIff(raw: RawRule, idx: nat)
    ensures ParseRule(raw, idx).Ok? <==> FieldsAreGood(raw)
  {
  }

  predicate AllFieldsAreGood(raws: seq<RawRule>) {
    forall i :: 0 <= i < |raws| ==> FieldsAreGood(raws[i])
  }

  lemma FieldsSnoc(front: seq<RawRule>, raw: RawRule)
    ensures AllFieldsAreGood(front + [raw]) <==> AllFieldsAreGood(front) && FieldsAreGood(raw)
  {
    var all := front + [raw];
    assert all[|front|] == raw && forall j :: 0 <= j < |front| ==> all[j] == front[j];
  }

  lemma {:induction false} RulesParseIff(raws: seq<RawRule>)
    ensures ParseAll(raws).Ok? <==> AllFieldsAreGood(raws)
  {
    if raws != [] {
      var front, raw := raws[..|raws| - 1], raws[|raws| - 1];
      RulesParseIff(front);
      FieldsParseIff(raw, |front|);
      FieldsSnoc(front, raw);
      assert raws == front + [raw];
    }
  }

  // ---------------------------------------------------------------- rendering

  function Canonical(field: CidrField): Option<Cidr> {
    if field.CidrOf? then Some(field.cidr.Canonical()) else None
  }

  lemma SideRenders(slug: Slug, raws: seq<RawList>, id: string, key: string, field: CidrField, f: Family)
    requires ParseLists(slug, raws).Ok? && !field.BadCidr?
    ensures var l := ResolveList(ParseLists(slug, raws).value, id, key);
            SideOffers(raws, id, key, field, f) <==>
              l.Ok? && SideAllows(l.value, Canonical(field), f)
  {
    if id != "" || key != "" {
      ParsedReference(slug, raws, id);
      ParsedReference(slug, raws, key);
      var at := if FindList(raws, id).Some? then FindList(raws, id) else FindList(raws, key);
      if at.Some? {
        ParsedList(slug, raws[at.value], Addr(f, 0));
      }
    }
  }

  /** What families depend on is parsed as it stands. */
  predicate ParsedAs(raw: RawRule, r: Rule) {
    && r.srcListId == raw.srcListId && r.srcListKey == raw.srcListKey && r.src == Canonical(raw.src)
    && r.dstListId == raw.dstListId && r.dstListKey == raw.dstListKey && r.dst == Canonical(raw.dst)
    && raw.protocol == Some(r.protocol) && !raw.src.BadCidr? && !raw.dst.BadCidr?
  }

  lemma OffersIff(slug: Slug, raws: seq<RawList>, raw: RawRule, r: Rule, lists: Lists, f: Family)
    requires ParseLists(slug, raws) == Ok(lists) && ParsedAs(raw, r)
    ensures var src, dst :=
            ResolveList(lists, r.srcListId, r.srcListKey), ResolveList(lists, r.dstListId, r.dstListKey);
            RuleOffers(raws, raw, f) <==> src.Ok? && dst.Ok? && FamilyAllowed(r, src.value, dst.value, f)
  {
    SideRenders(slug, raws, raw.srcListId, raw.srcListKey, raw.src, f);
    SideRenders(slug, raws, raw.dstListId, raw.dstListKey, raw.dst, f);
  }

  lemma FamiliesIff(r: Rule, src: Option<AddressList>, dst: Option<AddressList>)
    ensures RuleFamilies(r, src, dst).Ok? <==> FamilyAllowed(r, src, dst, V4) || FamilyAllowed(r, src, dst, V6)
  {
  }

  lemma RuleRendersIff(slug: Slug, raws: seq<RawList>, raw: RawRule, idx: nat, r: Rule, lists: Lists)
    requires ParseLists(slug, raws) == Ok(lists) && ParseRule(raw, idx) == Ok(r)
    ensures RuleLines(r, lists).Ok? <==> RuleOffers(raws, raw, V4) || RuleOffers(raws, raw, V6)
  {
    assert ParsedAs(raw, r);
    OffersIff(slug, raws, raw, r, lists, V4);
    OffersIff(slug, raws, raw, r, lists, V6);
    var src, dst := ResolveList(lists, r.srcListId, r.srcListKey), ResolveList(lists, r.dstListId, r.dstListKey);
    if src.Ok? && dst.Ok? {
      FamiliesIff(r, src.value, dst.value);
    }
  }

  lemma {:induction false} OperatorLinesIff(rules: seq<Rule>, lists: Lists)
    ensures OperatorLines(rules, lists).Ok? <==> forall r :: r in rules && r.live ==> RuleLines(r, lists).Ok?
  {
    if rules != [] {
      var front, r := rules[..|rules| - 1], rules[|rules| - 1];
      OperatorLinesIff(front, lists);
      assert rules == front + [r];
    }
  }

  lemma PermitsIff(raw: RawRule, idx: nat, r: Rule, port: nat)
    requires ParseRule(raw, idx) == Ok(r)
    ensures AllowsControlPlane(r, port) <==> Permits(raw, port)
  {
  }

  lemma SortingKeepsAllow(rules: seq<Rule>, port: nat)
    ensures ExplicitAllow(SortRules(rules), port) <==> ExplicitAllow(rules, port)
  {
    var sorted := SortRules(rules);
    SortedInOrder(rules);
    if i :| 0 <= i < |rules| && AllowsControlPlane(rules[i], port) {
      assert rules[i] in sorted;
    }
    if i :| 0 <= i < |sorted| && AllowsControlPlane(sorted[i], port) {
      assert sorted[i] in rules;
    }
  }

  lemma {:induction false} PermittedIff(raws: seq<RawRule>, rules: seq<Rule>, port: nat)
    requires ParseAll(raws) == Ok(rules)
    ensures ExplicitAllow(rules, port) <==> SomePermits(raws, port)
  {
    if raws != [] {
      var n := |raws| - 1;
      var front := ParseAll(raws[..n]).value;
      PermittedIff(raws[..n], front, port);
      ParsedRules(raws[..n]);
      assert |front| == n && rules == front + [rules[n]];
      PermitsIff(raws[n], n, rules[n], port);
      AllowSnoc(front, rules[n], port);
      PermitsSnoc(raws[..n], raws[n], port);
      assert raws == raws[..n] + [raws[n]];
    }
  }

  lemma AllowSnoc(front: seq<Rule>, r: Rule, port: nat)
    ensures ExplicitAllow(front + [r], port) <==> ExplicitAllow(front, port) || AllowsControlPlane(r, port)
  {
    var all := front + [r];
    assert all[|front|] == r && forall j :: 0 <= j < |front| ==> all[j] == front[j];
  }

  lemma PermitsSnoc(front: seq<RawRule>, raw: RawRule, port: nat)
    ensures SomePermits(front + [raw], port) <==> SomePermits(front, port) || Permits(raw, port)
  {
    var all := front + [raw];
    assert all[|front|] == raw && forall j :: 0 <= j < |front| ==> all[j] == front[j];
  }

  lemma ControlPlaneIff(payload: Payload, rules: seq<Rule>, d: Defaults, lists: Lists)
    requires ParseAll(payload.rules) == Ok(rules) && ParseDefaults(payload) == Ok(d)
    ensures SafetyLines(d, payload, SortRules(rules), lists).Ok? <==> ControlPlaneIsGood(payload)
  {
    if payload.controlPlane.Dns? {
      var port := payload.controlPlane.port;
      PermittedIff(payload.rules, rules, port);
      SortingKeepsAllow(rules, port);
      SafetyIff(d, payload, SortRules(rules), lists);
    } else {
      SafetyIff(d, payload, SortRules(rules), lists);
    }
  }

  lemma SafetyIff(d: Defaults, payload: Payload, rules: seq<Rule>, lists: Lists)
    ensures SafetyLines(d, payload, rules, lists).Ok? <==>
            !d.enforce || d.output == Accept || ControlPlaneLine(payload.controlPlane, rules).Ok?
  {
  }

  lemma OperatorIff(slug: Slug, payload: Payload, rules: seq<Rule>, lists: Lists)
    requires ParseAll(payload.rules) == Ok(rules) && ParseLists(slug, payload.lists) == Ok(lists)
    ensures OperatorLines(SortRules(rules), lists).Ok? <==>
            forall i :: 0 <= i < |payload.rules| ==> RuleIsGood(payload.lists, payload.rules[i])
  {
    SortedInOrder(rules);
    OperatorLinesIff(SortRules(rules), lists);
    ParsedRules(payload.rules);
    RulesParseIff(payload.rules);
    forall i | 0 <= i < |rules|
      ensures rules[i].live && RuleLines(rules[i], lists).Err? <==> !RuleIsGood(payload.lists, payload.rules[i])
    {
      RuleRendersIff(slug, payload.lists, payload.rules[i], i, rules[i], lists);
    }
    forall r | r in rules
      ensures exists i :: 0 <= i < |rules| && rules[i] == r
    {
    }
    forall i | 0 <= i < |rules|
      ensures rules[i] in SortRules(rules)
    {
    }
  }

  /** A payload compiles if and only if its policies, lists, rules and control plane are good. */
  lemma CompilesIff(slug: Slug, payload: Payload)
    ensures Compile(slug, payload).Ok? <==> IsGood(payload)
  {
    ListsParseIff(slug, payload.lists);
    RulesParseIff(payload.rules);
    var d, lists, rules := ParseDefaults(payload), ParseLists(slug, payload.lists), ParseAll(payload.rules);
    if d.Ok? && lists.Ok? && rules.Ok? {
      ControlPlaneIff(payload, rules.value, d.value, lists.value);
      OperatorIff(slug, payload, rules.value, lists.value);
    }
  }
}
