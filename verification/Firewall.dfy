/** The node firewall compiler: address lists, rule parsing, safety rules and `renderNodeFirewallPlan`.
    Its output is a sequence of nft commands; text fields appear in parsed form. */
module Firewall {
  import opened Common
  import opened Blocks
  import opened Numbers

  // ---------------------------------------------------------------- addresses

  datatype Family = V4 | V6

  function Width(f: Family): nat {
    if f == V4 then 32 else 128
  }

  datatype Addr = Addr(family: Family, value: nat)

  datatype Cidr = Cidr(family: Family, base: nat, bits: nat) {
    function Size(): (s: nat)
      ensures s >= 1
    {
      if bits <= Width(family) then Pow2(Width(family) - bits) else 1
    }

    predicate Covers(a: Addr) {
      a.family == family && Masked(a.value, Size()) == Masked(base, Size())
    }

    /** `prefix.Masked()` */
    function Canonical(): Cidr {
      Cidr(family, Masked(base, Size()), bits)
    }
  }

  /** Masking a prefix does not change what it covers. */
  lemma CanonicalCovers(c: Cidr, a: Addr)
    ensures c.Canonical().Covers(a) <==> c.Covers(a)
  {
    var s := c.Size();
    BlockMembers(c.base, s, Masked(c.base, s));
  }

  /** A prefix covers the addresses of its family whose leading `bits` bits are its own. */
  lemma CoversExact(c: Cidr, a: Addr)
    requires c.bits <= if c.family == V4 then 32 else 128
    ensures var block := Pow2((if c.family == V4 then 32 else 128) - c.bits);
            c.Covers(a) <==> a.family == c.family && a.value / block == c.base / block
  {
    var s := c.Size();
    var q, p := a.value / s, c.base / s;
    assert a.value == q * s + a.value % s && c.base == p * s + c.base % s;
    if Masked(a.value, s) == Masked(c.base, s) {
      DivideBlock(q, s, 0);
      DivideBlock(p, s, 0);
    }
  }

  datatype Element = Net(cidr: Cidr) | Single(addr: Addr) | Range(low: Addr, high: Addr) {
    predicate Contains(a: Addr) {
      match this
      case Net(c) => c.Covers(a)
      case Single(x) => a == x
      case Range(lo, hi) => a.family == lo.family && lo.value <= a.value <= hi.value
    }

    function Family(): Family {
      match this
      case Net(c) => c.family
      case Single(x) => x.family
      case Range(lo, _) => lo.family
    }
  }

  // ---------------------------------------------------------------- payload

  datatype EntryValue =
    | CidrValue(cidr: Cidr) | AddressValue(addr: Addr) | RangeValue(low: Addr, high: Addr) | DnsValue | BadValue

  datatype RawEntry = RawEntry(active: bool, value: EntryValue)

  datatype RawList = RawList(active: bool, id: string, key: string, entries: seq<RawEntry>)

  datatype Chain = Input | Forward | Out

  datatype Verdict = Accept | Drop | Reject

  datatype Protocol = Any | Tcp | Udp | Icmp | Icmpv6

  /** The states a rule can name, and the one only packets have. */
  datatype CtState = New | Established | Related | InvalidState | Untracked

  datatype PortRange = PortRange(low: nat, high: nat)

  datatype CidrField = NoCidr | BadCidr | CidrOf(cidr: Cidr)

  datatype PortsField = NoPorts | BadPorts | Ports(ranges: seq<PortRange>)

  /** A rule as it arrives; a chain, action or protocol outside the allowed words is `None`. */
  datatype RawRule = RawRule(id: string, priority: int, chain: Option<Chain>, action: Option<Verdict>,
                             protocol: Option<Protocol>, srcListId: string, srcListKey: string, dstListId: string,
                             dstListKey: string, src: CidrField, dst: CidrField, srcPorts: PortsField,
                             dstPorts: PortsField, states: seq<CtState>, enabled: bool, active: bool)

  datatype ControlPlane = NoUrl | InvalidUrl | InvalidPort | Literal(addr: Addr, port: nat) | Dns(port: nat)

  datatype Payload = Payload(input: Option<Verdict>, forward: Option<Verdict>, output: Option<Verdict>, enforce: bool,
                             lists: seq<RawList>, rules: seq<RawRule>, sshPorts: seq<nat>, controlPlane: ControlPlane)

  // ---------------------------------------------------------------- parsed form

  datatype AddressList = AddressList(id: string, key: string, name: string, v4: seq<Element>, v6: seq<Element>) {
    function Of(f: Family): seq<Element> {
      if f == V4 then v4 else v6
    }
  }

  datatype Lists = Lists(byRef: map<string, AddressList>, ordered: seq<AddressList>)

  datatype Rule = Rule(id: string, priority: int, chain: Chain, action: Verdict, protocol: Protocol,
                       srcListId: string, srcListKey: string, dstListId: string, dstListKey: string,
                       src: Option<Cidr>, dst: Option<Cidr>, srcPorts: seq<PortRange>, dstPorts: seq<PortRange>,
                       states: seq<CtState>, live: bool)

  datatype Defaults = Defaults(input: Verdict, forward: Verdict, output: Verdict, enforce: bool) {
    function For(c: Chain): Verdict {
      match c
      case Input => input
      case Forward => forward
      case Out => output
    }
  }

  /** How a list reference becomes part of a set name; `slugifyLocal` is left open. */
  type Slug = string -> string

  /** `normalizeNodeFirewallAddressListEntry`; a DNS entry is stored but not rendered. */
  function NormalizeEntry(v: EntryValue): Result<Option<Element>> {
    match v
    case CidrValue(c) => Ok(Some(Net(c.Canonical())))
    case AddressValue(a) => Ok(Some(Single(a)))
    case RangeValue(lo, hi) =>
      if lo.family != hi.family then Err("range start and end must use the same IP family")
      else if lo.value > hi.value then Err("address range is reversed")
      else Ok(Some(Range(lo, hi)))
    case DnsValue => Ok(None)
    case BadValue => Err("value is not valid")
  }

  function ParseEntries(entries: seq<RawEntry>, list: AddressList): Result<AddressList> {
    if entries == [] then Ok(list)
    else
      var before :- ParseEntries(entries[..|entries| - 1], list);
      var entry := entries[|entries| - 1];
      if !entry.active then Ok(before)
      else
        var e :- NormalizeEntry(entry.value);
        if e.None? then Ok(before)
        else if e.value.Family() == V4 then Ok(before.(v4 := before.v4 + [e.value]))
        else Ok(before.(v6 := before.v6 + [e.value]))
  }

  function First(a: string, b: string): string {
    if a != "" then a else b
  }

  function ParseList(slug: Slug, raw: RawList): Result<AddressList> {
    ParseEntries(raw.entries, AddressList(raw.id, raw.key, slug(First(raw.key, raw.id)), [], []))
  }

  function Register(lists: Lists, l: AddressList): Lists {
    var byId := if l.id == "" then lists.byRef else lists.byRef[l.id := l];
    Lists(if l.key == "" then byId else byId[l.key := l], lists.ordered + [l])
  }

  /** `parseNodeFirewallAddressLists` */
  function ParseLists(slug: Slug, raws: seq<RawList>): Result<Lists> {
    if raws == [] then Ok(Lists(map[], []))
    else
      var before :- ParseLists(slug, raws[..|raws| - 1]);
      var raw := raws[|raws| - 1];
      if !raw.active || (raw.id == "" && raw.key == "") then Ok(before)
      else
        var l :- ParseList(slug, raw);
        Ok(Register(before, l))
  }

  /** `parseNodeFirewallRule` */
  function ParseRule(raw: RawRule, idx: nat): Result<Rule> {
    if raw.chain.None? then Err("chain must be input, forward or output")
    else if raw.action.None? then Err("action must be accept, drop or reject")
    else if raw.protocol.None? then Err("protocol must be any, tcp, udp, icmp or icmpv6")
    else if raw.src.BadCidr? || raw.dst.BadCidr? then Err("must be a valid IP address or CIDR")
    else if raw.srcPorts.BadPorts? || raw.dstPorts.BadPorts? then Err("port must be between 1 and 65535")
    else
      var srcPorts := if raw.srcPorts.NoPorts? then [] else raw.srcPorts.ranges;
      var dstPorts := if raw.dstPorts.NoPorts? then [] else raw.dstPorts.ranges;
      var protocol := raw.protocol.value;
      if (srcPorts != [] || dstPorts != []) && protocol != Tcp && protocol != Udp
        then Err("ports require tcp or udp protocol")
      else
        Ok(Rule(First(raw.id, Decimal(idx + 1)), if raw.priority <= 0 then 1000 + idx else raw.priority,
                raw.chain.value, raw.action.value, protocol,
                raw.srcListId, raw.srcListKey, raw.dstListId, raw.dstListKey,
                if raw.src.NoCidr? then None else Some(raw.src.cidr.Canonical()),
                if raw.dst.NoCidr? then None else Some(raw.dst.cidr.Canonical()),
                srcPorts, dstPorts, raw.states, raw.enabled && raw.active))
  }

  function ParseAll(raws: seq<RawRule>): Result<seq<Rule>> {
    if raws == [] then Ok([])
    else
      var front :- ParseAll(raws[..|raws| - 1]);
      var r :- ParseRule(raws[|raws| - 1], |raws| - 1);
      Ok(front + [r])
  }

  // ---------------------------------------------------------------- the order of rules

  /** Go's order on strings. */
  predicate LexLess(a: string, b: string) {
    b != "" && (a == "" || a[0] < b[0] || (a[0] == b[0] && LexLess(a[1..], b[1..])))
  }

  /** The comparison given to `sort.SliceStable`. */
  predicate Before(a: Rule, b: Rule) {
    if a.priority == b.priority then LexLess(a.id, b.id) else a.priority < b.priority
  }

  function InsertSorted(sorted: seq<Rule>, r: Rule): seq<Rule> {
    if sorted == [] || Before(r, sorted[0]) then [r] + sorted else [sorted[0]] + InsertSorted(sorted[1..], r)
  }

  /** The stable sort. */
  function SortRules(rules: seq<Rule>): seq<Rule> {
    if rules == [] then [] else InsertSorted(SortRules(rules[..|rules| - 1]), rules[|rules| - 1])
  }

  // ---------------------------------------------------------------- nft commands

  datatype Side = Src | Dst

  datatype Match =
    | Ct(states: seq<CtState>)
    | InSet(side: Side, family: Family, set_: string)
    | InCidr(side: Side, cidr: Cidr)
    | PortIn(side: Side, protocol: Protocol, ranges: seq<PortRange>)
    | L4(protocol: Protocol)
    | LoopbackIn
    | LoopbackOut

  datatype NftRule = NftRule(chain: Chain, matches: seq<Match>, verdict: Verdict)

  datatype Command =
    | DeleteTable
    | AddTable
    | AddChain(chain: Chain, policy: Verdict)
    | AddSet(name: string, family: Family)
    | AddElements(name: string, elements: seq<Element>)
    | AddRule(rule: NftRule)

  function SetName(name: string, f: Family): string {
    name + if f == V4 then "_v4" else "_v6"
  }

  /** `nftBasePolicy` */
  function BasePolicy(v: Verdict, enforce: bool): Verdict {
    if !enforce || v == Accept then Accept else Drop
  }

  function SetCommandsFor(l: AddressList, f: Family): seq<Command> {
    if l.Of(f) == [] then [] else [AddSet(SetName(l.name, f), f), AddElements(SetName(l.name, f), l.Of(f))]
  }

  /** `renderNodeFirewallAddressListSets` */
  function SetCommands(ordered: seq<AddressList>): seq<Command> {
    if ordered == [] then []
    else
      var l := ordered[|ordered| - 1];
      SetCommands(ordered[..|ordered| - 1]) + SetCommandsFor(l, V4) + SetCommandsFor(l, V6)
  }

  // ---------------------------------------------------------------- operator rules

  /** `resolveNodeFirewallList`: by ID first, then by key; a reference to nothing is an error. */
  function ResolveList(lists: Lists, id: string, key: string): Result<Option<AddressList>> {
    if id == "" && key == "" then Ok(None)
    else if id != "" && id in lists.byRef then Ok(Some(lists.byRef[id]))
    else if key != "" && key in lists.byRef then Ok(Some(lists.byRef[key]))
    else Err("address-list is not present in payload")
  }

  /** The families one side of a rule allows. */
  predicate SideAllows(l: Option<AddressList>, c: Option<Cidr>, f: Family) {
    if l.Some? then l.value.Of(f) != [] else c.Some? ==> c.value.family == f
  }

  predicate FamilyAllowed(r: Rule, src: Option<AddressList>, dst: Option<AddressList>, f: Family) {
    SideAllows(src, r.src, f) && SideAllows(dst, r.dst, f) && (r.protocol == Icmp ==> f == V4)
      && (r.protocol == Icmpv6 ==> f == V6)
  }

  /** `nodeFirewallRuleFamilies`: no family for a rule without addresses, else one or both. */
  function RuleFamilies(r: Rule, src: Option<AddressList>, dst: Option<AddressList>): Result<seq<Option<Family>>> {
    if src.Some? && src.value.v4 == [] && src.value.v6 == [] then Err("source address-list has no active entries")
    else if dst.Some? && dst.value.v4 == [] && dst.value.v6 == []
         then Err("destination address-list has no active entries")
    else
      var v4, v6 := FamilyAllowed(r, src, dst, V4), FamilyAllowed(r, src, dst, V6);
      if !v4 && !v6 then Err("source and destination address families do not overlap")
      else if src.None? && dst.None? && r.src.None? && r.dst.None? then Ok([None])
      else Ok((if v4 then [Some(V4)] else []) + (if v6 then [Some(V6)] else []))
  }

  function SideMatch(side: Side, l: Option<AddressList>, c: Option<Cidr>, f: Option<Family>): seq<Match> {
    if l.Some? && f.Some? then [InSet(side, f.value, SetName(l.value.name, f.value))]
    else if c.Some? then [InCidr(side, c.value)]
    else []
  }

  function ProtocolMatch(r: Rule): seq<Match> {
    match r.protocol
    case Any => []
    case Icmp => [L4(Icmp)]
    case Icmpv6 => [L4(Icmpv6)]
    case _ =>
      (if r.srcPorts == [] then [] else [PortIn(Src, r.protocol, r.srcPorts)])
      + (if r.dstPorts == [] then [] else [PortIn(Dst, r.protocol, r.dstPorts)])
  }

  /** `renderNodeFirewallRuleLine` */
  function RuleLine(r: Rule, src: Option<AddressList>, dst: Option<AddressList>, f: Option<Family>): NftRule {
    NftRule(r.chain,
            (if r.states == [] then [] else [Ct(r.states)])
            + SideMatch(Src, src, r.src, f) + SideMatch(Dst, dst, r.dst, f) + ProtocolMatch(r),
            r.action)
  }

  function FamilyLines(r: Rule, src: Option<AddressList>, dst: Option<AddressList>,
          fs: seq<Option<Family>>): seq<NftRule> {
    if fs == [] then [] else [RuleLine(r, src, dst, fs[0])] + FamilyLines(r, src, dst, fs[1..])
  }

  /** `renderNodeFirewallRule` */
  function RuleLines(r: Rule, lists: Lists): Result<seq<NftRule>> {
    var src :- ResolveList(lists, r.srcListId, r.srcListKey);
    var dst :- ResolveList(lists, r.dstListId, r.dstListKey);
    var fs :- RuleFamilies(r, src, dst);
    Ok(FamilyLines(r, src, dst, fs))
  }

  function OperatorLines(rules: seq<Rule>, lists: Lists): Result<seq<NftRule>> {
    if rules == [] then Ok([])
    else
      var front :- OperatorLines(rules[..|rules| - 1], lists);
      var r := rules[|rules| - 1];
      if !r.live then Ok(front)
      else
        var lines :- RuleLines(r, lists);
        Ok(front + lines)
  }

  // ---------------------------------------------------------------- safety rules

  const BOOTSTRAP_LISTS := ["trusted_control_plane", "trusted_operators"]

  /** `nodeFirewallListHasAnyCIDR`: some entry is the prefix of length zero. */
  predicate HasAnyCidr(l: AddressList) {
    exists e :: e in l.v4 + l.v6 && e.Net? && e.cidr.bits == 0
  }

  /** A bootstrap list that gets an SSH rule. */
  predicate Bootstraps(lists: Lists, key: string) {
    key in lists.byRef && !HasAnyCidr(lists.byRef[key])
  }

  function SshPorts(ports: seq<nat>): seq<PortRange> {
    if ports == [] then [PortRange(22, 22)]
      else seq(|ports|, i requires 0 <= i < |ports| => PortRange(ports[i], ports[i]))
  }

  function SshLine(l: AddressList, f: Family, ports: seq<PortRange>): NftRule {
    NftRule(Input, [Ct([New, Established]), InSet(Src, f, SetName(l.name, f)), PortIn(Dst, Tcp, ports)], Accept)
  }

  function SshLinesFor(lists: Lists, key: string, ports: seq<PortRange>): seq<NftRule> {
    if Bootstraps(lists, key) then [SshLine(lists.byRef[key], V4, ports), SshLine(lists.byRef[key], V6, ports)] else []
  }

  /** `renderNodeFirewallSSHBootstrapRules` */
  function SshLines(lists: Lists, ports: seq<nat>): seq<NftRule> {
    SshLinesFor(lists, BOOTSTRAP_LISTS[0], SshPorts(ports)) + SshLinesFor(lists, BOOTSTRAP_LISTS[1], SshPorts(ports))
  }

  predicate PortsContain(ranges: seq<PortRange>, port: nat) {
    ranges == [] || exists i :: 0 <= i < |ranges| && ranges[i].low <= port <= ranges[i].high
  }

  /** `hasExplicitControlPlaneOutputAllow` */
  predicate AllowsControlPlane(r: Rule, port: nat) {
    && r.live && r.chain == Out && r.action == Accept && (r.protocol == Any || r.protocol == Tcp)
    && (r.states == [] || New in r.states)
    && (r.protocol == Tcp ==> PortsContain(r.dstPorts, port))
    && (r.protocol == Any ==> r.dstPorts == [])
    && (if r.dst.Some? then r.dst.value.bits > 0 else r.dstListId != "" || r.dstListKey != "")
  }

  predicate ExplicitAllow(rules: seq<Rule>, port: nat) {
    exists i :: 0 <= i < |rules| && AllowsControlPlane(rules[i], port)
  }

  /** `renderNodeFirewallControlPlaneOutputRule` */
  function ControlPlaneLine(cp: ControlPlane, rules: seq<Rule>): Result<seq<NftRule>> {
    match cp
    case NoUrl => Err("strict default output policy requires agent_control_plane_url")
    case InvalidUrl => Err("strict default output policy requires a valid agent_control_plane_url")
    case InvalidPort => Err("control-plane URL port")
    case Dns(port) => if ExplicitAllow(rules, port) then Ok([]) else Err("control-plane URL host is DNS")
    case Literal(a, port) =>
      Ok([NftRule(Out, [InCidr(Dst, Cidr(a.family, a.value, Width(a.family))),
        PortIn(Dst, Tcp, [PortRange(port, port)])], Accept)])
  }

  function EstablishedLine(c: Chain): NftRule {
    NftRule(c, [Ct([Established, Related])], Accept)
  }

  /** `renderNodeFirewallSafetyRules` */
  function SafetyLines(d: Defaults, p: Payload, rules: seq<Rule>, lists: Lists): Result<seq<NftRule>> {
    if !d.enforce then Ok([])
    else
      var input := if d.input == Accept then [] else
        [EstablishedLine(Input), NftRule(Input, [LoopbackIn], Accept)] + SshLines(lists, p.sshPorts);
      var forward := if d.forward == Accept then [] else [EstablishedLine(Forward)];
      if d.output == Accept then Ok(input + forward)
      else
        var cp :- ControlPlaneLine(p.controlPlane, rules);
        Ok(input + forward + ([EstablishedLine(Out), NftRule(Out, [LoopbackOut], Accept)] + cp))
  }

  function RejectLine(d: Defaults, c: Chain): seq<NftRule> {
    if d.enforce && d.For(c) == Reject then [NftRule(c, [], Reject)] else []
  }

  /** `renderNodeFirewallDefaultRejectRules` */
  function RejectLines(d: Defaults): seq<NftRule> {
    RejectLine(d, Input) + RejectLine(d, Forward) + RejectLine(d, Out)
  }

  // ---------------------------------------------------------------- the plan

  /** `parseNodeFirewallDefaultPolicies`; a missing policy has been read as accept, an unknown word is `None`. */
  function ParseDefaults(p: Payload): Result<Defaults> {
    if p.input.None? || p.forward.None? || p.output.None? then Err("must be accept, drop or reject")
    else Ok(Defaults(p.input.value, p.forward.value, p.output.value, p.enforce))
  }

  function RuleCommands(rules: seq<NftRule>): (cmds: seq<Command>)
    ensures |cmds| == |rules| && forall i :: 0 <= i < |cmds| ==> cmds[i] == AddRule(rules[i])
  {
    seq(|rules|, i requires 0 <= i < |rules| => AddRule(rules[i]))
  }

  function ResetCommands(d: Defaults): seq<Command> {
    [DeleteTable, AddTable, AddChain(Input, BasePolicy(d.input, d.enforce)),
      AddChain(Forward, BasePolicy(d.forward, d.enforce)),
     AddChain(Out, BasePolicy(d.output, d.enforce))]
  }

  /** Everything the compiler derives from a payload. */
  datatype Compiled = Compiled(defaults: Defaults, lists: Lists, rules: seq<Rule>, safety: seq<NftRule>,
                               operator: seq<NftRule>) {
    function Rules(): seq<NftRule> {
      safety + operator + RejectLines(defaults)
    }

    function Script(): seq<Command> {
      ResetCommands(defaults) + SetCommands(lists.ordered) + RuleCommands(Rules())
    }
  }

  /** `renderNodeFirewallPlan`; `rules` are the parsed rules in payload order. */
  function Compile(slug: Slug, p: Payload): Result<Compiled> {
    var d :- ParseDefaults(p);
    var lists :- ParseLists(slug, p.lists);
    var rules :- ParseAll(p.rules);
    var sorted := SortRules(rules);
    var safety :- SafetyLines(d, p, sorted, lists);
    var operator :- OperatorLines(sorted, lists);
    Ok(Compiled(d, lists, rules, safety, operator))
  }

  // ---------------------------------------------------------------- the loops of the code

  method ParseEntriesLoop(entries: seq<RawEntry>, empty: AddressList) returns (r: Result<AddressList>)
    ensures r == ParseEntries(entries, empty)
  {
    var list := empty;
    assert entries[..0] == [];
    for i := 0 to |entries|
      invariant ParseEntries(entries[..i], empty) == Ok(list)
    {
      assert entries[..i + 1][..i] == entries[..i];
      if !entries[i].active {
        continue;
      }
      var e := NormalizeEntry(entries[i].value);
      if e.Err? {
        EntryErrorStays(entries, i + 1, empty);
        return Err(e.error);
      }
      if e.value.None? {
        continue;
      }
      if e.value.value.Family() == V4 {
        list := list.(v4 := list.v4 + [e.value.value]);
      } else {
        list := list.(v6 := list.v6 + [e.value.value]);
      }
    }
    assert entries[..|entries|] == entries;
    return Ok(list);
  }

  lemma {:induction false} EntryErrorStays(entries: seq<RawEntry>, n: nat, list: AddressList)
    requires n <= |entries| && ParseEntries(entries[..n], list).Err?
    ensures ParseEntries(entries, list) == ParseEntries(entries[..n], list)
    decreases |entries|
  {
    if n < |entries| {
      var front := entries[..|entries| - 1];
      assert front[..n] == entries[..n];
      EntryErrorStays(front, n, list);
    } else {
      assert entries[..n] == entries;
    }
  }

  method ParseListsLoop(slug: Slug, raws: seq<RawList>) returns (r: Result<Lists>)
    ensures r == ParseLists(slug, raws)
  {
    var byRef: map<string, AddressList> := map[];
    var ordered: seq<AddressList> := [];
    assert raws[..0] == [];
    for i := 0 to |raws|
      invariant ParseLists(slug, raws[..i]) == Ok(Lists(byRef, ordered))
    {
      assert raws[..i + 1][..i] == raws[..i];
      var raw := raws[i];
      if !raw.active || (raw.id == "" && raw.key == "") {
        continue;
      }
      var list := ParseEntriesLoop(raw.entries, AddressList(raw.id, raw.key, slug(First(raw.key, raw.id)), [], []));
      if list.Err? {
        ListErrorStays(slug, raws, i + 1);
        return Err(list.error);
      }
      ListKeepsName(raw.entries, AddressList(raw.id, raw.key, slug(First(raw.key, raw.id)), [], []));
      if raw.id != "" {
        byRef := byRef[raw.id := list.value];
      }
      if raw.key != "" {
        byRef := byRef[raw.key := list.value];
      }
      ordered := ordered + [list.value];
    }
    assert raws[..|raws|] == raws;
    return Ok(Lists(byRef, ordered));
  }

  lemma {:induction false} ListKeepsName(entries: seq<RawEntry>, list: AddressList)
    requires ParseEntries(entries, list).Ok?
    ensures var l := ParseEntries(entries, list).value; l.id == list.id && l.key == list.key && l.name == list.name
  {
    if entries != [] {
      ListKeepsName(entries[..|entries| - 1], list);
    }
  }

  lemma {:induction false} ListErrorStays(slug: Slug, raws: seq<RawList>, n: nat)
    requires n <= |raws| && ParseLists(slug, raws[..n]).Err?
    ensures ParseLists(slug, raws) == ParseLists(slug, raws[..n])
    decreases |raws|
  {
    if n < |raws| {
      var front := raws[..|raws| - 1];
      assert front[..n] == raws[..n];
      ListErrorStays(slug, front, n);
    } else {
      assert raws[..n] == raws;
    }
  }

  /** `parseNodeFirewallRules` */
  method ParseRulesLoop(raws: seq<RawRule>) returns (r: Result<seq<Rule>>)
    ensures r == ParseAll(raws)
  {
    var rules: seq<Rule> := [];
    assert raws[..0] == [];
    for i := 0 to |raws|
      invariant ParseAll(raws[..i]) == Ok(rules)
    {
      assert raws[..i + 1][..i] == raws[..i];
      var rule := ParseRule(raws[i], i);
      if rule.Err? {
        RuleErrorStays(raws, i + 1);
        return Err(rule.error);
      }
      rules := rules + [rule.value];
    }
    assert raws[..|raws|] == raws;
    return Ok(rules);
  }

  lemma {:induction false} RuleErrorStays(raws: seq<RawRule>, n: nat)
    requires n <= |raws| && ParseAll(raws[..n]).Err?
    ensures ParseAll(raws) == ParseAll(raws[..n])
    decreases |raws|
  {
    if n < |raws| {
      var front := raws[..|raws| - 1];
      assert front[..n] == raws[..n];
      RuleErrorStays(front, n);
    } else {
      assert raws[..n] == raws;
    }
  }

  method RenderRulesLoop(rules: seq<Rule>, lists: Lists) returns (r: Result<seq<NftRule>>)
    ensures r == OperatorLines(rules, lists)
  {
    var lines: seq<NftRule> := [];
    assert rules[..0] == [];
    for i := 0 to |rules|
      invariant OperatorLines(rules[..i], lists) == Ok(lines)
    {
      assert rules[..i + 1][..i] == rules[..i];
      if !rules[i].live {
        continue;
      }
      var rendered := RuleLines(rules[i], lists);
      if rendered.Err? {
        LineErrorStays(rules, i + 1, lists);
        return Err(rendered.error);
      }
      lines := lines + rendered.value;
    }
    assert rules[..|rules|] == rules;
    return Ok(lines);
  }

  lemma {:induction false} LineErrorStays(rules: seq<Rule>, n: nat, lists: Lists)
    requires n <= |rules| && OperatorLines(rules[..n], lists).Err?
    ensures OperatorLines(rules, lists) == OperatorLines(rules[..n], lists)
    decreases |rules|
  {
    if n < |rules| {
      var front := rules[..|rules| - 1];
      assert front[..n] == rules[..n];
      LineErrorStays(front, n, lists);
    } else {
      assert rules[..n] == rules;
    }
  }

  /** `renderNodeFirewallPlan` */
  method RenderPlan(slug: Slug, p: Payload) returns (r: Result<seq<Command>>)
    ensures r.Ok? <==> Compile(slug, p).Ok?
    ensures r.Ok? ==> r.value == Compile(slug, p).value.Script()
  {
    var d := ParseDefaults(p);
    if d.Err? {
      return Err(d.error);
    }
    var lists := ParseListsLoop(slug, p.lists);
    if lists.Err? {
      return Err(lists.error);
    }
    var rules := ParseRulesLoop(p.rules);
    if rules.Err? {
      return Err(rules.error);
    }
    var sorted := SortRules(rules.value);
    var lines := ResetCommands(d.value) + SetCommands(lists.value.ordered);
    var safety := SafetyLines(d.value, p, sorted, lists.value);
    if safety.Err? {
      return Err(safety.error);
    }
    var operator := RenderRulesLoop(sorted, lists.value);
    if operator.Err? {
      return Err(operator.error);
    }
    return Ok(lines + RuleCommands(safety.value + operator.value + RejectLines(d.value)));
  }
}
