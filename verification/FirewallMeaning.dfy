/** nft as a machine: how it loads a script and how the loaded table treats a packet. */
module FirewallNft {
  import opened Common
  import opened Firewall

  /** A packet on a hook; a transport protocol outside the four is `Any`. */
  datatype Packet = Packet(family: Family, src: nat, dst: nat, protocol: Protocol, sport: nat, dport: nat,
                           state: CtState, fromLoopback: bool, toLoopback: bool) {
    function At(side: Side): Addr {
      Addr(family, if side == Src then src else dst)
    }

    function PortAt(side: Side): nat {
      if side == Src then sport else dport
    }
  }

  datatype NftSet = NftSet(family: Family, elements: seq<Element>)

  type Sets = map<string, NftSet>

  datatype Policies = Policies(input: Option<Verdict>, forward: Option<Verdict>, output: Option<Verdict>) {
    function For(c: Chain): Option<Verdict> {
      match c
      case Input => input
      case Forward => forward
      case Out => output
    }

    function With(c: Chain, v: Verdict): Policies {
      match c
      case Input => this.(input := Some(v))
      case Forward => this.(forward := Some(v))
      case Out => this.(output := Some(v))
    }
  }

  /** The managed table: base chains with their policies, sets, and the rules of all chains in order of addition. */
  datatype Table = Table(policies: Policies, sets: Sets, rules: seq<NftRule>)

  /** A script is one transaction: any refused command refuses it all. */
  datatype Nft = NoTable | HasTable(table: Table) | Refused

  const EMPTY := Table(Policies(None, None, None), map[], [])

  predicate AllDefined(ms: seq<Match>, sets: Sets) {
    forall i :: 0 <= i < |ms| && ms[i].InSet? ==> ms[i].set_ in sets && sets[ms[i].set_].family == ms[i].family
  }

  /** Every set that a rule names exists and has the right family. */
  predicate RefsDefined(r: NftRule, sets: Sets) {
    AllDefined(r.matches, sets)
  }

  function Exec(cmd: Command, st: Nft): Nft {
    if st.Refused? then st
    else
      match cmd
      case DeleteTable => if st.NoTable? then Refused else NoTable
      case AddTable => if st.NoTable? then HasTable(EMPTY) else st
      case AddChain(c, v) => if st.NoTable? then Refused
          else HasTable(st.table.(policies := st.table.policies.With(c, v)))
      case AddSet(name, f) =>
        if st.NoTable? then Refused
        else if name in st.table.sets then (if st.table.sets[name].family == f then st else Refused)
        else HasTable(st.table.(sets := st.table.sets[name := NftSet(f, [])]))
      case AddElements(name, es) =>
        if st.NoTable? || name !in st.table.sets then Refused
        else
          var s := st.table.sets[name];
          HasTable(st.table.(sets := st.table.sets[name := NftSet(s.family, s.elements + es)]))
      case AddRule(r) =>
        if st.NoTable? || st.table.policies.For(r.chain).None? || !RefsDefined(r, st.table.sets) then Refused
        else HasTable(st.table.(rules := st.table.rules + [r]))
  }

  function Run(cmds: seq<Command>, st: Nft): Nft
    decreases |cmds|
  {
    if cmds == [] then st else Run(cmds[1..], Exec(cmds[0], st))
  }

  lemma {:induction false} RunAppend(a: seq<Command>, b: seq<Command>, st: Nft)
    ensures Run(a + b, st) == Run(b, Run(a, st))
    decreases |a|
  {
    if a == [] {
      assert a + b == b;
    } else {
      assert (a + b)[0] == a[0] && (a + b)[1..] == a[1..] + b;
      RunAppend(a[1..], b, Exec(a[0], st));
    }
  }

  lemma {:induction false} RunRefused(cmds: seq<Command>)
    ensures Run(cmds, Refused) == Refused
    decreases |cmds|
  {
    if cmds != [] {
      RunRefused(cmds[1..]);
    }
  }

  // ---------------------------------------------------------------- packets

  predicate ContainsAny(es: seq<Element>, a: Addr) {
    exists i :: 0 <= i < |es| && es[i].Contains(a)
  }

  predicate InRanges(ranges: seq<PortRange>, port: nat) {
    exists i :: 0 <= i < |ranges| && ranges[i].low <= port <= ranges[i].high
  }

  /** A set or address match implies its family; a port match implies its transport; `ip protocol icmp` is IPv4 only and
      `ip6 nexthdr icmpv6` is IPv6 only. */
  predicate Holds(m: Match, sets: Sets, p: Packet) {
    match m
    case Ct(states) => p.state in states
    case InSet(side, f, name) => p.family == f && name in sets && ContainsAny(sets[name].elements, p.At(side))
    case InCidr(side, c) => c.Covers(p.At(side))
    case PortIn(side, proto, ranges) => p.protocol == proto && InRanges(ranges, p.PortAt(side))
    case L4(proto) => p.protocol == proto && p.family == if proto == Icmpv6 then V6 else V4
    case LoopbackIn => p.fromLoopback
    case LoopbackOut => p.toLoopback
  }

  predicate AllHold(ms: seq<Match>, sets: Sets, p: Packet) {
    forall i :: 0 <= i < |ms| ==> Holds(ms[i], sets, p)
  }

  lemma AllHoldAppend(a: seq<Match>, b: seq<Match>, sets: Sets, p: Packet)
    ensures AllHold(a + b, sets, p) <==> AllHold(a, sets, p) && AllHold(b, sets, p)
  {
    if AllHold(a + b, sets, p) {
      forall i | 0 <= i < |a|
        ensures Holds(a[i], sets, p)
      {
        assert (a + b)[i] == a[i];
      }
      forall i | 0 <= i < |b|
        ensures Holds(b[i], sets, p)
      {
        assert (a + b)[|a| + i] == b[i];
      }
    }
  }

  lemma AllDefinedAppend(a: seq<Match>, b: seq<Match>, sets: Sets)
    requires AllDefined(a, sets) && AllDefined(b, sets)
    ensures AllDefined(a + b, sets)
  {
  }

  /** The verdict of the first matching rule of a chain. */
  function FirstVerdict(rules: seq<NftRule>, sets: Sets, c: Chain, p: Packet): Option<Verdict> {
    if rules == [] then None
    else if rules[0].chain == c && AllHold(rules[0].matches, sets, p) then Some(rules[0].verdict)
    else FirstVerdict(rules[1..], sets, c, p)
  }

  function Else(a: Option<Verdict>, b: Option<Verdict>): Option<Verdict> {
    if a.Some? then a else b
  }

  lemma {:induction false} FirstVerdictAppend(a: seq<NftRule>, b: seq<NftRule>, sets: Sets, c: Chain, p: Packet)
    ensures FirstVerdict(a + b, sets, c, p) == Else(FirstVerdict(a, sets, c, p), FirstVerdict(b, sets, c, p))
    decreases |a|
  {
    if a == [] {
      assert a + b == b;
    } else {
      assert (a + b)[0] == a[0] && (a + b)[1..] == a[1..] + b;
      FirstVerdictAppend(a[1..], b, sets, c, p);
    }
  }

  lemma FirstOfOne(a: NftRule, sets: Sets, c: Chain, p: Packet)
    ensures FirstVerdict([a], sets, c, p)
            == if a.chain == c && AllHold(a.matches, sets, p) then Some(a.verdict) else None
  {
    assert [a][1..] == [];
  }

  lemma FirstOfTwo(a: NftRule, b: NftRule, sets: Sets, c: Chain, p: Packet)
    ensures FirstVerdict([a, b], sets, c, p) == Else(FirstVerdict([a], sets, c, p), FirstVerdict([b], sets, c, p))
  {
    assert [a, b] == [a] + [b];
    FirstVerdictAppend([a], [b], sets, c, p);
  }

  /** What the table does with a packet on a chain. */
  function Evaluate(t: Table, c: Chain, p: Packet): Option<Verdict> {
    Else(FirstVerdict(t.rules, t.sets, c, p), t.policies.For(c))
  }
}

/** What a payload means, independently of how it is compiled, and the proof that the compiled table agrees. */
module FirewallMeaning {
  import opened Common
  import opened Firewall
  import opened FirewallNft

  // ---------------------------------------------------------------- the meaning of a payload

  /** An address is in a list: the list has entries of that family and some list that shares its set name holds the
      address. With distinct set names this is the list itself; see `DistinctNames`. */
  predicate ListContains(lists: Lists, l: AddressList, a: Addr) {
    l.Of(a.family) != [] && NameContains(lists, l.name, a)
  }

  predicate NameContains(lists: Lists, name: string, a: Addr) {
    exists i :: 0 <= i < |lists.ordered| && lists.ordered[i].name == name
      && ContainsAny(lists.ordered[i].Of(a.family), a)
  }

  predicate SideMatches(lists: Lists, l: Option<AddressList>, c: Option<Cidr>, a: Addr) {
    if l.Some? then ListContains(lists, l.value, a) else c.Some? ==> c.value.Covers(a)
  }

  /** A tcp or udp rule without ports has no protocol test. */
  predicate ProtocolMatches(r: Rule, p: Packet) {
    match r.protocol
    case Any => true
    case Icmp => p.family == V4 && p.protocol == Icmp
    case Icmpv6 => p.family == V6 && p.protocol == Icmpv6
    case _ =>
      && (r.srcPorts == [] || (p.protocol == r.protocol && InRanges(r.srcPorts, p.sport)))
      && (r.dstPorts == [] || (p.protocol == r.protocol && InRanges(r.dstPorts, p.dport)))
  }

  predicate RuleMatches(r: Rule, lists: Lists, p: Packet) {
    var src, dst := ResolveList(lists, r.srcListId, r.srcListKey), ResolveList(lists, r.dstListId, r.dstListKey);
    && src.Ok? && dst.Ok?
    && (r.states == [] || p.state in r.states)
    && SideMatches(lists, src.value, r.src, p.At(Src))
    && SideMatches(lists, dst.value, r.dst, p.At(Dst))
    && ProtocolMatches(r, p)
  }

  /** The rule is in force on the chain and matches. */
  predicate Relevant(r: Rule, lists: Lists, c: Chain, p: Packet) {
    r.live && r.chain == c && RuleMatches(r, lists, p)
  }

  /** Rule `i` of the payload decides: it is relevant, and comes before every other relevant rule by priority, then
      ID, then payload position. */
  predicate Deciding(rules: seq<Rule>, lists: Lists, c: Chain, p: Packet, i: nat)
    requires i < |rules|
  {
    && Relevant(rules[i], lists, c, p)
    && forall j :: 0 <= j < |rules| && j != i && Relevant(rules[j], lists, c, p) ==>
         if j < i then Before(rules[i], rules[j]) else !Before(rules[j], rules[i])
  }

  /** A port that SSH bootstrap opens: one of the configured ones, or 22 when none is. */
  predicate SshPort(ports: seq<nat>, port: nat) {
    if ports == [] then port == 22 else port in ports
  }

  predicate SshBootstrap(lists: Lists, ports: seq<nat>, p: Packet) {
    && (p.state == New || p.state == Established)
    && p.protocol == Tcp && SshPort(ports, p.dport)
    && exists k :: 0 <= k < |BOOTSTRAP_LISTS| && Bootstraps(lists, BOOTSTRAP_LISTS[k])
                   && NameContains(lists, lists.byRef[BOOTSTRAP_LISTS[k]].name, p.At(Src))
  }

  /** A packet that the safety rules accept whatever the operator rules say. */
  predicate SafePacket(d: Defaults, payload: Payload, lists: Lists, c: Chain, p: Packet) {
    && d.enforce && d.For(c) != Accept
    && (|| p.state == Established || p.state == Related
        || (c == Input && (p.fromLoopback || SshBootstrap(lists, payload.sshPorts, p)))
        || (c == Out && p.toLoopback)
        || (c == Out && payload.controlPlane.Literal? && p.At(Dst) == payload.controlPlane.addr
            && p.protocol == Tcp && p.dport == payload.controlPlane.port))
  }

  function DefaultVerdict(d: Defaults, c: Chain): Verdict {
    if d.enforce then d.For(c) else Accept
  }

  /** The verdict a payload asks for. */
  ghost predicate Asks(payload: Payload, k: Compiled, c: Chain, p: Packet, v: Verdict) {
    if SafePacket(k.defaults, payload, k.lists, c, p) then v == Accept
    else if exists i :: 0 <= i < |k.rules| && Relevant(k.rules[i], k.lists, c, p) then
      exists i :: 0 <= i < |k.rules| && Deciding(k.rules, k.lists, c, p, i) && v == k.rules[i].action
    else v == DefaultVerdict(k.defaults, c)
  }

  // ---------------------------------------------------------------- sets

  lemma SetNamesDiffer(a: string, f: Family, b: string, g: Family)
    ensures SetName(a, f) == SetName(b, g) <==> a == b && f == g
  {
    var x, y := SetName(a, f), SetName(b, g);
    assert x[|x| - 1] == (if f == V4 then '4' else '6') && y[|y| - 1] == if g == V4 then '4' else '6';
    if x == y {
      assert x[..|x| - 3] == a && y[..|y| - 3] == b;
    }
  }

  function AddTo(sets: Sets, l: AddressList, f: Family): Sets {
    var name := SetName(l.name, f);
    if l.Of(f) == [] then sets
    else sets[name := NftSet(f, (if name in sets then sets[name].elements else []) + l.Of(f))]
  }

  function SetMap(ordered: seq<AddressList>): Sets {
    if ordered == [] then map[]
    else
      var l := ordered[|ordered| - 1];
      AddTo(AddTo(SetMap(ordered[..|ordered| - 1]), l, V4), l, V6)
  }

  /** A set's family shows in its name. */
  ghost predicate Typed(sets: Sets) {
    forall n, f :: SetName(n, f) in sets ==> sets[SetName(n, f)].family == f
  }

  lemma TypedAdd(sets: Sets, l: AddressList, f: Family)
    requires Typed(sets)
    ensures Typed(AddTo(sets, l, f))
  {
    forall n, g | SetName(n, g) in AddTo(sets, l, f)
      ensures AddTo(sets, l, f)[SetName(n, g)].family == g
    {
      SetNamesDiffer(n, g, l.name, f);
    }
  }

  lemma RunSetCommandsFor(l: AddressList, f: Family, t: Table)
    requires Typed(t.sets)
    ensures Run(SetCommandsFor(l, f), HasTable(t)) == HasTable(t.(sets := AddTo(t.sets, l, f)))
  {
    if l.Of(f) != [] {
      var name := SetName(l.name, f);
      var a, b := AddSet(name, f), AddElements(name, l.Of(f));
      assert [a, b][1..] == [b] && [b][1..] == [];
      var one := Exec(a, HasTable(t));
      assert one.HasTable? && name in one.table.sets && one.table.sets[name].family == f;
      var two := Exec(b, one);
      assert Run([a, b], HasTable(t)) == Run([b], one) == two;
      assert [] + l.Of(f) == l.Of(f);
      assert two.table.sets == AddTo(t.sets, l, f);
    }
  }

  lemma {:induction false} RunSetCommands(ordered: seq<AddressList>, t: Table)
    requires t.sets == map[]
    ensures Run(SetCommands(ordered), HasTable(t)) == HasTable(t.(sets := SetMap(ordered)))
    ensures Typed(SetMap(ordered))
    decreases |ordered|
  {
    if ordered != [] {
      var front, l := ordered[..|ordered| - 1], ordered[|ordered| - 1];
      RunSetCommands(front, t);
      var a, b := SetCommandsFor(l, V4), SetCommandsFor(l, V6);
      RunAppend(SetCommands(front) + a, b, HasTable(t));
      RunAppend(SetCommands(front), a, HasTable(t));
      RunSetCommandsFor(l, V4, t.(sets := SetMap(front)));
      TypedAdd(SetMap(front), l, V4);
      RunSetCommandsFor(l, V6, t.(sets := AddTo(SetMap(front), l, V4)));
      TypedAdd(AddTo(SetMap(front), l, V4), l, V6);
    }
  }

  /** Some list of that name has entries of the family. */
  predicate NameHas(ordered: seq<AddressList>, name: string, f: Family) {
    exists i :: 0 <= i < |ordered| && ordered[i].name == name && ordered[i].Of(f) != []
  }

  predicate InSetMap(sets: Sets, name: string, f: Family, a: Addr) {
    SetName(name, f) in sets && ContainsAny(sets[SetName(name, f)].elements, a)
  }

  lemma ContainsAnyAppend(x: seq<Element>, y: seq<Element>, a: Addr)
    ensures ContainsAny(x + y, a) <==> ContainsAny(x, a) || ContainsAny(y, a)
  {
    if ContainsAny(x, a) {
      var i :| 0 <= i < |x| && x[i].Contains(a);
      assert (x + y)[i].Contains(a);
    }
    if ContainsAny(y, a) {
      var i :| 0 <= i < |y| && y[i].Contains(a);
      assert (x + y)[|x| + i].Contains(a);
    }
  }

  lemma AddToExact(sets: Sets, l: AddressList, g: Family, name: string, f: Family, a: Addr)
    ensures SetName(name, f) in AddTo(sets, l, g)
            <==> SetName(name, f) in sets || (l.name == name && f == g && l.Of(g) != [])
    ensures InSetMap(AddTo(sets, l, g), name, f, a) <==>
              InSetMap(sets, name, f, a) || (l.name == name && f == g && ContainsAny(l.Of(g), a))
  {
    SetNamesDiffer(name, f, l.name, g);
    var n := SetName(l.name, g);
    ContainsAnyAppend(if n in sets then sets[n].elements else [], l.Of(g), a);
  }

  predicate NameHolds(ordered: seq<AddressList>, name: string, f: Family, a: Addr) {
    exists i :: 0 <= i < |ordered| && ordered[i].name == name && ContainsAny(ordered[i].Of(f), a)
  }

  lemma NameHasStep(front: seq<AddressList>, l: AddressList, name: string, f: Family)
    ensures NameHas(front + [l], name, f) <==> NameHas(front, name, f) || (l.name == name && l.Of(f) != [])
  {
    var all := front + [l];
    if NameHas(front, name, f) {
      var i :| 0 <= i < |front| && front[i].name == name && front[i].Of(f) != [];
      assert all[i] == front[i];
    } else if l.name == name && l.Of(f) != [] {
      assert all[|front|] == l;
    }
  }

  lemma NameHoldsStep(front: seq<AddressList>, l: AddressList, name: string, f: Family, a: Addr)
    ensures NameHolds(front + [l], name, f, a)
            <==> NameHolds(front, name, f, a) || (l.name == name && ContainsAny(l.Of(f), a))
  {
    var all := front + [l];
    if NameHolds(front, name, f, a) {
      var i :| 0 <= i < |front| && front[i].name == name && ContainsAny(front[i].Of(f), a);
      assert all[i] == front[i];
    } else if l.name == name && ContainsAny(l.Of(f), a) {
      assert all[|front|] == l;
    }
  }

  /** A set is defined exactly when a list of that name has entries of the family, and holds exactly their addresses. */
  lemma {:induction false} SetMapExact(ordered: seq<AddressList>, name: string, f: Family, a: Addr)
    ensures SetName(name, f) in SetMap(ordered) <==> NameHas(ordered, name, f)
    ensures InSetMap(SetMap(ordered), name, f, a) <==> NameHolds(ordered, name, f, a)
    decreases |ordered|
  {
    if ordered != [] {
      var front, l := ordered[..|ordered| - 1], ordered[|ordered| - 1];
      SetMapExact(front, name, f, a);
      AddToExact(SetMap(front), l, V4, name, f, a);
      AddToExact(AddTo(SetMap(front), l, V4), l, V6, name, f, a);
      assert ordered == front + [l];
      NameHasStep(front, l, name, f);
      NameHoldsStep(front, l, name, f, a);
    }
  }

  // ---------------------------------------------------------------- one operator rule

  /** Every reference leads to a list whose sets have been added. */
  predicate RefsOrdered(lists: Lists) {
    forall k :: k in lists.byRef ==> lists.byRef[k] in lists.ordered
  }

  lemma {:induction false} ParsedRefsOrdered(slug: Slug, raws: seq<RawList>)
    requires ParseLists(slug, raws).Ok?
    ensures RefsOrdered(ParseLists(slug, raws).value)
  {
    if raws != [] {
      ParsedRefsOrdered(slug, raws[..|raws| - 1]);
    }
  }

  lemma OrderedHas(lists: Lists, l: AddressList, f: Family)
    requires l in lists.ordered && l.Of(f) != []
    ensures NameHas(lists.ordered, l.name, f)
  {
    var i :| 0 <= i < |lists.ordered| && lists.ordered[i] == l;
  }

  /** The side's match, for a family the rule allows. */
  lemma SideExact(lists: Lists, side: Side, l: Option<AddressList>, c: Option<Cidr>, f: Family, p: Packet)
    requires SideAllows(l, c, f) && (l.Some? ==> l.value in lists.ordered)
    ensures var ms := SideMatch(side, l, c, Some(f));
            && (p.family == f ==> (AllHold(ms, SetMap(lists.ordered), p) <==> SideMatches(lists, l, c, p.At(side))))
            && (ms != [] && AllHold(ms, SetMap(lists.ordered), p) ==> p.family == f)
            && (ms == [] <==> l.None? && c.None?)
            && (Typed(SetMap(lists.ordered)) ==> AllDefined(ms, SetMap(lists.ordered)))
  {
    var ms := SideMatch(side, l, c, Some(f));
    if l.Some? {
      SetMapExact(lists.ordered, l.value.name, f, p.At(side));
      OrderedHas(lists, l.value, f);
      assert ms[0] == InSet(side, f, SetName(l.value.name, f));
      assert AllHold(ms, SetMap(lists.ordered), p) <==> Holds(ms[0], SetMap(lists.ordered), p);
      assert NameHolds(lists.ordered, l.value.name, f, p.At(side)) <==>
             exists i :: 0 <= i < |lists.ordered| && lists.ordered[i].name == l.value.name
               && ContainsAny(lists.ordered[i].Of(f), p.At(side));
    } else if c.Some? {
      assert ms[0] == InCidr(side, c.value);
      assert AllHold(ms, SetMap(lists.ordered), p) <==> Holds(ms[0], SetMap(lists.ordered), p);
    }
  }

  /** Without the family the side never matches. */
  lemma SideNotAllowed(lists: Lists, l: Option<AddressList>, c: Option<Cidr>, a: Addr)
    requires !SideAllows(l, c, a.family)
    ensures !SideMatches(lists, l, c, a)
  {
  }

  lemma ProtocolExact(r: Rule, sets: Sets, p: Packet)
    requires (r.srcPorts != [] || r.dstPorts != []) ==> r.protocol == Tcp || r.protocol == Udp
    ensures AllHold(ProtocolMatch(r), sets, p) <==> ProtocolMatches(r, p)
    ensures AllDefined(ProtocolMatch(r), sets)
  {
    if r.protocol == Tcp || r.protocol == Udp {
      var a := if r.srcPorts == [] then [] else [PortIn(Src, r.protocol, r.srcPorts)];
      var b := if r.dstPorts == [] then [] else [PortIn(Dst, r.protocol, r.dstPorts)];
      AllHoldAppend(a, b, sets, p);
      assert a != [] ==> (AllHold(a, sets, p) <==> Holds(a[0], sets, p));
      assert b != [] ==> (AllHold(b, sets, p) <==> Holds(b[0], sets, p));
    } else if r.protocol != Any {
      assert AllHold(ProtocolMatch(r), sets, p) <==> Holds(ProtocolMatch(r)[0], sets, p);
    }
  }

  lemma CtExact(r: Rule, sets: Sets, p: Packet)
    ensures var ms := if r.states == [] then [] else [Ct(r.states)];
            AllHold(ms, sets, p) <==> (r.states == [] || p.state in r.states)
  {
    if r.states != [] {
      assert AllHold([Ct(r.states)], sets, p) <==> Holds([Ct(r.states)][0], sets, p);
    }
  }

  predicate PortsNeedTransport(r: Rule) {
    (r.srcPorts != [] || r.dstPorts != []) ==> r.protocol == Tcp || r.protocol == Udp
  }

  predicate Resolves(r: Rule, lists: Lists, src: Option<AddressList>, dst: Option<AddressList>) {
    && ResolveList(lists, r.srcListId, r.srcListKey) == Ok(src)
       && ResolveList(lists, r.dstListId, r.dstListKey) == Ok(dst)
    && (src.Some? ==> src.value in lists.ordered) && (dst.Some? ==> dst.value in lists.ordered)
  }

  predicate Unaddressed(r: Rule, src: Option<AddressList>, dst: Option<AddressList>) {
    src.None? && dst.None? && r.src.None? && r.dst.None?
  }

  /** One family line matches exactly the packets of its family that the rule matches. */
  lemma LineExact(r: Rule, lists: Lists, src: Option<AddressList>, dst: Option<AddressList>, f: Family, p: Packet)
    requires PortsNeedTransport(r) && FamilyAllowed(r, src, dst, f) && Resolves(r, lists, src, dst)
             && !Unaddressed(r, src, dst)
    ensures AllHold(RuleLine(r, src, dst, Some(f)).matches, SetMap(lists.ordered), p)
            <==> p.family == f && RuleMatches(r, lists, p)
  {
    var sets := SetMap(lists.ordered);
    var ct := if r.states == [] then [] else [Ct(r.states)];
    var a, b, proto := SideMatch(Src, src, r.src, Some(f)), SideMatch(Dst, dst, r.dst, Some(f)), ProtocolMatch(r);
    AllHoldAppend(ct + a + b, proto, sets, p);
    AllHoldAppend(ct + a, b, sets, p);
    AllHoldAppend(ct, a, sets, p);
    CtExact(r, sets, p);
    SideExact(lists, Src, src, r.src, f, p);
    SideExact(lists, Dst, dst, r.dst, f, p);
    ProtocolExact(r, sets, p);
  }

  /** It names only sets that have been added with at least one entry. */
  lemma LineDefined(r: Rule, lists: Lists, src: Option<AddressList>, dst: Option<AddressList>, f: Family, p: Packet)
    requires PortsNeedTransport(r) && FamilyAllowed(r, src, dst, f) && Resolves(r, lists, src, dst)
             && Typed(SetMap(lists.ordered))
    ensures RefsDefined(RuleLine(r, src, dst, Some(f)), SetMap(lists.ordered))
  {
    var sets := SetMap(lists.ordered);
    var ct := if r.states == [] then [] else [Ct(r.states)];
    var a, b, proto := SideMatch(Src, src, r.src, Some(f)), SideMatch(Dst, dst, r.dst, Some(f)), ProtocolMatch(r);
    SideExact(lists, Src, src, r.src, f, p);
    SideExact(lists, Dst, dst, r.dst, f, p);
    ProtocolExact(r, sets, p);
    AllDefinedAppend(ct, a, sets);
    AllDefinedAppend(ct + a, b, sets);
    AllDefinedAppend(ct + a + b, proto, sets);
  }

  lemma PlainLineExact(r: Rule, lists: Lists, p: Packet)
    requires PortsNeedTransport(r) && r.src.None? && r.dst.None?
    requires ResolveList(lists, r.srcListId, r.srcListKey) == Ok(None)
             && ResolveList(lists, r.dstListId, r.dstListKey) == Ok(None)
    ensures var line := RuleLine(r, None, None, None);
            && (AllHold(line.matches, SetMap(lists.ordered), p) <==> RuleMatches(r, lists, p))
            && RefsDefined(line, SetMap(lists.ordered))
  {
    var sets := SetMap(lists.ordered);
    var ct := if r.states == [] then [] else [Ct(r.states)];
    var proto := ProtocolMatch(r);
    assert RuleLine(r, None, None, None).matches == ct + proto;
    AllHoldAppend(ct, proto, sets, p);
    CtExact(r, sets, p);
    ProtocolExact(r, sets, p);
    AllDefinedAppend(ct, proto, sets);
  }

  lemma FamilyExcluded(r: Rule, lists: Lists, src: Option<AddressList>, dst: Option<AddressList>, p: Packet)
    requires Resolves(r, lists, src, dst) && !FamilyAllowed(r, src, dst, p.family)
    ensures !RuleMatches(r, lists, p)
  {
    if !SideAllows(src, r.src, p.family) {
      SideNotAllowed(lists, src, r.src, p.At(Src));
    } else if !SideAllows(dst, r.dst, p.family) {
      SideNotAllowed(lists, dst, r.dst, p.At(Dst));
    }
  }

  /** What one family line says on a chain. */
  lemma LineVerdict(r: Rule, lists: Lists, src: Option<AddressList>, dst: Option<AddressList>, f: Family, c: Chain,
          p: Packet)
    requires PortsNeedTransport(r) && FamilyAllowed(r, src, dst, f) && Resolves(r, lists, src, dst)
             && !Unaddressed(r, src, dst)
    requires Typed(SetMap(lists.ordered))
    ensures var line := RuleLine(r, src, dst, Some(f));
            && FirstVerdict([line], SetMap(lists.ordered), c, p)
               == (if p.family == f && r.chain == c && RuleMatches(r, lists, p) then Some(r.action) else None)
            && RefsDefined(line, SetMap(lists.ordered))
  {
    FirstOfOne(RuleLine(r, src, dst, Some(f)), SetMap(lists.ordered), c, p);
    LineExact(r, lists, src, dst, f, p);
    LineDefined(r, lists, src, dst, f, p);
  }

  lemma FamilyLinesOf(r: Rule, src: Option<AddressList>, dst: Option<AddressList>, f: Option<Family>, g: Option<Family>)
    ensures FamilyLines(r, src, dst, [f]) == [RuleLine(r, src, dst, f)]
    ensures FamilyLines(r, src, dst, [f, g]) == [RuleLine(r, src, dst, f), RuleLine(r, src, dst, g)]
  {
    assert [f][1..] == [] && [g][1..] == [] && [f, g][1..] == [g];
    assert FamilyLines(r, src, dst, [g]) == [RuleLine(r, src, dst, g)];
  }

  /** The lines say the rule's action exactly to the packets it matches and name only defined sets. */
  ghost predicate LinesExact(lines: seq<NftRule>, r: Rule, lists: Lists, c: Chain, p: Packet) {
    && FirstVerdict(lines, SetMap(lists.ordered), c, p)
       == (if r.chain == c && RuleMatches(r, lists, p) then Some(r.action) else None)
    && 1 <= |lines| <= 2
    && forall i :: 0 <= i < |lines| ==> RefsDefined(lines[i], SetMap(lists.ordered))
  }

  lemma OneFamily(r: Rule, lists: Lists, src: Option<AddressList>, dst: Option<AddressList>, f: Family, c: Chain,
          p: Packet)
    requires PortsNeedTransport(r) && Resolves(r, lists, src, dst) && !Unaddressed(r, src, dst)
             && Typed(SetMap(lists.ordered))
    requires forall g: Family :: FamilyAllowed(r, src, dst, g) <==> g == f
    ensures LinesExact([RuleLine(r, src, dst, Some(f))], r, lists, c, p)
  {
    if p.family != f {
      FamilyExcluded(r, lists, src, dst, p);
    }
    LineVerdict(r, lists, src, dst, f, c, p);
  }

  lemma TwoFamilies(r: Rule, lists: Lists, src: Option<AddressList>, dst: Option<AddressList>, c: Chain, p: Packet)
    requires PortsNeedTransport(r) && Resolves(r, lists, src, dst) && !Unaddressed(r, src, dst)
             && Typed(SetMap(lists.ordered))
    requires FamilyAllowed(r, src, dst, V4) && FamilyAllowed(r, src, dst, V6)
    ensures LinesExact([RuleLine(r, src, dst, Some(V4)), RuleLine(r, src, dst, Some(V6))], r, lists, c, p)
  {
    LineVerdict(r, lists, src, dst, V4, c, p);
    LineVerdict(r, lists, src, dst, V6, c, p);
    FirstOfTwo(RuleLine(r, src, dst, Some(V4)), RuleLine(r, src, dst, Some(V6)), SetMap(lists.ordered), c, p);
  }

  lemma NoFamily(r: Rule, lists: Lists, c: Chain, p: Packet)
    requires PortsNeedTransport(r) && Resolves(r, lists, None, None) && Unaddressed(r, None, None)
    ensures LinesExact([RuleLine(r, None, None, None)], r, lists, c, p)
  {
    PlainLineExact(r, lists, p);
    FirstOfOne(RuleLine(r, None, None, None), SetMap(lists.ordered), c, p);
  }

  /** Every rendered rule is exact. */
  lemma RuleLinesExact(r: Rule, lists: Lists, c: Chain, p: Packet)
    requires PortsNeedTransport(r) && RefsOrdered(lists) && Typed(SetMap(lists.ordered)) && RuleLines(r, lists).Ok?
    ensures LinesExact(RuleLines(r, lists).value, r, lists, c, p)
  {
    var src, dst := ResolveList(lists, r.srcListId, r.srcListKey).value,
      ResolveList(lists, r.dstListId, r.dstListKey).value;
    var fs := RuleFamilies(r, src, dst).value;
    assert RuleLines(r, lists).value == FamilyLines(r, src, dst, fs);
    if Unaddressed(r, src, dst) {
      FamilyLinesOf(r, src, dst, None, None);
      NoFamily(r, lists, c, p);
    } else {
      var v4, v6 := FamilyAllowed(r, src, dst, V4), FamilyAllowed(r, src, dst, V6);
      FamilyLinesOf(r, src, dst, if v4 then Some(V4) else Some(V6), Some(V6));
      if v4 && v6 {
        assert fs == [Some(V4), Some(V6)];
        TwoFamilies(r, lists, src, dst, c, p);
      } else if v4 {
        assert fs == [Some(V4)];
        OneFamily(r, lists, src, dst, V4, c, p);
      } else {
        assert fs == [Some(V6)];
        OneFamily(r, lists, src, dst, V6, c, p);
      }
    }
  }
}
