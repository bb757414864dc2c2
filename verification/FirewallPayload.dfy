/** What a payload means in its own terms, before any parsing, and the proof that the loaded table has that meaning. */
module FirewallPayload {
  import opened Common
  import opened Numbers
  import opened Firewall
  import opened FirewallNft
  import opened FirewallMeaning
  import opened FirewallCorrect

  // ---------------------------------------------------------------- address lists

  /** An entry in force whose value covers the address. */
  predicate EntryCovers(e: RawEntry, a: Addr) {
    && e.active
    && match e.value
       case CidrValue(c) => c.Covers(a)
       case AddressValue(x) => a == x
       case RangeValue(lo, hi) => a.family == lo.family && lo.value <= a.value <= hi.value
       case _ => false
  }

  /** An entry in force that adds an element of the family; DNS names add none. */
  predicate EntryHas(e: RawEntry, f: Family) {
    && e.active
    && match e.value
       case CidrValue(c) => c.family == f
       case AddressValue(x) => x.family == f
       case RangeValue(lo, _) => lo.family == f
       case _ => false
  }

  predicate EntryIsEverything(e: RawEntry) {
    e.active && e.value.CidrValue? && e.value.cidr.bits == 0
  }

  predicate SomeCovers(es: seq<RawEntry>, a: Addr) {
    exists j :: 0 <= j < |es| && EntryCovers(es[j], a)
  }

  predicate SomeHas(es: seq<RawEntry>, f: Family) {
    exists j :: 0 <= j < |es| && EntryHas(es[j], f)
  }

  predicate SomeIsEverything(es: seq<RawEntry>) {
    exists j :: 0 <= j < |es| && EntryIsEverything(es[j])
  }

  /** A list the agent takes in. */
  predicate Kept(raw: RawList) {
    raw.active && (raw.id != "" || raw.key != "")
  }

  function Tag(slug: Slug, raw: RawList): string {
    slug(if raw.key == "" then raw.id else raw.key)
  }

  /** Some list with the set name covers the address. */
  predicate TagCovers(slug: Slug, raws: seq<RawList>, name: string, a: Addr) {
    exists i :: 0 <= i < |raws| && Kept(raws[i]) && Tag(slug, raws[i]) == name && SomeCovers(raws[i].entries, a)
  }

  predicate TagHas(slug: Slug, raws: seq<RawList>, name: string, f: Family) {
    exists i :: 0 <= i < |raws| && Kept(raws[i]) && Tag(slug, raws[i]) == name && SomeHas(raws[i].entries, f)
  }

  predicate Names(raw: RawList, ref: string) {
    Kept(raw) && ref != "" && (raw.id == ref || raw.key == ref)
  }

  /** The list a reference means: the last one with that ID or key. */
  function FindList(raws: seq<RawList>, ref: string): (at: Option<nat>)
    ensures at.Some? ==> at.value < |raws| && Names(raws[at.value], ref)
                         && forall j :: at.value < j < |raws| ==> !Names(raws[j], ref)
    ensures at.None? ==> forall j :: 0 <= j < |raws| ==> !Names(raws[j], ref)
  {
    if raws == [] then None
    else if Names(raws[|raws| - 1], ref) then Some(|raws| - 1)
    else FindList(raws[..|raws| - 1], ref)
  }

  // ---------------------------------------------------------------- rules

  function PriorityOf(raw: RawRule, idx: nat): int {
    if raw.priority <= 0 then 1000 + idx else raw.priority
  }

  function IdOf(raw: RawRule, idx: nat): string {
    if raw.id == "" then Decimal(idx + 1) else raw.id
  }

  /** The order of rules: priority, then ID, then payload position. */
  ghost predicate Precedes(raws: seq<RawRule>, i: nat, j: nat)
    requires i < |raws| && j < |raws|
  {
    var (p, q, x, y) := (PriorityOf(raws[i], i), PriorityOf(raws[j], j), IdOf(raws[i], i), IdOf(raws[j], j));
    p < q || (p == q && (Earlier(x, y) || (x == y && i < j)))
  }

  /** One side of a rule: the list, by ID and else by key, wins over the prefix; neither means any address. */
  predicate SideAsks(slug: Slug, raws: seq<RawList>, id: string, key: string, cidr: CidrField, a: Addr) {
    if id == "" && key == "" then cidr.CidrOf? ==> cidr.cidr.Covers(a)
    else
      var at := if FindList(raws, id).Some? then FindList(raws, id) else FindList(raws, key);
      at.Some? && SomeHas(raws[at.value].entries, a.family) && TagCovers(slug, raws, Tag(slug, raws[at.value]), a)
  }

  predicate PortsAsk(f: PortsField, proto: Protocol, p: Packet, port: nat) {
    f.Ports? && f.ranges != [] ==> p.protocol == proto && InRanges(f.ranges, port)
  }

  predicate ProtocolAsks(raw: RawRule, p: Packet) {
    && raw.protocol.Some?
    && match raw.protocol.value
       case Any => true
       case Icmp => p.family == V4 && p.protocol == Icmp
       case Icmpv6 => p.family == V6 && p.protocol == Icmpv6
       case proto => PortsAsk(raw.srcPorts, proto, p, p.sport) && PortsAsk(raw.dstPorts, proto, p, p.dport)
  }

  /** The rule is enabled, active, on the chain, and the packet meets every condition it states. */
  predicate InForce(slug: Slug, payload: Payload, raw: RawRule, c: Chain, p: Packet) {
    && raw.enabled && raw.active && raw.chain == Some(c)
    && (raw.states == [] || p.state in raw.states)
    && SideAsks(slug, payload.lists, raw.srcListId, raw.srcListKey, raw.src, p.At(Src))
    && SideAsks(slug, payload.lists, raw.dstListId, raw.dstListKey, raw.dst, p.At(Dst))
    && ProtocolAsks(raw, p)
  }

  ghost predicate Decides(slug: Slug, payload: Payload, c: Chain, p: Packet, i: nat)
    requires i < |payload.rules|
  {
    && InForce(slug, payload, payload.rules[i], c, p)
    && forall j :: 0 <= j < |payload.rules| && j != i && InForce(slug, payload, payload.rules[j], c, p) ==>
         Precedes(payload.rules, i, j)
  }

  /** SSH from a bootstrap list that does not contain a prefix of length zero. */
  predicate SshFrom(slug: Slug, payload: Payload, ref: string, p: Packet) {
    var at := FindList(payload.lists, ref);
    && at.Some? && !SomeIsEverything(payload.lists[at.value].entries)
    && TagCovers(slug, payload.lists, Tag(slug, payload.lists[at.value]), p.At(Src))
  }

  /** SSH from some bootstrap list. */
  predicate Ssh(slug: Slug, payload: Payload, p: Packet) {
    && (p.state == New || p.state == Established) && p.protocol == Tcp && SshPort(payload.sshPorts, p.dport)
    && (SshFrom(slug, payload, "trusted_control_plane", p) || SshFrom(slug, payload, "trusted_operators", p))
  }

  function DefaultOf(payload: Payload, c: Chain): Option<Verdict> {
    match c
    case Input => payload.input
    case Forward => payload.forward
    case Out => payload.output
  }

  predicate Safe(slug: Slug, payload: Payload, c: Chain, p: Packet) {
    && payload.enforce && DefaultOf(payload, c) != Some(Accept)
    && (|| p.state == Established || p.state == Related
        || (c == Input && p.fromLoopback)
        || (c == Input && Ssh(slug, payload, p))
        || (c == Out && p.toLoopback)
        || (c == Out && payload.controlPlane.Literal? && p.At(Dst) == payload.controlPlane.addr
            && p.protocol == Tcp && p.dport == payload.controlPlane.port))
  }

  /** The verdict a payload asks for, told by the payload alone. */
  ghost predicate PayloadAsks(slug: Slug, payload: Payload, c: Chain, p: Packet, v: Verdict) {
    if Safe(slug, payload, c, p) then v == Accept
    else if exists i :: 0 <= i < |payload.rules| && InForce(slug, payload, payload.rules[i], c, p) then
      exists i :: 0 <= i < |payload.rules| && Decides(slug, payload, c, p, i) && payload.rules[i].action == Some(v)
    else if payload.enforce then DefaultOf(payload, c) == Some(v)
    else v == Accept
  }

  // ---------------------------------------------------------------- parsed lists

  lemma ElementOfEntry(e: RawEntry, a: Addr)
    requires e.active && NormalizeEntry(e.value).Ok?
    ensures var x := NormalizeEntry(e.value).value;
            && (x.None? ==> !EntryCovers(e, a) && !EntryHas(e, a.family) && !EntryIsEverything(e))
            && (x.Some? ==>
                  && (x.value.Contains(a) <==> EntryCovers(e, a))
                  && (x.value.Family() == a.family <==> EntryHas(e, a.family))
                  && (x.value.Contains(a) ==> x.value.Family() == a.family)
                  && (x.value.Net? && x.value.cidr.bits == 0 <==> EntryIsEverything(e)))
  {
    if e.value.CidrValue? {
      CanonicalCovers(e.value.cidr, a);
    }
  }

  lemma SomeSnoc(front: seq<RawEntry>, e: RawEntry, a: Addr)
    ensures SomeCovers(front + [e], a) <==> SomeCovers(front, a) || EntryCovers(e, a)
    ensures SomeHas(front + [e], a.family) <==> SomeHas(front, a.family) || EntryHas(e, a.family)
    ensures SomeIsEverything(front + [e]) <==> SomeIsEverything(front) || EntryIsEverything(e)
  {
    var all := front + [e];
    assert all[|front|] == e && forall j :: 0 <= j < |front| ==> all[j] == front[j];
  }

  /** What the entries of a list put into its two element lists. */
  ghost predicate EntriesMean(es: seq<RawEntry>, l: AddressList, a: Addr) {
    && (ContainsAny(l.Of(a.family), a) <==> SomeCovers(es, a))
    && (l.Of(a.family) != [] <==> SomeHas(es, a.family))
    && (HasAnyCidr(l) <==> SomeIsEverything(es))
  }

  lemma AddElement(l: AddressList, e: Element, a: Addr)
    ensures var next := if e.Family() == V4 then l.(v4 := l.v4 + [e]) else l.(v6 := l.v6 + [e]);
            && (ContainsAny(next.Of(a.family), a) <==>
                  ContainsAny(l.Of(a.family), a) || (e.Family() == a.family && e.Contains(a)))
            && (next.Of(a.family) != [] <==> l.Of(a.family) != [] || e.Family() == a.family)
            && (HasAnyCidr(next) <==> HasAnyCidr(l) || (e.Net? && e.cidr.bits == 0))
  {
    ContainsAnyAppend(l.Of(a.family), [e], a);
    assert ContainsAny([e], a) <==> e.Contains(a) by {
      assert [e][0] == e;
    }
    var next := if e.Family() == V4 then l.(v4 := l.v4 + [e]) else l.(v6 := l.v6 + [e]);
    assert forall x :: x in next.v4 + next.v6 <==> x in l.v4 + l.v6 || x == e;
  }

  lemma {:induction false} ParsedEntries(es: seq<RawEntry>, empty: AddressList, a: Addr)
    requires empty.v4 == [] && empty.v6 == [] && ParseEntries(es, empty).Ok?
    ensures EntriesMean(es, ParseEntries(es, empty).value, a)
  {
    if es != [] {
      var front, e := es[..|es| - 1], es[|es| - 1];
      ParsedEntries(front, empty, a);
      assert es == front + [e];
      SomeSnoc(front, e, a);
      if e.active {
        ElementOfEntry(e, a);
        var x := NormalizeEntry(e.value).value;
        if x.Some? {
          AddElement(ParseEntries(front, empty).value, x.value, a);
        }
      }
    }
  }

  lemma ParsedList(slug: Slug, raw: RawList, a: Addr)
    requires ParseList(slug, raw).Ok?
    ensures EntriesMean(raw.entries, ParseList(slug, raw).value, a)
    ensures var l := ParseList(slug, raw).value; l.name == Tag(slug, raw) && l.id == raw.id && l.key == raw.key
  {
    var empty := AddressList(raw.id, raw.key, slug(First(raw.key, raw.id)), [], []);
    ParsedEntries(raw.entries, empty, a);
    ListKeepsName(raw.entries, empty);
  }

  lemma TagSnoc(slug: Slug, front: seq<RawList>, raw: RawList, name: string, a: Addr)
    ensures TagCovers(slug, front + [raw], name, a) <==>
              TagCovers(slug, front, name, a) || (Kept(raw) && Tag(slug, raw) == name && SomeCovers(raw.entries, a))
    ensures TagHas(slug, front + [raw], name, a.family) <==>
              TagHas(slug, front, name, a.family)
                || (Kept(raw) && Tag(slug, raw) == name && SomeHas(raw.entries, a.family))
  {
    var all := front + [raw];
    assert all[|front|] == raw && forall j :: 0 <= j < |front| ==> all[j] == front[j];
  }

  /** The sets hold what the payload's lists with their name hold. */
  lemma {:induction false} ParsedTags(slug: Slug, raws: seq<RawList>, name: string, a: Addr)
    requires ParseLists(slug, raws).Ok?
    ensures NameHolds(ParseLists(slug, raws).value.ordered, name, a.family, a) <==> TagCovers(slug, raws, name, a)
    ensures NameHas(ParseLists(slug, raws).value.ordered, name, a.family) <==> TagHas(slug, raws, name, a.family)
  {
    if raws != [] {
      var front, raw := raws[..|raws| - 1], raws[|raws| - 1];
      ParsedTags(slug, front, name, a);
      assert raws == front + [raw];
      TagSnoc(slug, front, raw, name, a);
      if Kept(raw) {
        ParsedList(slug, raw, a);
        NameHoldsStep(ParseLists(slug, front).value.ordered, ParseList(slug, raw).value, name, a.family, a);
        NameHasStep(ParseLists(slug, front).value.ordered, ParseList(slug, raw).value, name, a.family);
      }
    }
  }

  /** A reference leads to the list that `FindList` names. */
  lemma {:induction false} ParsedReference(slug: Slug, raws: seq<RawList>, ref: string)
    requires ParseLists(slug, raws).Ok?
    ensures var at, byRef := FindList(raws, ref), ParseLists(slug, raws).value.byRef;
            && (ref != "" ==> (at.Some? <==> ref in byRef))
            && (at.Some? ==> ref in byRef && ParseList(slug, raws[at.value]) == Ok(byRef[ref]))
  {
    if raws != [] {
      var front, raw := raws[..|raws| - 1], raws[|raws| - 1];
      ParsedReference(slug, front, ref);
      if Kept(raw) {
        ParsedList(slug, raw, Addr(V4, 0));
      }
    }
  }

  // ---------------------------------------------------------------- parsed rules

  lemma {:induction false} ParsedRules(raws: seq<RawRule>)
    requires ParseAll(raws).Ok?
    ensures |ParseAll(raws).value| == |raws|
    ensures forall i :: 0 <= i < |raws| ==> ParseRule(raws[i], i) == Ok(ParseAll(raws).value[i])
  {
    if raws != [] {
      ParsedRules(raws[..|raws| - 1]);
    }
  }

  lemma ParsedSide(slug: Slug, raws: seq<RawList>, id: string, key: string, field: CidrField, a: Addr)
    requires ParseLists(slug, raws).Ok? && !field.BadCidr?
    ensures var lists := ParseLists(slug, raws).value;
            var l := ResolveList(lists, id, key);
            SideAsks(slug, raws, id, key, field, a) <==>
              l.Ok? && SideMatches(lists, l.value, if field.NoCidr? then None else Some(field.cidr.Canonical()), a)
  {
    if id == "" && key == "" {
      if field.CidrOf? {
        CanonicalCovers(field.cidr, a);
      }
    } else {
      ParsedReference(slug, raws, id);
      ParsedReference(slug, raws, key);
      var at := if FindList(raws, id).Some? then FindList(raws, id) else FindList(raws, key);
      if at.Some? {
        var raw := raws[at.value];
        ParsedList(slug, raw, a);
        ParsedTags(slug, raws, Tag(slug, raw), a);
      }
    }
  }

  lemma ParsedProtocol(raw: RawRule, idx: nat, p: Packet)
    requires ParseRule(raw, idx).Ok?
    ensures ProtocolAsks(raw, p) <==> ProtocolMatches(ParseRule(raw, idx).value, p)
  {
  }

  /** A parsed rule is relevant to exactly the packets for which the payload's rule is in force. */
  lemma ParsedRelevant(slug: Slug, payload: Payload, i: nat, c: Chain, p: Packet)
    requires ParseLists(slug, payload.lists).Ok? && i < |payload.rules| && ParseRule(payload.rules[i], i).Ok?
    ensures InForce(slug, payload, payload.rules[i], c, p) <==>
              Relevant(ParseRule(payload.rules[i], i).value, ParseLists(slug, payload.lists).value, c, p)
  {
    var raw := payload.rules[i];
    ParsedSide(slug, payload.lists, raw.srcListId, raw.srcListKey, raw.src, p.At(Src));
    ParsedSide(slug, payload.lists, raw.dstListId, raw.dstListKey, raw.dst, p.At(Dst));
    ParsedProtocol(raw, i, p);
  }

  lemma ParsedOrder(raws: seq<RawRule>, i: nat, j: nat)
    requires i < |raws| && j < |raws| && i != j && ParseRule(raws[i], i).Ok? && ParseRule(raws[j], j).Ok?
    ensures var a, b := ParseRule(raws[i], i).value, ParseRule(raws[j], j).value;
            Precedes(raws, i, j) <==> if j < i then Before(a, b) else !Before(b, a)
  {
    var x, y := IdOf(raws[i], i), IdOf(raws[j], j);
    LexLessIff(x, y);
    LexLessIff(y, x);
    LexTotal(x, y);
    LexIrreflexive(x);
    if LexLess(x, y) && LexLess(y, x) {
      LexTransitive(x, y, x);
    }
  }

  lemma CompiledFrom(slug: Slug, payload: Payload)
    requires Compile(slug, payload).Ok?
    ensures var k := Compile(slug, payload).value;
            && ParseAll(payload.rules) == Ok(k.rules) && ParseLists(slug, payload.lists) == Ok(k.lists)
            && ParseDefaults(payload) == Ok(k.defaults)
  {
  }

  /** The parsed rule acts like the payload's and is relevant where that is in force. */
  predicate Agrees(slug: Slug, payload: Payload, raw: RawRule, r: Rule, lists: Lists, c: Chain, p: Packet) {
    raw.action == Some(r.action) && (Relevant(r, lists, c, p) <==> InForce(slug, payload, raw, c, p))
  }

  lemma ParsedAgree(slug: Slug, payload: Payload, rules: seq<Rule>, lists: Lists, c: Chain, p: Packet)
    requires ParseAll(payload.rules) == Ok(rules) && ParseLists(slug, payload.lists) == Ok(lists)
    ensures |rules| == |payload.rules|
    ensures forall i :: 0 <= i < |rules| ==> Agrees(slug, payload, payload.rules[i], rules[i], lists, c, p)
  {
    ParsedRules(payload.rules);
    forall i | 0 <= i < |payload.rules|
      ensures Agrees(slug, payload, payload.rules[i], rules[i], lists, c, p)
    {
      ParsedRelevant(slug, payload, i, c, p);
    }
  }

  /** What parsing gives for every rule of a compiled payload. */
  lemma CompiledRules(slug: Slug, payload: Payload, c: Chain, p: Packet)
    requires Compile(slug, payload).Ok?
    ensures var k := Compile(slug, payload).value;
            && |k.rules| == |payload.rules|
            && forall i :: 0 <= i < |k.rules| ==> Agrees(slug, payload, payload.rules[i], k.rules[i], k.lists, c, p)
  {
    CompiledFrom(slug, payload);
    var k := Compile(slug, payload).value;
    ParsedAgree(slug, payload, k.rules, k.lists, c, p);
  }

  /** The parsed rules, where parsing put them. */
  predicate ParsedInto(raws: seq<RawRule>, rules: seq<Rule>) {
    |rules| == |raws| && forall i :: 0 <= i < |raws| ==> ParseRule(raws[i], i) == Ok(rules[i])
  }

  lemma OrderOfParsed(raws: seq<RawRule>, rules: seq<Rule>, i: nat, j: nat)
    requires ParsedInto(raws, rules) && i < |raws| && j < |raws| && i != j
    ensures Precedes(raws, i, j) <==> if j < i then Before(rules[i], rules[j]) else !Before(rules[j], rules[i])
  {
    ParsedOrder(raws, i, j);
  }

  lemma DecidesAlike(slug: Slug, payload: Payload, rules: seq<Rule>, lists: Lists, c: Chain, p: Packet, i: nat)
    requires ParsedInto(payload.rules, rules) && i < |rules| && Deciding(rules, lists, c, p, i)
    requires forall j :: 0 <= j < |rules| ==> Agrees(slug, payload, payload.rules[j], rules[j], lists, c, p)
    ensures Decides(slug, payload, c, p, i)
  {
    assert Agrees(slug, payload, payload.rules[i], rules[i], lists, c, p);
    forall j | 0 <= j < |payload.rules| && j != i && InForce(slug, payload, payload.rules[j], c, p)
      ensures Precedes(payload.rules, i, j)
    {
      assert Agrees(slug, payload, payload.rules[j], rules[j], lists, c, p);
      OrderOfParsed(payload.rules, rules, i, j);
    }
  }

  lemma DecidingDecides(slug: Slug, payload: Payload, c: Chain, p: Packet, i: nat)
    requires Compile(slug, payload).Ok? && i < |payload.rules|
    ensures var k := Compile(slug, payload).value;
            i < |k.rules| && (Deciding(k.rules, k.lists, c, p, i) ==> Decides(slug, payload, c, p, i))
  {
    var k := Compile(slug, payload).value;
    CompiledFrom(slug, payload);
    CompiledRules(slug, payload, c, p);
    ParsedRules(payload.rules);
    if Deciding(k.rules, k.lists, c, p, i) {
      DecidesAlike(slug, payload, k.rules, k.lists, c, p, i);
    }
  }

  // ---------------------------------------------------------------- safety rules

  lemma ParsedBootstrap(slug: Slug, payload: Payload, ref: string, p: Packet)
    requires ParseLists(slug, payload.lists).Ok? && ref != ""
    ensures var lists := ParseLists(slug, payload.lists).value;
            SshFrom(slug, payload, ref, p) <==>
              Bootstraps(lists, ref) && NameContains(lists, lists.byRef[ref].name, p.At(Src))
  {
    ParsedReference(slug, payload.lists, ref);
    var at := FindList(payload.lists, ref);
    if at.Some? {
      var raw := payload.lists[at.value];
      ParsedList(slug, raw, p.At(Src));
      ParsedTags(slug, payload.lists, Tag(slug, raw), p.At(Src));
    }
  }

  lemma ParsedSsh(slug: Slug, payload: Payload, lists: Lists, p: Packet)
    requires ParseLists(slug, payload.lists) == Ok(lists)
    ensures Ssh(slug, payload, p) <==> SshBootstrap(lists, payload.sshPorts, p)
  {
    var one, two := BOOTSTRAP_LISTS[0], BOOTSTRAP_LISTS[1];
    ParsedBootstrap(slug, payload, one, p);
    ParsedBootstrap(slug, payload, two, p);
    assert |BOOTSTRAP_LISTS| == 2;
  }

  lemma ParsedSafe(slug: Slug, payload: Payload, c: Chain, p: Packet)
    requires Compile(slug, payload).Ok?
    ensures var k := Compile(slug, payload).value;
            Safe(slug, payload, c, p) <==> SafePacket(k.defaults, payload, k.lists, c, p)
  {
    CompiledFrom(slug, payload);
    ParsedSsh(slug, payload, Compile(slug, payload).value.lists, p);
  }

  // ---------------------------------------------------------------- the theorems

  lemma AskedAlike(slug: Slug, payload: Payload, k: Compiled, c: Chain, p: Packet, v: Verdict)
    requires Asks(payload, k, c, p, v) && ParseDefaults(payload) == Ok(k.defaults) && |k.rules| == |payload.rules|
    requires Safe(slug, payload, c, p) <==> SafePacket(k.defaults, payload, k.lists, c, p)
    requires forall i :: 0 <= i < |k.rules| ==> Agrees(slug, payload, payload.rules[i], k.rules[i], k.lists, c, p)
    requires forall i: nat :: i < |k.rules| && Deciding(k.rules, k.lists, c, p, i) ==> Decides(slug, payload, c, p, i)
    ensures PayloadAsks(slug, payload, c, p, v)
  {
    if !Safe(slug, payload, c, p) {
      if i :| 0 <= i < |payload.rules| && InForce(slug, payload, payload.rules[i], c, p) {
        assert Agrees(slug, payload, payload.rules[i], k.rules[i], k.lists, c, p);
        var d :| 0 <= d < |k.rules| && Deciding(k.rules, k.lists, c, p, d) && v == k.rules[d].action;
        assert Agrees(slug, payload, payload.rules[d], k.rules[d], k.lists, c, p);
      } else {
        assert forall i :: 0 <= i < |k.rules| ==> !Relevant(k.rules[i], k.lists, c, p) by {
          assert forall i :: 0 <= i < |k.rules| ==> Agrees(slug, payload, payload.rules[i], k.rules[i], k.lists, c, p);
        }
      }
    }
  }

  /** What the parsed payload asks for is what the payload asks for. */
  lemma AsksForPayload(slug: Slug, payload: Payload, c: Chain, p: Packet, v: Verdict)
    requires Compile(slug, payload).Ok? && Asks(payload, Compile(slug, payload).value, c, p, v)
    ensures PayloadAsks(slug, payload, c, p, v)
  {
    ParsedSafe(slug, payload, c, p);
    CompiledRules(slug, payload, c, p);
    CompiledFrom(slug, payload);
    forall i: nat | i < |payload.rules|
      ensures Deciding(Compile(slug, payload).value.rules, Compile(slug, payload).value.lists, c, p, i)
              ==> Decides(slug, payload, c, p, i)
    {
      DecidingDecides(slug, payload, c, p, i);
    }
    AskedAlike(slug, payload, Compile(slug, payload).value, c, p, v);
  }

  /** Compilation preserves meaning: the table a compiled payload loads gives every packet on every chain the verdict
      that the payload, read by itself, asks for. */
  lemma PayloadMeaning(slug: Slug, payload: Payload, c: Chain, p: Packet)
    requires Compile(slug, payload).Ok?
    ensures var v := Evaluate(Loaded(Compile(slug, payload).value), c, p);
            v.Some? && PayloadAsks(slug, payload, c, p, v.value)
  {
    CompiledMeaning(slug, payload, c, p);
    AsksForPayload(slug, payload, c, p, Evaluate(Loaded(Compile(slug, payload).value), c, p).value);
  }

  /** A payload asks for one verdict only. */
  lemma PayloadAsksOnce(slug: Slug, payload: Payload, c: Chain, p: Packet, v: Verdict, w: Verdict)
    requires PayloadAsks(slug, payload, c, p, v) && PayloadAsks(slug, payload, c, p, w)
    ensures v == w
  {
    if && !Safe(slug, payload, c, p)
       && exists i :: 0 <= i < |payload.rules| && InForce(slug, payload, payload.rules[i], c, p) {
      var i :| 0 <= i < |payload.rules| && Decides(slug, payload, c, p, i) && payload.rules[i].action == Some(v);
      var j :| 0 <= j < |payload.rules| && Decides(slug, payload, c, p, j) && payload.rules[j].action == Some(w);
      if i != j {
        NotBoth(payload.rules, i, j);
      }
    }
  }

  lemma NotBoth(raws: seq<RawRule>, i: nat, j: nat)
    requires i < |raws| && j < |raws| && i != j
    ensures !(Precedes(raws, i, j) && Precedes(raws, j, i))
  {
    var x, y := IdOf(raws[i], i), IdOf(raws[j], j);
    LexLessIff(x, y);
    LexLessIff(y, x);
    LexIrreflexive(x);
    if LexLess(x, y) && LexLess(y, x) {
      LexTransitive(x, y, x);
    }
  }

  /** Every bootstrap list that gets SSH rules shares its set name with entries of both families. */
  predicate BootstrapListsComplete(slug: Slug, payload: Payload) {
    forall ref, f: Family :: ref in BOOTSTRAP_LISTS ==>
      var at := FindList(payload.lists, ref);
      at.Some? && !SomeIsEverything(payload.lists[at.value].entries) ==>
        TagHas(slug, payload.lists, Tag(slug, payload.lists[at.value]), f)
  }

  lemma ParsedComplete(slug: Slug, payload: Payload, ref: string, f: Family)
    requires ParseLists(slug, payload.lists).Ok? && ref != ""
    ensures var lists, at := ParseLists(slug, payload.lists).value, FindList(payload.lists, ref);
            && (Bootstraps(lists, ref) <==> at.Some? && !SomeIsEverything(payload.lists[at.value].entries))
            && (Bootstraps(lists, ref) ==>
                  (NameHas(lists.ordered, lists.byRef[ref].name, f) <==>
                     TagHas(slug, payload.lists, Tag(slug, payload.lists[at.value]), f)))
  {
    ParsedReference(slug, payload.lists, ref);
    var at := FindList(payload.lists, ref);
    if at.Some? {
      ParsedList(slug, payload.lists[at.value], Addr(f, 0));
      ParsedTags(slug, payload.lists, Tag(slug, payload.lists[at.value]), Addr(f, 0));
    }
  }

  /** A compiled payload loads into any existing table if and only if input is not filtered or the bootstrap lists are
      complete; otherwise nft refuses the whole script. */
  lemma PayloadLoadsIff(slug: Slug, payload: Payload, t: Table)
    requires Compile(slug, payload).Ok?
    ensures var k := Compile(slug, payload).value;
            Run(k.Script(), HasTable(t))
            == if (payload.enforce && payload.input != Some(Accept) ==> BootstrapListsComplete(slug, payload))
               then HasTable(Loaded(k)) else Refused
  {
    var k := Compile(slug, payload).value;
    LoadsIff(slug, payload, t);
    forall ref, f: Family | ref in BOOTSTRAP_LISTS
      ensures var at := FindList(payload.lists, ref);
              && (Bootstraps(k.lists, ref) <==> at.Some? && !SomeIsEverything(payload.lists[at.value].entries))
              && (Bootstraps(k.lists, ref) ==>
                    (NameHas(k.lists.ordered, k.lists.byRef[ref].name, f) <==>
                       TagHas(slug, payload.lists, Tag(slug, payload.lists[at.value]), f)))
    {
      ParsedComplete(slug, payload, ref, f);
    }
    assert forall i :: 0 <= i < |BOOTSTRAP_LISTS| ==> BOOTSTRAP_LISTS[i] in BOOTSTRAP_LISTS;
  }

  /** The list of trusted operators with one IPv4 prefix, and input dropped by default. */
  const HALF_LIST := RawList(true, "", "trusted_operators", [RawEntry(true, CidrValue(Cidr(V4, 0, 8)))])

  const HALF_PAYLOAD := Payload(Some(Drop), Some(Accept), Some(Accept), true, [HALF_LIST], [], [], NoUrl)

  lemma HalfPayloadCompiles(slug: Slug)
    ensures Compile(slug, HALF_PAYLOAD).Ok?
  {
    var entry := RawEntry(true, CidrValue(Cidr(V4, 0, 8)));
    assert [entry][..0] == [] && [HALF_LIST][..0] == [];
    var empty := AddressList("", "trusted_operators", slug("trusted_operators"), [], []);
    assert ParseEntries([], empty) == Ok(empty);
    assert ParseEntries([entry], empty).Ok?;
    assert ParseLists(slug, []) == Ok(Lists(map[], []));
    assert ParseLists(slug, [HALF_LIST]).Ok?;
  }

  lemma HalfListIsIncomplete(slug: Slug)
    ensures !BootstrapListsComplete(slug, HALF_PAYLOAD)
  {
    var ref := BOOTSTRAP_LISTS[1];
    assert ref in BOOTSTRAP_LISTS;
    assert FindList([HALF_LIST], ref) == Some(0);
    assert !SomeIsEverything(HALF_LIST.entries) && !SomeHas(HALF_LIST.entries, V6);
    assert !TagHas(slug, [HALF_LIST], Tag(slug, HALF_LIST), V6);
  }

  /** An instance: this payload compiles, and nft refuses its script. */
  lemma HalfListIsRefused(slug: Slug, t: Table)
    ensures Compile(slug, HALF_PAYLOAD).Ok? && Run(Compile(slug, HALF_PAYLOAD).value.Script(), HasTable(t)) == Refused
  {
    HalfPayloadCompiles(slug);
    HalfListIsIncomplete(slug);
    PayloadLoadsIff(slug, HALF_PAYLOAD, t);
  }
}
