/** Whole runs of report rounds: conservation of bytes and the order of the time buckets. */
module TrafficRuns {
  import opened Common
  import opened Traffic

  /** A run of the client: its states, the rounds between them and their outcomes. */
  datatype Run = Run(states: seq<State>, rounds: seq<Round>, outcomes: seq<Outcome>) {
    predicate Shape() {
      |states| == |rounds| + 1 && |outcomes| == |rounds|
    }

    /** Round `i` is a step of the client. */
    predicate StepAt(i: nat)
      requires Shape() && i < |rounds|
    {
      (states[i + 1], outcomes[i]) == Step(states[i], rounds[i])
    }

    predicate Valid() {
      Shape() && forall i :: 0 <= i < |rounds| ==> StepAt(i)
    }
  }

  /** The round's readings became the new baselines. */
  predicate Committed(o: Outcome) {
    o.NothingToSubmit? || o.Submitted?
  }

  predicate SameCounters(a: State, b: State) {
    a.xray == b.xray && a.wireGuard == b.wireGuard && a.openVPN == b.openVPN
  }

  /** What conservation needs to know about one round. */
  predicate Accounted(st: State, r: Round, st': State, o: Outcome) {
    && SameCounters(st', if Committed(o) then Commit(st, r) else st)
    && (o.Submitted? ==> o.samples == Collect(st, r))
    && (o.NothingToSubmit? ==> Empty(Collect(st, r)))
  }

  predicate AccountedAt(run: Run, i: nat)
    requires run.Shape() && i < |run.rounds|
  {
    Accounted(run.states[i], run.rounds[i], run.states[i + 1], run.outcomes[i])
  }

  predicate AllAccounted(run: Run) {
    run.Shape() && forall i :: 0 <= i < |run.rounds| ==> AccountedAt(run, i)
  }

  lemma StepAccounted(st: State, r: Round)
    ensures Accounted(st, r, Step(st, r).0, Step(st, r).1)
  {
    var normal := Normal(st);
    NormalRound(normal, r);
    assert Step(st, r) == Step(normal, r);
  }

  lemma NormalRound(st: State, r: Round)
    requires st == Normal(st)
    ensures Accounted(st, r, Step(st, r).0, Step(st, r).1)
  {
  }

  lemma RunAccounted(run: Run)
    requires run.Valid()
    ensures AllAccounted(run)
  {
    forall i | 0 <= i < |run.rounds|
      ensures AccountedAt(run, i)
    {
      assert run.StepAt(i);
      StepAccounted(run.states[i], run.rounds[i]);
    }
  }

  predicate XrayWellFormed(readings: seq<XrayReading>) {
    && (forall i :: 0 <= i < |readings| ==>
          && Part(readings[i].instance) && Part(readings[i].user)
          && (readings[i].direction == "uplink" || readings[i].direction == "downlink"))
    && (forall i, j :: 0 <= i < j < |readings| ==> readings[i].Key() != readings[j].Key())
  }

  predicate PairsWellFormed(readings: seq<PairReading>) {
    && (forall i :: 0 <= i < |readings| ==> Part(readings[i].instance) && Part(readings[i].peer))
    && (forall i, j :: 0 <= i < j < |readings| ==>
          !(readings[i].instance == readings[j].instance && readings[i].peer == readings[j].peer))
  }

  predicate XrayWellFormedAt(run: Run, i: nat)
    requires i < |run.rounds|
  {
    XrayWellFormed(run.rounds[i].xray)
  }

  /** Keys are distinct in each round and free of the separator, and every direction is one the collector returns. */
  predicate XrayInput(run: Run) {
    forall i :: 0 <= i < |run.rounds| ==> XrayWellFormedAt(run, i)
  }

  // ---------------------------------------------------------------- Xray counters

  function ValueOf(readings: seq<XrayReading>, key: string): Option<int> {
    if readings == [] then None
    else
      var r := readings[|readings| - 1];
      if r.Key() == key then Some(r.value) else ValueOf(readings[..|readings| - 1], key)
  }

  /** The baselines a counter has had, the initial one first, then one for each committed reading. */
  function History(run: Run, n: nat, key: string): seq<int>
    requires run.Shape() && n <= |run.rounds|
  {
    if n == 0 then if key in run.states[0].xray then [run.states[0].xray[key]] else []
    else
      var v := ValueOf(run.rounds[n - 1].xray, key);
      History(run, n - 1, key) + (if Committed(run.outcomes[n - 1]) && v.Some? then [v.value] else [])
  }

  /** The sum of max(0, next - previous). */
  function Rises(h: seq<int>): int {
    if |h| <= 1 then 0
    else
      var d := h[|h| - 1] - h[|h| - 2];
      Rises(h[..|h| - 1]) + if d > 0 then d else 0
  }

  function RxOf(samples: map<string, Sample>, k: string): int {
    if k in samples then samples[k].rx else 0
  }

  function TxOf(samples: map<string, Sample>, k: string): int {
    if k in samples then samples[k].tx else 0
  }

  /** The bytes acknowledged for an Xray user in the first `n` rounds: received, sent. */
  function AckedXray(run: Run, n: nat, k: string): (int, int)
    requires run.Shape() && n <= |run.rounds|
  {
    if n == 0 then (0, 0)
    else
      var before, o := AckedXray(run, n - 1, k), run.outcomes[n - 1];
      if o.Submitted? then (before.0 + RxOf(o.samples.xray, k), before.1 + TxOf(o.samples.xray, k)) else before
  }

  function DeltaAt(state: Counters, readings: seq<XrayReading>, key: string): int {
    var v := ValueOf(readings, key);
    if v.Some? && key in state && v.value > state[key] then v.value - state[key] else 0
  }

  lemma {:induction false} CommitAt(state: Counters, readings: seq<XrayReading>, key: string)
    ensures var v, out := ValueOf(readings, key), XrayCommit(state, readings);
            if v.Some? then key in out && out[key] == v.value
            else (key in out <==> key in state) && (key in out ==> out[key] == state[key])
    decreases |readings|
  {
    if readings != [] {
      CommitAt(state, readings[..|readings| - 1], key);
    }
  }

  lemma {:induction false} ValueOfAbsent(readings: seq<XrayReading>, key: string)
    requires forall i :: 0 <= i < |readings| ==> readings[i].Key() != key
    ensures ValueOf(readings, key) == None
    decreases |readings|
  {
    if readings != [] {
      ValueOfAbsent(readings[..|readings| - 1], key);
    }
  }

  /** With distinct keys the last reading alone decides its own counter. */
  lemma DeltaOfLast(state: Counters, readings: seq<XrayReading>, key: string)
    requires XrayWellFormed(readings) && readings != []
    ensures var front, r := readings[..|readings| - 1], readings[|readings| - 1];
            && DeltaAt(state, readings, key) == (if r.Key() == key then Delta(state, r) else DeltaAt(state, front, key))
            && (r.Key() == key ==> DeltaAt(state, front, key) == 0)
  {
    var front, r := readings[..|readings| - 1], readings[|readings| - 1];
    forall i | 0 <= i < |front|
      ensures front[i].Key() != r.Key()
    {
      assert front[i] == readings[i];
    }
    ValueOfAbsent(front, r.Key());
  }

  /** An aggregate holds exactly the rise of its user's two counters. */
  lemma {:induction false} AggregateAt(state: Counters, readings: seq<XrayReading>, instance: string, user: string)
    requires XrayWellFormed(readings) && Part(instance) && Part(user)
    ensures RxOf(XrayAggregates(state, readings), Key2(instance, user))
            == DeltaAt(state, readings, Key3(instance, user, "uplink"))
    ensures TxOf(XrayAggregates(state, readings), Key2(instance, user))
            == DeltaAt(state, readings, Key3(instance, user, "downlink"))
    decreases |readings|
  {
    if readings != [] {
      var front, r := readings[..|readings| - 1], readings[|readings| - 1];
      var up, down := Key3(instance, user, "uplink"), Key3(instance, user, "downlink");
      AggregateAt(state, front, instance, user);
      KeysInjective(r.instance, r.user, r.direction, instance, user, "uplink");
      KeysInjective(r.instance, r.user, r.direction, instance, user, "downlink");
      DeltaOfLast(state, readings, up);
      DeltaOfLast(state, readings, down);
      if r.Key() != up && r.Key() != down {
        assert Key2(r.instance, r.user) != Key2(instance, user);
      }
    }
  }

  lemma SamplesAt(state: Counters, readings: seq<XrayReading>, k: string)
    ensures RxOf(XraySamples(state, readings), k) == RxOf(XrayAggregates(state, readings), k)
    ensures TxOf(XraySamples(state, readings), k) == TxOf(XrayAggregates(state, readings), k)
  {
  }

  /** The last committed reading is the counter's baseline. */
  lemma {:induction false} BaselineIsLast(run: Run, n: nat, key: string)
    requires AllAccounted(run) && n <= |run.rounds|
    ensures var h, now := History(run, n, key), run.states[n].xray;
            (h != [] <==> key in now) && (h != [] ==> now[key] == h[|h| - 1])
    decreases n
  {
    if n > 0 {
      BaselineIsLast(run, n - 1, key);
      assert AccountedAt(run, n - 1);
      CommitAt(run.states[n - 1].xray, run.rounds[n - 1].xray, key);
    }
  }

  lemma RisesAppend(h: seq<int>, v: int)
    ensures Rises(h + [v]) == Rises(h) + if h != [] && v > h[|h| - 1] then v - h[|h| - 1] else 0
  {
    assert (h + [v])[..|h|] == h;
  }

  /** One more round adds to the sum of rises what that round's reading adds to the baseline, if it commits. */
  lemma RiseOfRound(run: Run, n: nat, key: string)
    requires AllAccounted(run) && 0 < n <= |run.rounds|
    ensures Rises(History(run, n, key)) == Rises(History(run, n - 1, key))
            + if Committed(run.outcomes[n - 1]) then DeltaAt(run.states[n - 1].xray, run.rounds[n - 1].xray, key) else 0
  {
    BaselineIsLast(run, n - 1, key);
    var h, v := History(run, n - 1, key), ValueOf(run.rounds[n - 1].xray, key);
    if Committed(run.outcomes[n - 1]) && v.Some? {
      RisesAppend(h, v.value);
    } else {
      assert h + [] == h;
    }
  }

  /** What one round's samples hold for a user is what the round adds to the rises of the user's two counters. */
  lemma AckOfRound(run: Run, n: nat, instance: string, user: string)
    requires AllAccounted(run) && 0 < n <= |run.rounds| && Part(instance) && Part(user)
    requires XrayWellFormed(run.rounds[n - 1].xray)
    ensures var o, k, state, r :=
            run.outcomes[n - 1], Key2(instance, user), run.states[n - 1].xray, run.rounds[n - 1].xray;
            && (o.Submitted? ==>
                  && RxOf(o.samples.xray, k) == DeltaAt(state, r, Key3(instance, user, "uplink"))
                  && TxOf(o.samples.xray, k) == DeltaAt(state, r, Key3(instance, user, "downlink")))
            && (o.NothingToSubmit? ==>
                  && 0 == DeltaAt(state, r, Key3(instance, user, "uplink"))
                  && 0 == DeltaAt(state, r, Key3(instance, user, "downlink")))
  {
    var state, r := run.states[n - 1].xray, run.rounds[n - 1].xray;
    assert AccountedAt(run, n - 1);
    AggregateAt(state, r, instance, user);
    SamplesAt(state, r, Key2(instance, user));
  }

  lemma XrayRound(run: Run, n: nat, instance: string, user: string)
    requires AllAccounted(run) && 0 < n <= |run.rounds| && Part(instance) && Part(user)
    requires XrayInput(run)
    ensures var k, up, down := Key2(instance, user), Key3(instance, user, "uplink"), Key3(instance, user, "downlink");
            var got, before := AckedXray(run, n, k), AckedXray(run, n - 1, k);
            && got.0 - before.0 == Rises(History(run, n, up)) - Rises(History(run, n - 1, up))
            && got.1 - before.1 == Rises(History(run, n, down)) - Rises(History(run, n - 1, down))
  {
    RiseOfRound(run, n, Key3(instance, user, "uplink"));
    RiseOfRound(run, n, Key3(instance, user, "downlink"));
    assert XrayWellFormedAt(run, n - 1);
    AckOfRound(run, n, instance, user);
  }

  /** Element `i` of both sequences grew by the same amounts. */
  predicate AlikeAt(a: seq<(int, int)>, b: seq<(int, int)>, i: nat)
    requires 0 < i < |a| == |b|
  {
    a[i].0 - a[i - 1].0 == b[i].0 - b[i - 1].0 && a[i].1 - a[i - 1].1 == b[i].1 - b[i - 1].1
  }

  /** Two sequences of sums that start equal and grow alike stay equal. */
  lemma {:induction false} GrowAlike(a: seq<(int, int)>, b: seq<(int, int)>, n: nat)
    requires n < |a| == |b| && a[0] == b[0]
    requires forall i :: 0 < i < |a| ==> AlikeAt(a, b, i)
    ensures a[n] == b[n]
  {
    if n > 0 {
      GrowAlike(a, b, n - 1);
      assert AlikeAt(a, b, n);
    }
  }

  /** The bytes acknowledged for a user after 0, 1, 2, ... rounds. */
  function XraySums(run: Run, k: string): (s: seq<(int, int)>)
    requires run.Shape()
    ensures |s| == |run.rounds| + 1 && forall i :: 0 <= i <= |run.rounds| ==> s[i] == AckedXray(run, i, k)
  {
    seq(|run.rounds| + 1, i requires 0 <= i <= |run.rounds| => AckedXray(run, i, k))
  }

  /** The rises of two counters after 0, 1, 2, ... rounds. */
  function RiseSums(run: Run, up: string, down: string): (s: seq<(int, int)>)
    requires run.Shape()
    ensures |s| == |run.rounds| + 1
    ensures forall i :: 0 <= i <= |run.rounds| ==> s[i] == (Rises(History(run, i, up)), Rises(History(run, i, down)))
  {
    seq(|run.rounds| + 1,
      i requires 0 <= i <= |run.rounds| => (Rises(History(run, i, up)), Rises(History(run, i, down))))
  }

  lemma SumsAlike(run: Run, n: nat, instance: string, user: string)
    requires AllAccounted(run) && 0 < n <= |run.rounds| && Part(instance) && Part(user) && XrayInput(run)
    ensures AlikeAt(XraySums(run, Key2(instance, user)),
                    RiseSums(run, Key3(instance, user, "uplink"), Key3(instance, user, "downlink")), n)
  {
    XrayRound(run, n, instance, user);
  }

  lemma XrayConserved(run: Run, instance: string, user: string)
    requires run.Shape()
    requires forall i :: 0 < i <= |run.rounds| ==>
               AlikeAt(XraySums(run, Key2(instance, user)),
                       RiseSums(run, Key3(instance, user, "uplink"), Key3(instance, user, "downlink")), i)
    ensures AckedXray(run, |run.rounds|, Key2(instance, user))
            == (Rises(History(run, |run.rounds|, Key3(instance, user, "uplink"))),
                Rises(History(run, |run.rounds|, Key3(instance, user, "downlink"))))
  {
    var a := XraySums(run, Key2(instance, user));
    var b := RiseSums(run, Key3(instance, user, "uplink"), Key3(instance, user, "downlink"));
    GrowAlike(a, b, |run.rounds|);
  }

  /** Conservation for Xray: the bytes acknowledged for a user are the rises of its uplink and downlink counters over
      their committed readings, however many submits fail in between. */
  lemma XrayConservation(run: Run, instance: string, user: string)
    requires run.Valid() && Part(instance) && Part(user)
    requires XrayInput(run)
    ensures AckedXray(run, |run.rounds|, Key2(instance, user))
            == (Rises(History(run, |run.rounds|, Key3(instance, user, "uplink"))),
                Rises(History(run, |run.rounds|, Key3(instance, user, "downlink"))))
  {
    RunAccounted(run);
    forall i | 0 < i <= |run.rounds|
      ensures AlikeAt(XraySums(run, Key2(instance, user)),
                      RiseSums(run, Key3(instance, user, "uplink"), Key3(instance, user, "downlink")), i)
    {
      SumsAlike(run, i, instance, user);
    }
    XrayConserved(run, instance, user);
  }

  // ---------------------------------------------------------------- pair counters

  datatype Collector = WireGuard | OpenVPN

  function CountersOf(c: Collector, st: State): Counters {
    if c == WireGuard then st.wireGuard else st.openVPN
  }

  function ReadingsOf(c: Collector, r: Round): seq<PairReading> {
    if c == WireGuard then r.wireGuard else r.openVPN
  }

  function SamplesOf(c: Collector, s: Samples): seq<Sample> {
    if c == WireGuard then s.wireGuard else s.openVPN
  }

  predicate PairsWellFormedAt(c: Collector, run: Run, i: nat)
    requires i < |run.rounds|
  {
    PairsWellFormed(ReadingsOf(c, run.rounds[i]))
  }

  /** Peers are distinct in each round and free of the separator. */
  predicate PairInput(c: Collector, run: Run) {
    forall i :: 0 <= i < |run.rounds| ==> PairsWellFormedAt(c, run, i)
  }

  function PairOf(readings: seq<PairReading>, instance: string, peer: string): Option<(int, int)> {
    if readings == [] then None
    else
      var r := readings[|readings| - 1];
      if r.instance == instance && r.peer == peer then Some((r.rx, r.tx))
      else PairOf(readings[..|readings| - 1], instance, peer)
  }

  /** The two baselines of a peer, when both exist. */
  function Baseline(state: Counters, instance: string, peer: string): Option<(int, int)> {
    var rx, tx := Key3(instance, peer, "rx"), Key3(instance, peer, "tx");
    if rx in state && tx in state then Some((state[rx], state[tx])) else None
  }

  function PairHistory(c: Collector, run: Run, n: nat, instance: string, peer: string): seq<(int, int)>
    requires run.Shape() && n <= |run.rounds|
  {
    if n == 0 then
      var b := Baseline(CountersOf(c, run.states[0]), instance, peer);
      if b.Some? then [b.value] else []
    else
      var v := PairOf(ReadingsOf(c, run.rounds[n - 1]), instance, peer);
      PairHistory(c, run, n - 1, instance, peer) + (if Committed(run.outcomes[n - 1]) && v.Some? then [v.value] else [])
  }

  /** The differences between two readings when neither counter fell, else nothing. */
  function PairRise(a: (int, int), b: (int, int)): (int, int) {
    if b.0 >= a.0 && b.1 >= a.1 then (b.0 - a.0, b.1 - a.1) else (0, 0)
  }

  function Plus(a: (int, int), b: (int, int)): (int, int) {
    (a.0 + b.0, a.1 + b.1)
  }

  function PairRises(h: seq<(int, int)>): (int, int) {
    if |h| <= 1 then (0, 0) else Plus(PairRises(h[..|h| - 1]), PairRise(h[|h| - 2], h[|h| - 1]))
  }

  /** The bytes in all samples for one peer. */
  function Total(samples: seq<Sample>, instance: string, peer: string): (int, int) {
    if samples == [] then (0, 0)
    else
      var s, before := samples[|samples| - 1], Total(samples[..|samples| - 1], instance, peer);
      if s.instance == instance && s.who == peer then Plus(before, (s.rx, s.tx)) else before
  }

  function AckedPair(c: Collector, run: Run, n: nat, instance: string, peer: string): (int, int)
    requires run.Shape() && n <= |run.rounds|
  {
    if n == 0 then (0, 0)
    else
      var before, o := AckedPair(c, run, n - 1, instance, peer), run.outcomes[n - 1];
      if o.Submitted? then Plus(before, Total(SamplesOf(c, o.samples), instance, peer)) else before
  }

  function PairDeltaAt(state: Counters, readings: seq<PairReading>, instance: string, peer: string): (int, int) {
    var v, b := PairOf(readings, instance, peer), Baseline(state, instance, peer);
    if v.Some? && b.Some? then PairRise(b.value, v.value) else (0, 0)
  }

  lemma {:induction false} PairOfAbsent(readings: seq<PairReading>, instance: string, peer: string)
    requires forall i :: 0 <= i < |readings| ==> !(readings[i].instance == instance && readings[i].peer == peer)
    ensures PairOf(readings, instance, peer) == None
    decreases |readings|
  {
    if readings != [] {
      PairOfAbsent(readings[..|readings| - 1], instance, peer);
    }
  }

  /** With distinct peers the last reading's peer has no earlier one. */
  lemma LastIsOnly(readings: seq<PairReading>)
    requires PairsWellFormed(readings) && readings != []
    ensures var front, r := readings[..|readings| - 1], readings[|readings| - 1];
            PairOf(front, r.instance, r.peer) == None
  {
    var front, r := readings[..|readings| - 1], readings[|readings| - 1];
    forall i | 0 <= i < |front|
      ensures !(front[i].instance == r.instance && front[i].peer == r.peer)
    {
      assert front[i] == readings[i];
    }
    PairOfAbsent(front, r.instance, r.peer);
  }

  lemma DeltaIsRise(state: Counters, r: PairReading)
    ensures var b := Baseline(state, r.instance, r.peer);
            PairDelta(state, r) == if b.Some? then PairRise(b.value, (r.rx, r.tx)) else (0, 0)
  {
  }

  lemma PairDeltaOfLast(state: Counters, readings: seq<PairReading>, instance: string, peer: string)
    requires PairsWellFormed(readings) && readings != []
    ensures var front, r := readings[..|readings| - 1], readings[|readings| - 1];
            PairDeltaAt(state, readings, instance, peer)
            == Plus(PairDeltaAt(state, front, instance, peer),
                    if r.instance == instance && r.peer == peer then PairDelta(state, r) else (0, 0))
  {
    var r := readings[|readings| - 1];
    if r.instance == instance && r.peer == peer {
      LastIsOnly(readings);
      DeltaIsRise(state, r);
      assert PairOf(readings, instance, peer) == Some((r.rx, r.tx));
    }
  }

  lemma TotalOfSamples(state: Counters, readings: seq<PairReading>, instance: string, peer: string)
    requires readings != []
    ensures var front, r := readings[..|readings| - 1], readings[|readings| - 1];
            Total(PairSamples(state, readings), instance, peer)
            == Plus(Total(PairSamples(state, front), instance, peer),
                    if r.instance == instance && r.peer == peer then PairDelta(state, r) else (0, 0))
  {
    var before, r := PairSamples(state, readings[..|readings| - 1]), readings[|readings| - 1];
    var d := PairDelta(state, r);
    if d == (0, 0) {
      assert PairSamples(state, readings) == before;
    } else {
      var s := Sample(r.instance, r.peer, d.0, d.1);
      assert PairSamples(state, readings) == before + [s];
      assert (before + [s])[..|before|] == before;
    }
  }

  lemma {:induction false} PairSamplesAt(state: Counters, readings: seq<PairReading>, instance: string, peer: string)
    requires PairsWellFormed(readings)
    ensures Total(PairSamples(state, readings), instance, peer) == PairDeltaAt(state, readings, instance, peer)
    decreases |readings|
  {
    if readings != [] {
      PairSamplesAt(state, readings[..|readings| - 1], instance, peer);
      TotalOfSamples(state, readings, instance, peer);
      PairDeltaOfLast(state, readings, instance, peer);
    }
  }

  lemma {:induction false} PairCommitAt(state: Counters, readings: seq<PairReading>, instance: string, peer: string)
    requires PairsWellFormed(readings) && Part(instance) && Part(peer)
    ensures var v := PairOf(readings, instance, peer);
            Baseline(PairCommit(state, readings), instance, peer) == if v.Some? then v
              else Baseline(state, instance, peer)
    decreases |readings|
  {
    if readings != [] {
      var front, r := readings[..|readings| - 1], readings[|readings| - 1];
      PairCommitAt(state, front, instance, peer);
      KeysInjective(r.instance, r.peer, "rx", instance, peer, "rx");
      KeysInjective(r.instance, r.peer, "tx", instance, peer, "tx");
      KeysInjective(r.instance, r.peer, "rx", instance, peer, "tx");
      KeysInjective(r.instance, r.peer, "tx", instance, peer, "rx");
    }
  }

  lemma {:induction false} PairBaselineIsLast(c: Collector, run: Run, n: nat, instance: string, peer: string)
    requires AllAccounted(run) && n <= |run.rounds| && Part(instance) && Part(peer)
    requires PairInput(c, run)
    ensures var h := PairHistory(c, run, n, instance, peer);
            Baseline(CountersOf(c, run.states[n]), instance, peer) == if h == [] then None else Some(h[|h| - 1])
    decreases n
  {
    if n > 0 {
      PairBaselineIsLast(c, run, n - 1, instance, peer);
      assert AccountedAt(run, n - 1) && PairsWellFormedAt(c, run, n - 1);
      PairCommitAt(CountersOf(c, run.states[n - 1]), ReadingsOf(c, run.rounds[n - 1]), instance, peer);
    }
  }

  lemma PairRisesAppend(h: seq<(int, int)>, v: (int, int))
    ensures PairRises(h + [v]) == if h == [] then (0, 0) else Plus(PairRises(h), PairRise(h[|h| - 1], v))
  {
    assert (h + [v])[..|h|] == h;
  }

  lemma PairAckOfRound(c: Collector, run: Run, n: nat, instance: string, peer: string)
    requires AllAccounted(run) && 0 < n <= |run.rounds| && PairInput(c, run)
    ensures var o, d := run.outcomes[n - 1],
                        PairDeltaAt(CountersOf(c, run.states[n - 1]), ReadingsOf(c, run.rounds[n - 1]), instance, peer);
            && (o.Submitted? ==> Total(SamplesOf(c, o.samples), instance, peer) == d)
            && (o.NothingToSubmit? ==> d == (0, 0))
  {
    assert AccountedAt(run, n - 1) && PairsWellFormedAt(c, run, n - 1);
    PairSamplesAt(CountersOf(c, run.states[n - 1]), ReadingsOf(c, run.rounds[n - 1]), instance, peer);
  }

  lemma PairRound(c: Collector, run: Run, n: nat, instance: string, peer: string)
    requires AllAccounted(run) && 0 < n <= |run.rounds| && Part(instance) && Part(peer)
    requires PairInput(c, run)
    ensures var now, before :=
            PairRises(PairHistory(c, run, n, instance, peer)), PairRises(PairHistory(c, run, n - 1, instance, peer));
            var d := PairDeltaAt(CountersOf(c, run.states[n - 1]), ReadingsOf(c, run.rounds[n - 1]), instance, peer);
            now == if Committed(run.outcomes[n - 1]) then Plus(before, d) else before
  {
    PairBaselineIsLast(c, run, n - 1, instance, peer);
    var h, v := PairHistory(c, run, n - 1, instance, peer), PairOf(ReadingsOf(c, run.rounds[n - 1]), instance, peer);
    if Committed(run.outcomes[n - 1]) && v.Some? {
      PairRisesAppend(h, v.value);
    } else {
      assert h + [] == h;
    }
  }

  /** What round `n` acknowledges for a peer. */
  function AckedIn(c: Collector, run: Run, n: nat, instance: string, peer: string): (int, int)
    requires run.Shape() && 0 < n <= |run.rounds|
  {
    var o := run.outcomes[n - 1];
    if o.Submitted? then Total(SamplesOf(c, o.samples), instance, peer) else (0, 0)
  }

  /** Round `n` adds to the rises what it acknowledges. */
  predicate GrowsAt(c: Collector, run: Run, n: nat, instance: string, peer: string)
    requires run.Shape() && 0 < n <= |run.rounds|
  {
    PairRises(PairHistory(c, run, n, instance, peer))
    == Plus(PairRises(PairHistory(c, run, n - 1, instance, peer)), AckedIn(c, run, n, instance, peer))
  }

  lemma PairGrows(c: Collector, run: Run, n: nat, instance: string, peer: string)
    requires AllAccounted(run) && 0 < n <= |run.rounds| && Part(instance) && Part(peer)
    requires PairInput(c, run)
    ensures GrowsAt(c, run, n, instance, peer)
  {
    PairRound(c, run, n, instance, peer);
    PairAckOfRound(c, run, n, instance, peer);
  }

  /** The bytes acknowledged for a peer after 0, 1, 2, ... rounds. */
  function PairSums(c: Collector, run: Run, instance: string, peer: string): (s: seq<(int, int)>)
    requires run.Shape()
    ensures |s| == |run.rounds| + 1
    ensures forall i :: 0 <= i <= |run.rounds| ==> s[i] == AckedPair(c, run, i, instance, peer)
  {
    seq(|run.rounds| + 1, i requires 0 <= i <= |run.rounds| => AckedPair(c, run, i, instance, peer))
  }

  /** The rises of a peer's two counters after 0, 1, 2, ... rounds. */
  function PairRiseSums(c: Collector, run: Run, instance: string, peer: string): (s: seq<(int, int)>)
    requires run.Shape()
    ensures |s| == |run.rounds| + 1
    ensures forall i :: 0 <= i <= |run.rounds| ==> s[i] == PairRises(PairHistory(c, run, i, instance, peer))
  {
    seq(|run.rounds| + 1, i requires 0 <= i <= |run.rounds| => PairRises(PairHistory(c, run, i, instance, peer)))
  }

  lemma AckedGrows(c: Collector, run: Run, n: nat, instance: string, peer: string)
    requires run.Shape() && 0 < n <= |run.rounds|
    ensures AckedPair(c, run, n, instance, peer)
            == Plus(AckedPair(c, run, n - 1, instance, peer), AckedIn(c, run, n, instance, peer))
  {
  }

  lemma PairSumsAlike(c: Collector, run: Run, n: nat, instance: string, peer: string)
    requires run.Shape() && 0 < n <= |run.rounds| && GrowsAt(c, run, n, instance, peer)
    ensures AlikeAt(PairSums(c, run, instance, peer), PairRiseSums(c, run, instance, peer), n)
  {
    AckedGrows(c, run, n, instance, peer);
  }

  lemma PairConserved(c: Collector, run: Run, instance: string, peer: string)
    requires run.Shape()
    requires forall i :: 0 < i <= |run.rounds| ==>
               AlikeAt(PairSums(c, run, instance, peer), PairRiseSums(c, run, instance, peer), i)
    ensures AckedPair(c, run, |run.rounds|, instance, peer)
            == PairRises(PairHistory(c, run, |run.rounds|, instance, peer))
  {
    GrowAlike(PairSums(c, run, instance, peer), PairRiseSums(c, run, instance, peer), |run.rounds|);
  }

  /** Conservation for WireGuard and OpenVPN: the bytes acknowledged for a peer are the (rx, tx) differences between
      its consecutive committed readings, counted only where neither fell. */
  lemma PairConservation(c: Collector, run: Run, instance: string, peer: string)
    requires run.Valid() && Part(instance) && Part(peer)
    requires PairInput(c, run)
    ensures AckedPair(c, run, |run.rounds|, instance, peer)
            == PairRises(PairHistory(c, run, |run.rounds|, instance, peer))
  {
    RunAccounted(run);
    forall i | 0 < i <= |run.rounds|
      ensures AlikeAt(PairSums(c, run, instance, peer), PairRiseSums(c, run, instance, peer), i)
    {
      PairGrows(c, run, i, instance, peer);
      PairSumsAlike(c, run, i, instance, peer);
    }
    PairConserved(c, run, instance, peer);
  }

  // ---------------------------------------------------------------- time buckets

  /** What bucket order needs to know about one round. */
  predicate Timed(st: State, st': State, o: Outcome) {
    && (st.last.Some? ==> st'.last.Some? && st'.last.value >= st.last.value)
    && (o.Submitted? ==>
          && st'.last == Some(o.end) && o.end - o.start >= Normal(st).interval > 0
          && (st.last.Some? ==> o.start == st.last.value))
  }

  predicate TimedAt(run: Run, i: nat)
    requires run.Shape() && i < |run.rounds|
  {
    Timed(run.states[i], run.states[i + 1], run.outcomes[i])
  }

  lemma StepTimed(st: State, r: Round)
    ensures Timed(st, Step(st, r).0, Step(st, r).1)
  {
  }

  lemma {:induction false} LastReportGrows(run: Run, i: nat, n: nat)
    requires run.Shape() && forall k :: 0 <= k < |run.rounds| ==> TimedAt(run, k)
    requires i < n <= |run.rounds| && run.outcomes[i].Submitted?
    ensures run.states[n].last.Some? && run.states[n].last.value >= run.outcomes[i].end
    decreases n
  {
    assert TimedAt(run, n - 1);
    if n > i + 1 {
      LastReportGrows(run, i, n - 1);
    }
  }

  /** Acknowledged buckets never overlap and are each at least one interval long, whatever the clock does. */
  lemma BucketsInOrder(run: Run, i: nat, j: nat)
    requires run.Valid() && i < j < |run.rounds| && run.outcomes[i].Submitted? && run.outcomes[j].Submitted?
    ensures var a, b := run.outcomes[i], run.outcomes[j];
            && a.end <= b.start
            && a.end - a.start >= Normal(run.states[i]).interval > 0
            && b.end - b.start >= Normal(run.states[j]).interval > 0
  {
    forall k | 0 <= k < |run.rounds|
      ensures TimedAt(run, k)
    {
      assert run.StepAt(k);
      StepTimed(run.states[k], run.rounds[k]);
    }
    LastReportGrows(run, i, j);
    assert TimedAt(run, i) && TimedAt(run, j);
  }

  // ---------------------------------------------------------------- retried buckets

  /** The round moved the report time: it submitted, had nothing to submit, or its collectors failed with nothing
      read. */
  predicate Moves(o: Outcome) {
    o.Submitted? || o.NothingToSubmit? || o.NothingCollected?
  }

  predicate Attempt(o: Outcome) {
    o.Submitted? || o.SubmitFailed?
  }

  /** No round from `i` up to `j` moved the report time. */
  predicate Still(run: Run, i: nat, j: nat)
    requires run.Shape() && j <= |run.rounds|
  {
    forall k :: i <= k < j ==> !Moves(run.outcomes[k])
  }

  lemma StepMoves(st: State, r: Round)
    ensures var (next, o) := Step(st, r);
            && (if Moves(o) then next.last == Some(r.now) && (st.last.Some? ==> r.now > st.last.value)
               else next == Normal(st))
            && (Attempt(o) ==> o.start == if st.last.Some? then st.last.value else r.now - Normal(st).interval)
  {
  }

  lemma {:induction false} StillStays(run: Run, i: nat, j: nat)
    requires run.Valid() && i <= j <= |run.rounds| && Still(run, i, j)
    ensures Normal(run.states[j]) == Normal(run.states[i])
    decreases j
  {
    if i < j {
      StillStays(run, i, j - 1);
      assert run.StepAt(j - 1);
      StepMoves(run.states[j - 1], run.rounds[j - 1]);
    }
  }

  /** After a round that moved the report time it stays at that round's time or later. */
  lemma {:induction false} MovedStays(run: Run, k: nat, j: nat)
    requires run.Valid() && k < j <= |run.rounds| && Moves(run.outcomes[k])
    ensures run.states[j].last.Some? && run.states[j].last.value >= run.rounds[k].now
    decreases j
  {
    assert run.StepAt(j - 1);
    StepMoves(run.states[j - 1], run.rounds[j - 1]);
    if k < j - 1 {
      MovedStays(run, k, j - 1);
    }
  }

  lemma {:induction false} ReportTimeGrows(run: Run, i: nat, j: nat)
    requires run.Valid() && i <= j <= |run.rounds| && run.states[i].last.Some?
    ensures run.states[j].last.Some? && run.states[j].last.value >= run.states[i].last.value
    ensures !Still(run, i, j) ==> run.states[j].last.value > run.states[i].last.value
    decreases j
  {
    if i < j {
      ReportTimeGrows(run, i, j - 1);
      assert run.StepAt(j - 1);
      StepMoves(run.states[j - 1], run.rounds[j - 1]);
    }
  }

  predicate ClockRises(run: Run) {
    forall i, j :: 0 <= i < j < |run.rounds| ==> run.rounds[i].now <= run.rounds[j].now
  }

  /** Over any run: where a report time existed, a later attempt's bucket starts where a failed one's did if and only
      if no round in between moved the report time, and otherwise later.  Without a report time the first bucket hangs
      on the clock: undisturbed, it starts at the same time if and only if the clock stood still. */
  lemma FailedBucketIsRetried(run: Run, i: nat, j: nat)
    requires run.Valid() && i < j < |run.rounds| && run.outcomes[i].SubmitFailed? && Attempt(run.outcomes[j])
    ensures var a, b, still := run.outcomes[i].start, run.outcomes[j].start, Still(run, i, j);
            && (run.states[i].last.Some? ==> (b == a <==> still) && b >= a)
            && (run.states[i].last.None? && still ==> (b == a <==> run.rounds[j].now == run.rounds[i].now))
            && (run.states[i].last.None? && !still && ClockRises(run) ==> b > a)
            && (still ==> SameCounters(run.states[j], run.states[i]))
  {
    assert run.StepAt(i) && run.StepAt(j);
    StepMoves(run.states[i], run.rounds[i]);
    StepMoves(run.states[j], run.rounds[j]);
    if Still(run, i, j) {
      StillStays(run, i, j);
    } else {
      var k :| i <= k < j && Moves(run.outcomes[k]);
      MovedStays(run, k, j);
    }
    if run.states[i].last.Some? {
      ReportTimeGrows(run, i, j);
    }
  }

  /** A failing run: after any failed submit, one round whose collectors fail moves the report time without a commit,
      so the bytes measured before it are acknowledged in a bucket that starts after they were measured. */
  lemma EmptyRoundShiftsBytes(st: State, r: Round)
    requires st.last.Some? && Step(st, r).1.SubmitFailed?
    ensures var lost := Round(r.now, true, [], [], [], true, true);
            var again := r.(now := r.now + Normal(st).interval, submitSucceeds := true);
            var a, b := Step(st, r).0, Step(Step(st, r).0, lost).0;
            var run := Run([st, a, b, Step(b, again).0], [r, lost, again],
              [Step(st, r).1, Step(a, lost).1, Step(b, again).1]);
            && run.Valid() && run.outcomes[1].NothingCollected?
            && run.outcomes[0].start == st.last.value < r.now
            && run.outcomes[2] == Submitted(r.now, again.now, Collect(st, r))
  {
    var lost := Round(r.now, true, [], [], [], true, true);
    var again := r.(now := r.now + Normal(st).interval, submitSucceeds := true);
    var a := Step(st, r).0;
    assert a == Normal(st);
    var b := Step(a, lost).0;
    assert b == a.(last := Some(r.now)) && Step(a, lost).1 == NothingCollected;
    assert Collect(b, again) == Collect(st, r);
    var run := Run([st, a, b, Step(b, again).0], [r, lost, again], [Step(st, r).1, Step(a, lost).1, Step(b, again).1]);
    assert run.StepAt(0) && run.StepAt(1) && run.StepAt(2);
  }
}
