/** Traffic accounting: `reportTrafficAccounting`, the sample builders, the commit functions and the counter keys.
    WireGuard and OpenVPN run the same code on different maps and are modelled once as pair counters. */
module Traffic {
  import opened Common
  import opened Text

  // ---------------------------------------------------------------- counter keys

  const SEP := '\U{1F}'

  function Key2(a: string, b: string): string {
    a + [SEP] + b
  }

  function Key3(a: string, b: string, c: string): string {
    a + [SEP] + b + [SEP] + c
  }

  predicate Part(s: string) {
    SEP !in s
  }

  lemma Key3Parts(a: string, b: string, c: string)
    requires Part(a) && Part(b) && Part(c)
    ensures Split(Key3(a, b, c), SEP) == [a, b, c]
    ensures Split(Key2(a, b), SEP) == [a, b]
  {
    SplitWhole(a, SEP);
    SplitWhole(b, SEP);
    SplitWhole(c, SEP);
    SplitAppend(a, b, SEP);
    SplitAppend(a + [SEP] + b, c, SEP);
  }

  /** Keys are injective on parts without the separator. */
  lemma KeysInjective(a: string, b: string, c: string, x: string, y: string, z: string)
    requires Part(a) && Part(b) && Part(c) && Part(x) && Part(y) && Part(z)
    ensures Key3(a, b, c) == Key3(x, y, z) <==> a == x && b == y && c == z
    ensures Key2(a, b) == Key2(x, y) <==> a == x && b == y
  {
    Key3Parts(a, b, c);
    Key3Parts(x, y, z);
    if Key2(a, b) == Key2(x, y) {
      assert [a, b][0] == [x, y][0] && [a, b][1] == [x, y][1];
    }
    if Key3(a, b, c) == Key3(x, y, z) {
      assert [a, b, c][0] == [x, y, z][0] && [a, b, c][1] == [x, y, z][1] && [a, b, c][2] == [x, y, z][2];
    }
  }

  /** With the separator inside a part, different parts can share a key. */
  lemma KeysCollide(a: string, b: string, c: string)
    requires b != ""
    ensures Key2(a + [SEP] + b, c) == Key2(a, b + [SEP] + c) && a + [SEP] + b != a
  {
    assert Key2(a + [SEP] + b, c) == Key2(a, b + [SEP] + c);
    assert |a + [SEP] + b| > |a|;
  }

  // ---------------------------------------------------------------- readings, samples and state

  type Counters = map<string, int>

  datatype XrayReading = XrayReading(instance: string, user: string, direction: string, value: int) {
    function Key(): string {
      Key3(instance, user, direction)
    }
  }

  /** One peer of a pair counter: a WireGuard public key or an OpenVPN common name. */
  datatype PairReading = PairReading(instance: string, peer: string, rx: int, tx: int) {
    function RxKey(): string {
      Key3(instance, peer, "rx")
    }

    function TxKey(): string {
      Key3(instance, peer, "tx")
    }
  }

  /** A submitted sample: an Xray user or a peer of an instance, with the bytes of one bucket. */
  datatype Sample = Sample(instance: string, who: string, rx: int, tx: int)

  datatype Samples = Samples(xray: map<string, Sample>, wireGuard: seq<Sample>, openVPN: seq<Sample>)

  datatype State = State(xray: Counters, wireGuard: Counters, openVPN: Counters, last: Option<int>, interval: int)

  /** The bytes a reading adds over the recorded baseline; nothing without a baseline or after a fall. */
  function Delta(state: Counters, r: XrayReading): int {
    if r.Key() in state && r.value > state[r.Key()] then r.value - state[r.Key()] else 0
  }

  function AddDelta(s: Sample, r: XrayReading, delta: int): Sample {
    if r.direction == "uplink" then Sample(r.instance, r.user, s.rx + delta, s.tx)
    else Sample(r.instance, r.user, s.rx, s.tx + delta)
  }

  function XrayAggregates(state: Counters, readings: seq<XrayReading>): map<string, Sample> {
    if readings == [] then map[]
    else
      var r, before := readings[|readings| - 1], XrayAggregates(state, readings[..|readings| - 1]);
      if Delta(state, r) == 0 then before
      else
        var k := Key2(r.instance, r.user);
        before[k := AddDelta(if k in before then before[k] else Sample("", "", 0, 0), r, Delta(state, r))]
  }

  /** Aggregates without bytes are not submitted. */
  function XraySamples(state: Counters, readings: seq<XrayReading>): map<string, Sample> {
    var all := XrayAggregates(state, readings);
    map k | k in all && !(all[k].rx == 0 && all[k].tx == 0) :: all[k]
  }

  function XrayCommit(state: Counters, readings: seq<XrayReading>): Counters {
    if readings == [] then state
    else
      var r := readings[|readings| - 1];
      XrayCommit(state, readings[..|readings| - 1])[r.Key() := r.value]
  }

  /** The bytes a pair reading adds: nothing unless both baselines exist and neither counter fell. */
  function PairDelta(state: Counters, r: PairReading): (int, int) {
    if r.RxKey() in state && r.TxKey() in state && r.rx >= state[r.RxKey()] && r.tx >= state[r.TxKey()]
    then (r.rx - state[r.RxKey()], r.tx - state[r.TxKey()])
    else (0, 0)
  }

  function PairSamples(state: Counters, readings: seq<PairReading>): seq<Sample> {
    if readings == [] then []
    else
      var r := readings[|readings| - 1];
      PairSamples(state, readings[..|readings| - 1])
      + (if PairDelta(state, r) == (0, 0) then []
        else [Sample(r.instance, r.peer, PairDelta(state, r).0, PairDelta(state, r).1)])
  }

  function PairCommit(state: Counters, readings: seq<PairReading>): Counters {
    if readings == [] then state
    else
      var r := readings[|readings| - 1];
      PairCommit(state, readings[..|readings| - 1])[r.RxKey() := r.rx][r.TxKey() := r.tx]
  }

  /** One call of `reportTrafficAccounting`: the clock, what the collectors returned and whether the calls to the
      control plane succeeded. */
  datatype Round = Round(now: int, targetsListed: bool, xray: seq<XrayReading>, wireGuard: seq<PairReading>,
                         openVPN: seq<PairReading>, collectorFailed: bool, submitSucceeds: bool)

  datatype Outcome =
    | TooEarly
    | NoTargets
    | NothingCollected
    | NothingToSubmit
    | SubmitFailed(start: int)
    | Submitted(start: int, end: int, samples: Samples)

  function Normal(st: State): State {
    if st.interval <= 0 then st.(interval := 60_000_000_000) else st
  }

  function Commit(st: State, r: Round): State {
    st.(xray := XrayCommit(st.xray, r.xray), wireGuard := PairCommit(st.wireGuard, r.wireGuard),
        openVPN := PairCommit(st.openVPN, r.openVPN), last := Some(r.now))
  }

  function Collect(st: State, r: Round): Samples {
    Samples(XraySamples(st.xray, r.xray), PairSamples(st.wireGuard, r.wireGuard), PairSamples(st.openVPN, r.openVPN))
  }

  predicate Empty(s: Samples) {
    s.xray == map[] && s.wireGuard == [] && s.openVPN == []
  }

  function Step(st0: State, r: Round): (State, Outcome) {
    var st := Normal(st0);
    if st.last.Some? && r.now - st.last.value < st.interval then (st, TooEarly)
    else if !r.targetsListed then (st, NoTargets)
    else if r.collectorFailed && r.xray == [] && r.wireGuard == [] && r.openVPN == [] then
      (st.(last := Some(r.now)), NothingCollected)
    else
      var start := if st.last.Some? then st.last.value else r.now - st.interval;
      var samples := Collect(st, r);
      if Empty(samples) then (Commit(st, r), NothingToSubmit)
      else if !r.submitSucceeds then (st, SubmitFailed(start))
      else (Commit(st, r), Submitted(start, r.now, samples))
  }

  // ---------------------------------------------------------------- the client object

  class Client {
    var xray: Counters
    var wireGuard: Counters
    var openVPN: Counters
    var last: Option<int>
    var interval: int

    function Abs(): State
      reads this
    {
      State(xray, wireGuard, openVPN, last, interval)
    }

    constructor (interval: int)
      ensures Abs() == State(map[], map[], map[], None, interval)
    {
      this.interval := interval;
      xray, wireGuard, openVPN, last := map[], map[], map[], None;
    }

    /** `xrayTrafficAccountingSamples` */
    method BuildXraySamples(readings: seq<XrayReading>) returns (samples: map<string, Sample>)
      ensures samples == XraySamples(xray, readings)
    {
      var aggregates: map<string, Sample> := map[];
      assert readings[..0] == [];
      for i := 0 to |readings|
        invariant aggregates == XrayAggregates(xray, readings[..i])
      {
        var reading := readings[i];
        assert readings[..i + 1][..i] == readings[..i];
        var key := reading.Key();
        if key !in xray || reading.value < xray[key] {
          continue;
        }
        var delta := reading.value - xray[key];
        if delta <= 0 {
          continue;
        }
        var aggregateKey := Key2(reading.instance, reading.user);
        var aggregate := if aggregateKey in aggregates then aggregates[aggregateKey] else Sample("", "", 0, 0);
        aggregate := aggregate.(instance := reading.instance, who := reading.user);
        if reading.direction == "uplink" {
          aggregate := aggregate.(rx := aggregate.rx + delta);
        } else {
          aggregate := aggregate.(tx := aggregate.tx + delta);
        }
        aggregates := aggregates[aggregateKey := aggregate];
      }
      assert readings[..|readings|] == readings;
      samples := map k | k in aggregates && !(aggregates[k].rx == 0 && aggregates[k].tx == 0) :: aggregates[k];
    }

    /** `commitXrayTrafficReadings` */
    method CommitXray(readings: seq<XrayReading>)
      modifies this`xray
      ensures xray == XrayCommit(old(xray), readings)
    {
      assert readings[..0] == [];
      for i := 0 to |readings|
        invariant xray == XrayCommit(old(xray), readings[..i])
      {
        assert readings[..i + 1][..i] == readings[..i];
        xray := xray[readings[i].Key() := readings[i].value];
      }
      assert readings[..|readings|] == readings;
    }

    /** `wireGuardTrafficAccountingSamples` and `openVPNTrafficAccountingSamples` */
    static method BuildPairSamples(state: Counters, readings: seq<PairReading>) returns (samples: seq<Sample>)
      ensures samples == PairSamples(state, readings)
    {
      samples := [];
      assert readings[..0] == [];
      for i := 0 to |readings|
        invariant samples == PairSamples(state, readings[..i])
      {
        var reading := readings[i];
        assert readings[..i + 1][..i] == readings[..i];
        var rxKey, txKey := reading.RxKey(), reading.TxKey();
        if rxKey !in state || txKey !in state || reading.rx < state[rxKey] || reading.tx < state[txKey] {
          continue;
        }
        var deltaRx, deltaTx := reading.rx - state[rxKey], reading.tx - state[txKey];
        if deltaRx <= 0 && deltaTx <= 0 {
          continue;
        }
        samples := samples + [Sample(reading.instance, reading.peer, deltaRx, deltaTx)];
      }
      assert readings[..|readings|] == readings;
    }

    /** `commitWireGuardTrafficReadings` and `commitOpenVPNTrafficReadings` */
    static method CommitPairs(state: Counters, readings: seq<PairReading>) returns (out: Counters)
      ensures out == PairCommit(state, readings)
    {
      out := state;
      assert readings[..0] == [];
      for i := 0 to |readings|
        invariant out == PairCommit(state, readings[..i])
      {
        assert readings[..i + 1][..i] == readings[..i];
        out := out[readings[i].RxKey() := readings[i].rx];
        out := out[readings[i].TxKey() := readings[i].tx];
      }
      assert readings[..|readings|] == readings;
    }

    method CollectAll(r: Round) returns (samples: Samples)
      ensures samples == Collect(Abs(), r)
    {
      var x := BuildXraySamples(r.xray);
      var w := BuildPairSamples(wireGuard, r.wireGuard);
      var o := BuildPairSamples(openVPN, r.openVPN);
      return Samples(x, w, o);
    }

    method CommitAll(r: Round)
      modifies this
      ensures Abs() == Commit(old(Abs()), r)
    {
      CommitXray(r.xray);
      wireGuard := CommitPairs(wireGuard, r.wireGuard);
      openVPN := CommitPairs(openVPN, r.openVPN);
      last := Some(r.now);
    }

    /** `reportTrafficAccounting` */
    method Report(r: Round) returns (outcome: Outcome)
      modifies this
      ensures Abs() == Step(old(Abs()), r).0
      ensures outcome == Step(old(Abs()), r).1
    {
      if interval <= 0 {
        interval := 60_000_000_000;
      }
      assert Abs() == Normal(old(Abs()));
      if last.Some? && r.now - last.value < interval {
        return TooEarly;
      }
      if !r.targetsListed {
        return NoTargets;
      }
      if r.collectorFailed && |r.xray| == 0 && |r.wireGuard| == 0 && |r.openVPN| == 0 {
        last := Some(r.now);
        return NothingCollected;
      }
      var start := if last.Some? then last.value else r.now - interval;
      var samples := CollectAll(r);
      if Empty(samples) {
        CommitAll(r);
        return NothingToSubmit;
      }
      if !r.submitSucceeds {
        return SubmitFailed(start);
      }
      CommitAll(r);
      return Submitted(start, r.now, samples);
    }
  }
}
