/** Progress beside conservation: when each round of a run submits, and what a round that does leaves behind. */
module TrafficProgress {
  import opened Common
  import opened Traffic
  import opened TrafficRuns

  // ---------------------------------------------------------------- what a round finds

  /** One minute, in nanoseconds. */
  const MINUTE := 60_000_000_000

  /** A full interval has passed since the last report; an interval that is not positive counts as a minute. */
  predicate Due(st: State, r: Round) {
    st.last.Some? ==> r.now - st.last.value >= if st.interval <= 0 then MINUTE else st.interval
  }

  predicate SomethingRead(r: Round) {
    r.xray != [] || r.wireGuard != [] || r.openVPN != []
  }

  /** A collector returned something, or none of them failed. */
  predicate Collected(r: Round) {
    SomethingRead(r) || !r.collectorFailed
  }

  predicate XrayRose(state: Counters, readings: seq<XrayReading>) {
    exists i :: 0 <= i < |readings| && readings[i].Key() in state && readings[i].value > state[readings[i].Key()]
  }

  /** Both baselines exist, neither counter fell and one rose. */
  predicate Rose(state: Counters, r: PairReading) {
    && r.RxKey() in state && r.TxKey() in state && r.rx >= state[r.RxKey()] && r.tx >= state[r.TxKey()]
    && (r.rx > state[r.RxKey()] || r.tx > state[r.TxKey()])
  }

  predicate PairsRose(state: Counters, readings: seq<PairReading>) {
    exists i :: 0 <= i < |readings| && Rose(state, readings[i])
  }

  predicate SomethingRose(st: State, r: Round) {
    XrayRose(st.xray, r.xray) || PairsRose(st.wireGuard, r.wireGuard) || PairsRose(st.openVPN, r.openVPN)
  }

  // ---------------------------------------------------------------- when samples are empty

  predicate AllPositive(aggregates: map<string, Sample>) {
    forall k :: k in aggregates ==>
      aggregates[k].rx >= 0 && aggregates[k].tx >= 0 && aggregates[k].rx + aggregates[k].tx > 0
  }

  lemma {:induction false} AggregatesIff(state: Counters, readings: seq<XrayReading>)
    ensures AllPositive(XrayAggregates(state, readings))
    ensures XrayAggregates(state, readings) == map[] <==> !XrayRose(state, readings)
  {
    if readings != [] {
      var front, r := readings[..|readings| - 1], readings[|readings| - 1];
      AggregatesIff(state, front);
      assert forall i :: 0 <= i < |front| ==> front[i] == readings[i];
      assert Delta(state, r) > 0 <==> r.Key() in state && r.value > state[r.Key()];
      var all := XrayAggregates(state, readings);
      if Delta(state, r) != 0 {
        assert Key2(r.instance, r.user) in all;
      }
    }
  }

  lemma XraySamplesIff(state: Counters, readings: seq<XrayReading>)
    ensures XraySamples(state, readings) == map[] <==> !XrayRose(state, readings)
  {
    AggregatesIff(state, readings);
    var all := XrayAggregates(state, readings);
    assert XraySamples(state, readings) == all;
  }

  lemma {:induction false} PairSamplesIff(state: Counters, readings: seq<PairReading>)
    ensures PairSamples(state, readings) == [] <==> !PairsRose(state, readings)
  {
    if readings != [] {
      var front, r := readings[..|readings| - 1], readings[|readings| - 1];
      PairSamplesIff(state, front);
      assert forall i :: 0 <= i < |front| ==> front[i] == readings[i];
      assert PairDelta(state, r) == (0, 0) <==> !Rose(state, r);
    }
  }

  /** There is nothing to submit if and only if no counter rose. */
  lemma EmptyIff(st: State, r: Round)
    ensures Empty(Collect(st, r)) <==> !SomethingRose(st, r)
  {
    XraySamplesIff(st.xray, r.xray);
    PairSamplesIff(st.wireGuard, r.wireGuard);
    PairSamplesIff(st.openVPN, r.openVPN);
  }

  // ---------------------------------------------------------------- the outcome of every round

  /** How a round must end. */
  predicate Decided(st: State, r: Round, o: Outcome) {
    && (o.TooEarly? <==> !Due(st, r))
    && (o.NoTargets? <==> Due(st, r) && !r.targetsListed)
    && (o.NothingCollected? <==> Due(st, r) && r.targetsListed && !Collected(r))
    && (o.NothingToSubmit? <==> Due(st, r) && r.targetsListed && Collected(r) && !SomethingRose(st, r))
    && (o.SubmitFailed? <==> Due(st, r) && r.targetsListed && SomethingRose(st, r) && !r.submitSucceeds)
    && (o.Submitted? <==> Due(st, r) && r.targetsListed && SomethingRose(st, r) && r.submitSucceeds)
  }

  /** What a round changes: the report time by every outcome that moves it, the counters by every commit. */
  predicate Changed(st: State, r: Round, next: State, o: Outcome) {
    && next.interval == (if st.interval <= 0 then MINUTE else st.interval)
    && next.last == (if Moves(o) then Some(r.now) else st.last)
    && (!Committed(o) ==> SameCounters(next, st))
  }

  lemma StepDecided(st: State, r: Round)
    ensures Decided(st, r, Step(st, r).1)
  {
    EmptyIff(st, r);
    assert Collect(Normal(st), r) == Collect(st, r);
  }

  lemma StepChanged(st: State, r: Round)
    ensures Changed(st, r, Step(st, r).0, Step(st, r).1)
  {
  }

  /** Every round of every run: it is skipped only before a full interval has passed or without targets, gives up only
      when the collectors failed with nothing read, and otherwise submits exactly when a counter rose. */
  lemma RoundDecided(run: Run, i: nat)
    requires run.Valid() && i < |run.rounds|
    ensures Decided(run.states[i], run.rounds[i], run.outcomes[i])
    ensures Changed(run.states[i], run.rounds[i], run.states[i + 1], run.outcomes[i])
  {
    assert run.StepAt(i);
    StepDecided(run.states[i], run.rounds[i]);
    StepChanged(run.states[i], run.rounds[i]);
  }

  // ---------------------------------------------------------------- readings become baselines

  lemma {:induction false} ValueOfReading(readings: seq<XrayReading>, j: nat)
    requires XrayWellFormed(readings) && j < |readings|
    ensures ValueOf(readings, readings[j].Key()) == Some(readings[j].value)
  {
    var front, r := readings[..|readings| - 1], readings[|readings| - 1];
    if j < |front| {
      assert front[j] == readings[j] && r.Key() != readings[j].Key();
      assert XrayWellFormed(front) by {
        assert forall i :: 0 <= i < |front| ==> front[i] == readings[i];
      }
      ValueOfReading(front, j);
    }
  }

  lemma {:induction false} PairOfReading(readings: seq<PairReading>, j: nat)
    requires PairsWellFormed(readings) && j < |readings|
    ensures PairOf(readings, readings[j].instance, readings[j].peer) == Some((readings[j].rx, readings[j].tx))
  {
    var front, r := readings[..|readings| - 1], readings[|readings| - 1];
    if j < |front| {
      assert front[j] == readings[j];
      assert !(readings[j].instance == r.instance && readings[j].peer == r.peer);
      assert PairsWellFormed(front) by {
        assert forall i :: 0 <= i < |front| ==> front[i] == readings[i];
      }
      PairOfReading(front, j);
    }
  }

  /** A due round with targets in which something was read leaves nothing behind unless the submit fails: each Xray
      reading is then its counter's baseline, and the last entry of the history that the acknowledged bytes add up. */
  lemma XrayProgress(run: Run, i: nat, j: nat)
    requires run.Valid() && i < |run.rounds| && XrayWellFormedAt(run, i) && j < |run.rounds[i].xray|
    requires Due(run.states[i], run.rounds[i]) && run.rounds[i].targetsListed
    ensures var reading, o, now, h := run.rounds[i].xray[j], run.outcomes[i], run.states[i + 1].xray,
                                      History(run, i + 1, run.rounds[i].xray[j].Key());
            if SomethingRose(run.states[i], run.rounds[i]) && !run.rounds[i].submitSucceeds then o.SubmitFailed?
            else
              && Committed(o) && run.states[i + 1].last == Some(run.rounds[i].now)
              && reading.Key() in now && now[reading.Key()] == reading.value
              && h != [] && h[|h| - 1] == reading.value
  {
    var st, r := run.states[i], run.rounds[i];
    RoundDecided(run, i);
    RunAccounted(run);
    assert AccountedAt(run, i);
    if Committed(run.outcomes[i]) {
      CommitAt(st.xray, r.xray, r.xray[j].Key());
      ValueOfReading(r.xray, j);
      BaselineIsLast(run, i + 1, r.xray[j].Key());
    }
  }

  /** The same for the two counters of a WireGuard or OpenVPN peer. */
  lemma PairProgress(c: Collector, run: Run, i: nat, j: nat)
    requires run.Valid() && PairInput(c, run) && i < |run.rounds| && j < |ReadingsOf(c, run.rounds[i])|
    requires Due(run.states[i], run.rounds[i]) && run.rounds[i].targetsListed
    ensures var reading, o := ReadingsOf(c, run.rounds[i])[j], run.outcomes[i];
            var h := PairHistory(c, run, i + 1, reading.instance, reading.peer);
            if SomethingRose(run.states[i], run.rounds[i]) && !run.rounds[i].submitSucceeds then o.SubmitFailed?
            else
              && Committed(o) && run.states[i + 1].last == Some(run.rounds[i].now)
              && Baseline(CountersOf(c, run.states[i + 1]), reading.instance, reading.peer)
                 == Some((reading.rx, reading.tx))
              && h != [] && h[|h| - 1] == (reading.rx, reading.tx)
  {
    var readings := ReadingsOf(c, run.rounds[i]);
    RoundDecided(run, i);
    RunAccounted(run);
    assert AccountedAt(run, i) && PairsWellFormedAt(c, run, i);
    if Committed(run.outcomes[i]) {
      PairOfReading(readings, j);
      PairCommitAt(CountersOf(c, run.states[i]), readings, readings[j].instance, readings[j].peer);
      PairBaselineIsLast(c, run, i + 1, readings[j].instance, readings[j].peer);
    }
  }
}
