/**
 * The statistics a simulation run keeps (src/metrics/metrics.cpp): series that
 * only grow until they are cleared, running totals beside them, counters and
 * phase flags. `MetricsState` is the value of all the fields; each operation is
 * a function from state to state, and the `Metrics` class performs it in place.
 */
module Statistics {

  /** Sum of a series, added up from its end. */
  function Sum(xs: seq<real>): real
  {
    if xs == [] then 0.0 else Sum(xs[..|xs| - 1]) + xs[|xs| - 1]
  }

  /** Sum of an integer series. */
  function SumInts(xs: seq<int>): int
  {
    if xs == [] then 0 else SumInts(xs[..|xs| - 1]) + xs[|xs| - 1]
  }

  /** The arithmetic mean of a non-empty series. */
  function Mean(xs: seq<real>): real
    requires xs != []
  {
    Sum(xs) / |xs| as real
  }

  lemma SumSnoc(xs: seq<real>, x: real)
    ensures Sum(xs + [x]) == Sum(xs) + x
  {
    assert (xs + [x])[..|xs|] == xs;
  }

  lemma SumIntsSnoc(xs: seq<int>, x: int)
    ensures SumInts(xs + [x]) == SumInts(xs) + x
  {
    assert (xs + [x])[..|xs|] == xs;
  }

  /** A series whose values lie in `[lo, hi]` sums to between `|xs| * lo` and `|xs| * hi`. */
  lemma {:induction false} SumBetween(xs: seq<real>, lo: real, hi: real)
    requires forall i :: 0 <= i < |xs| ==> lo <= xs[i] <= hi
    ensures |xs| as real * lo <= Sum(xs) <= |xs| as real * hi
  {
    if xs != [] {
      SumBetween(xs[..|xs| - 1], lo, hi);
    }
  }

  /** The mean of a series lies between its bounds. */
  lemma MeanBetween(xs: seq<real>, lo: real, hi: real)
    requires xs != [] && forall i :: 0 <= i < |xs| ==> lo <= xs[i] <= hi
    ensures lo <= Mean(xs) <= hi
  {
    SumBetween(xs, lo, hi);
    var n := |xs| as real;
    assert n * lo <= Sum(xs) <= n * hi;
    assert lo == (n * lo) / n && hi == (n * hi) / n;
  }

  datatype MetricsState = MetricsState(
    totalLatency: real,
    totalThroughput: real,
    count: int,
    totalPackets: int,
    totalFlits: real,
    measurementCycles: int,
    currentInjectionRate: real,
    isWarmupPhase: bool,
    isMeasurementPhase: bool,
    currentCycle: int,
    saturated: bool,
    packetLatencies: seq<real>,
    latencies: seq<real>,
    flitThroughputs: seq<real>,
    throughputs: seq<real>,
    injectionRates: seq<real>,
    throughputSamples: seq<real>,
    networkUtilizations: seq<real>,
    historyLatencyThroughput: seq<(real, real)>,
    hopCounts: seq<int>,
    totalHops: int,
    congestionEvents: int)

  /** The running totals agree with the series they total. Every operation keeps this. */
  predicate Consistent(s: MetricsState)
  {
    && s.totalLatency == Sum(s.latencies) && s.count == |s.latencies|
    && s.totalThroughput == Sum(s.throughputs)
    && s.totalHops == SumInts(s.hopCounts)
  }

  /** `Metrics()` and, equally, the state after `reset`: nothing recorded, no phase, not saturated. */
  function Initial(): (s: MetricsState)
    ensures Consistent(s)
    ensures s.latencies == s.packetLatencies == s.throughputs == s.flitThroughputs == s.throughputSamples == []
    ensures s.count == 0 && s.totalHops == 0 && s.congestionEvents == 0
    ensures !s.isWarmupPhase && !s.isMeasurementPhase && !s.saturated
  {
    MetricsState(0.0, 0.0, 0, 0, 0.0, 0, 0.0, false, false, 0, false, [], [], [], [], [], [], [], [], [], 0, 0)
  }

  // ------------------------------------------------------------------ recording

  /** `recordLatency` */
  function RecordLatency(s: MetricsState, latency: real): (r: MetricsState)
    ensures Consistent(s) ==> Consistent(r)
    ensures r.latencies == s.latencies + [latency] && r.count == s.count + 1
    ensures r.packetLatencies == s.packetLatencies && r.throughputSamples == s.throughputSamples
  {
    SumSnoc(s.latencies, latency);
    s.(latencies := s.latencies + [latency], totalLatency := s.totalLatency + latency, count := s.count + 1)
  }

  /** `recordThroughput`: one more throughput, which is also one more saturation sample. */
  function RecordThroughput(s: MetricsState, throughput: real): (r: MetricsState)
    ensures Consistent(s) ==> Consistent(r)
    ensures r.throughputs == s.throughputs + [throughput] && r.throughputSamples == s.throughputSamples + [throughput]
    ensures r.latencies == s.latencies && r.flitThroughputs == s.flitThroughputs
  {
    SumSnoc(s.throughputs, throughput);
    s.(throughputs := s.throughputs + [throughput], throughputSamples := s.throughputSamples + [throughput],
       totalThroughput := s.totalThroughput + throughput)
  }

  /** `recordPacketLatency`: one more packet latency, also recorded as a latency, so one more packet counted. */
  function RecordPacketLatency(s: MetricsState, latencyCycles: real): (r: MetricsState)
    ensures Consistent(s) ==> Consistent(r)
    ensures r.packetLatencies == s.packetLatencies + [latencyCycles] && r.latencies == s.latencies + [latencyCycles]
    ensures |r.packetLatencies| == |s.packetLatencies| + 1
  {
    RecordLatency(s.(packetLatencies := s.packetLatencies + [latencyCycles]), latencyCycles)
  }

  /**
   * `recordFlitThroughput`: one more flit throughput; the value is pushed onto
   * the saturation samples directly and again through `recordThroughput`.
   */
  function RecordFlitThroughput(s: MetricsState, flits: real): (r: MetricsState)
    ensures Consistent(s) ==> Consistent(r)
    ensures r.flitThroughputs == s.flitThroughputs + [flits] && r.throughputs == s.throughputs + [flits]
    ensures r.throughputSamples == s.throughputSamples + [flits, flits]
  {
    var t := s.(flitThroughputs := s.flitThroughputs + [flits], throughputSamples := s.throughputSamples + [flits],
                totalFlits := s.totalFlits + flits);
    assert t.throughputSamples + [flits] == s.throughputSamples + [flits, flits];
    RecordThroughput(t, flits)
  }

  /** `recordInjectionRate`: the rate is appended and becomes the current one. */
  function RecordInjectionRate(s: MetricsState, rate: real): (r: MetricsState)
    ensures Consistent(s) ==> Consistent(r)
    ensures r.injectionRates == s.injectionRates + [rate] && r.currentInjectionRate == rate
  {
    s.(injectionRates := s.injectionRates + [rate], currentInjectionRate := rate)
  }

  /** `recordHopCount` */
  function RecordHopCount(s: MetricsState, hops: int): (r: MetricsState)
    ensures Consistent(s) ==> Consistent(r)
    ensures r.hopCounts == s.hopCounts + [hops] && r.totalHops == s.totalHops + hops
  {
    SumIntsSnoc(s.hopCounts, hops);
    s.(hopCounts := s.hopCounts + [hops], totalHops := s.totalHops + hops)
  }

  /** `recordNetworkUtilization` */
  function RecordNetworkUtilization(s: MetricsState, utilization: real): (r: MetricsState)
    ensures Consistent(s) ==> Consistent(r)
    ensures r.networkUtilizations == s.networkUtilizations + [utilization]
  {
    s.(networkUtilizations := s.networkUtilizations + [utilization])
  }

  /** `recordCongestionEvent`: one more congestion event. */
  function RecordCongestionEvent(s: MetricsState): (r: MetricsState)
    ensures Consistent(s) ==> Consistent(r)
    ensures r.congestionEvents == s.congestionEvents + 1 && r.(congestionEvents := s.congestionEvents) == s
  {
    s.(congestionEvents := s.congestionEvents + 1)
  }

  // ------------------------------------------------------------------ phases

  /** `startWarmup` */
  function StartWarmup(s: MetricsState): (r: MetricsState)
    ensures Consistent(s) ==> Consistent(r)
    ensures r.isWarmupPhase && !r.isMeasurementPhase && r.currentCycle == 0
    ensures r.(isWarmupPhase := s.isWarmupPhase, isMeasurementPhase := s.isMeasurementPhase, currentCycle := s.currentCycle) == s
  {
    s.(isWarmupPhase := true, isMeasurementPhase := false, currentCycle := 0)
  }

  /**
   * `startMeasurement`: enters the measurement phase and forgets the packet
   * latencies, flit throughputs and saturation samples of the warm-up; the
   * latencies, their count and the other series and counters stay.
   */
  function StartMeasurement(s: MetricsState): (r: MetricsState)
    ensures Consistent(s) ==> Consistent(r)
    ensures r.isMeasurementPhase && !r.isWarmupPhase
    ensures r.packetLatencies == [] && r.flitThroughputs == [] && r.throughputSamples == []
    ensures r.latencies == s.latencies && r.count == s.count && r.throughputs == s.throughputs
    ensures r.hopCounts == s.hopCounts && r.totalHops == s.totalHops && r.congestionEvents == s.congestionEvents
  {
    s.(isMeasurementPhase := true, isWarmupPhase := false, packetLatencies := [], flitThroughputs := [], throughputSamples := [])
  }

  /** `endMeasurement` */
  function EndMeasurement(s: MetricsState): (r: MetricsState)
    ensures Consistent(s) ==> Consistent(r)
    ensures !r.isMeasurementPhase && r.(isMeasurementPhase := s.isMeasurementPhase) == s
  {
    s.(isMeasurementPhase := false)
  }

  /** `setSaturated` */
  function SetSaturated(s: MetricsState, saturated: bool): (r: MetricsState)
    ensures Consistent(s) ==> Consistent(r)
    ensures r.saturated == saturated && r.(saturated := s.saturated) == s
  {
    s.(saturated := saturated)
  }

  /** `reset`: every series, total, counter and flag goes back to its initial value. */
  function Reset(s: MetricsState): (r: MetricsState)
    ensures r == Initial()
  {
    s.(latencies := [], throughputs := [], packetLatencies := [], flitThroughputs := [], injectionRates := [],
       historyLatencyThroughput := [], throughputSamples := [], hopCounts := [], networkUtilizations := [],
       totalLatency := 0.0, totalThroughput := 0.0, totalFlits := 0.0, totalPackets := 0, totalHops := 0,
       count := 0, measurementCycles := 0, currentInjectionRate := 0.0, currentCycle := 0, congestionEvents := 0,
       isWarmupPhase := false, isMeasurementPhase := false, saturated := false)
  }

  // ------------------------------------------------------------------ queries

  /** `calculateAverageLatency` / `getAverageLatency`: the mean recorded latency, 0 when there is none. */
  function AverageLatency(s: MetricsState): (r: real)
    ensures Consistent(s) && s.latencies != [] ==> r == Mean(s.latencies)
    ensures Consistent(s) && s.latencies == [] ==> r == 0.0
  {
    if s.count > 0 then s.totalLatency / s.count as real else 0.0
  }

  /** `calculateThroughput`: the mean recorded throughput, 0 when there is none. */
  function CalculateThroughput(s: MetricsState): (r: real)
    ensures Consistent(s) && s.throughputs != [] ==> r == Mean(s.throughputs)
    ensures s.throughputs == [] ==> r == 0.0
  {
    if s.throughputs == [] then 0.0 else s.totalThroughput / |s.throughputs| as real
  }

  /** `getThroughput`: the mean flit throughput of the current phase when there is one, else the mean of all throughputs. */
  function Throughput(s: MetricsState): (r: real)
    ensures s.flitThroughputs != [] ==> r == Mean(s.flitThroughputs)
    ensures s.flitThroughputs == [] ==> r == CalculateThroughput(s)
  {
    if s.flitThroughputs != [] then Mean(s.flitThroughputs) else CalculateThroughput(s)
  }

  /**
   * `getAveragePacketDelay`: the mean packet latency when there is one; with
   * none, -1 during measurement (no data yet), else the mean latency, or 0.
   */
  function AveragePacketDelay(s: MetricsState): (r: real)
    ensures s.packetLatencies != [] ==> r == Mean(s.packetLatencies)
    ensures s.packetLatencies == [] && s.isMeasurementPhase ==> r == -1.0
    ensures s.packetLatencies == [] && !s.isMeasurementPhase && Consistent(s) ==>
              r == if s.latencies == [] then 0.0 else Mean(s.latencies)
  {
    if s.packetLatencies == [] then
      if s.isMeasurementPhase then -1.0
      else if s.latencies != [] then AverageLatency(s)
      else 0.0
    else Mean(s.packetLatencies)
  }

  /** `getAverageHopCount`: the mean hop count, 0 when there is none. */
  function AverageHopCount(s: MetricsState): (r: real)
    ensures Consistent(s) && s.hopCounts != [] ==> r == SumInts(s.hopCounts) as real / |s.hopCounts| as real
    ensures s.hopCounts == [] ==> r == 0.0
  {
    if s.hopCounts == [] then 0.0 else s.totalHops as real / |s.hopCounts| as real
  }

  /** `getAverageNetworkUtilization`: the mean utilisation, 0 when there is none. */
  function AverageNetworkUtilization(s: MetricsState): (r: real)
    ensures s.networkUtilizations != [] ==> r == Mean(s.networkUtilizations)
    ensures s.networkUtilizations == [] ==> r == 0.0
  {
    if s.networkUtilizations == [] then 0.0 else Mean(s.networkUtilizations)
  }

  /**
   * `isSaturated(latencyThreshold, throughputDropThreshold)`: the sticky flag,
   * or a mean latency above the threshold, or, with at least two samples, a
   * last sample of 0 or a relative drop from the one before above the threshold.
   */
  function IsSaturatedWith(s: MetricsState, latencyThreshold: real, dropThreshold: real): (r: bool)
    ensures s.saturated ==> r
    ensures AverageLatency(s) > latencyThreshold ==> r
    ensures !s.saturated && AverageLatency(s) <= latencyThreshold && |s.throughputSamples| < 2 ==> !r
    ensures !s.saturated && AverageLatency(s) <= latencyThreshold && |s.throughputSamples| >= 2 ==>
              var n := |s.throughputSamples|;
              var current, previous := s.throughputSamples[n - 1], s.throughputSamples[n - 2];
              (r <==> current == 0.0 || (previous > 0.0 && (previous - current) / previous > dropThreshold))
  {
    if s.saturated then true
    else if AverageLatency(s) > latencyThreshold then true
    else if |s.throughputSamples| < 2 then false
    else
      var n := |s.throughputSamples|;
      var current, previous := s.throughputSamples[n - 1], s.throughputSamples[n - 2];
      if current == 0.0 then true
      else previous > 0.0 && (previous - current) / previous > dropThreshold
  }

  /** `isSaturated()`: the thresholds 50 cycles and a 10% drop. */
  function IsSaturated(s: MetricsState): (r: bool)
    ensures r == IsSaturatedWith(s, 50.0, 0.1)
    ensures s.saturated || AverageLatency(s) > 50.0 ==> r
    ensures !s.saturated && AverageLatency(s) <= 50.0 && |s.throughputSamples| < 2 ==> !r
    ensures |s.throughputSamples| >= 2 && s.throughputSamples[|s.throughputSamples| - 1] == 0.0 ==> r
  {
    IsSaturatedWith(s, 50.0, 0.1)
  }

  // ------------------------------------------------------------------ properties across operations

  /** One `recordPacketLatency` per entry of `ls`, in order. */
  function RecordPacketLatencies(s: MetricsState, ls: seq<real>): MetricsState
    decreases |ls|
  {
    if ls == [] then s else RecordPacketLatencies(RecordPacketLatency(s, ls[0]), ls[1..])
  }

  /** Recording packets appends their latencies, in order, to those of the phase. */
  lemma {:induction false} RecordPacketLatenciesAppends(s: MetricsState, ls: seq<real>)
    ensures RecordPacketLatencies(s, ls).packetLatencies == s.packetLatencies + ls
    decreases |ls|
  {
    if ls != [] {
      RecordPacketLatenciesAppends(RecordPacketLatency(s, ls[0]), ls[1..]);
      assert s.packetLatencies + [ls[0]] + ls[1..] == s.packetLatencies + ls;
    }
  }

  /**
   * `getPacketCount` after `startMeasurement` counts exactly the packets
   * recorded since, whatever the warm-up recorded.
   */
  lemma PacketCountSinceMeasurement(s: MetricsState, ls: seq<real>)
    ensures RecordPacketLatencies(StartMeasurement(s), ls).packetLatencies == ls
    ensures |RecordPacketLatencies(StartMeasurement(s), ls).packetLatencies| == |ls|
  {
    RecordPacketLatenciesAppends(StartMeasurement(s), ls);
  }

  /** `k` calls of `recordCongestionEvent`. */
  function RecordCongestionEvents(s: MetricsState, k: nat): MetricsState
  {
    if k == 0 then s else RecordCongestionEvent(RecordCongestionEvents(s, k - 1))
  }

  /**
   * `getCongestionEvents` counts the events recorded: `k` events add `k` and
   * change nothing else, so after `reset` the count is `k`; the phase changes
   * do not touch it.
   */
  lemma {:induction false} CongestionEventsCount(s: MetricsState, k: nat)
    ensures RecordCongestionEvents(s, k).congestionEvents == s.congestionEvents + k
    ensures RecordCongestionEvents(s, k).(congestionEvents := s.congestionEvents) == s
    ensures RecordCongestionEvents(Reset(s), k).congestionEvents == k
    ensures StartWarmup(s).congestionEvents == StartMeasurement(s).congestionEvents == s.congestionEvents
  {
    if k > 0 {
      CongestionEventsCount(s, k - 1);
    }
    CongestionEventsFromReset(s, k);
  }

  /** From the state `reset` leaves, `k` events give a count of `k`. */
  lemma {:induction false} CongestionEventsFromReset(s: MetricsState, k: nat)
    ensures RecordCongestionEvents(Reset(s), k).congestionEvents == k
  {
    if k > 0 {
      CongestionEventsFromReset(s, k - 1);
    }
  }

  /**
   * Because `recordFlitThroughput` pushes its sample twice, the drop test of
   * `isSaturated` compares the new sample with itself right after it: with a
   * non-zero sample and a non-negative drop threshold only the flag and the
   * latency can report saturation.
   */
  lemma FlitSampleHidesDrop(s: MetricsState, flits: real, latencyThreshold: real, dropThreshold: real)
    requires flits != 0.0 && dropThreshold >= 0.0
    ensures var r := RecordFlitThroughput(s, flits);
            IsSaturatedWith(r, latencyThreshold, dropThreshold) <==> r.saturated || AverageLatency(r) > latencyThreshold
  {
    var r := RecordFlitThroughput(s, flits);
    var n := |r.throughputSamples|;
    assert r.throughputSamples[n - 1] == flits && r.throughputSamples[n - 2] == flits;
  }

  /** Right after `startMeasurement` there is no packet delay yet; after one packet latency it is that latency. */
  lemma MeasurementDelay(s: MetricsState, latency: real)
    ensures AveragePacketDelay(StartMeasurement(s)) == -1.0
    ensures AveragePacketDelay(RecordPacketLatency(StartMeasurement(s), latency)) == latency
  {
    var r := RecordPacketLatency(StartMeasurement(s), latency);
    assert r.packetLatencies == [latency];
    assert Sum([latency]) == Sum([]) + latency;
  }

  /** With consistent totals and latencies recorded in `[lo, hi]`, the mean latency lies in `[lo, hi]`. */
  lemma AverageLatencyBetween(s: MetricsState, lo: real, hi: real)
    requires Consistent(s) && s.latencies != []
    requires forall i :: 0 <= i < |s.latencies| ==> lo <= s.latencies[i] <= hi
    ensures lo <= AverageLatency(s) <= hi
  {
    MeanBetween(s.latencies, lo, hi);
  }

  /** Throughput samples recorded in `[0, hi]` give a throughput in `[0, hi]`. */
  lemma ThroughputBetween(s: MetricsState, hi: real)
    requires Consistent(s)
    requires forall i :: 0 <= i < |s.flitThroughputs| ==> 0.0 <= s.flitThroughputs[i] <= hi
    requires forall i :: 0 <= i < |s.throughputs| ==> 0.0 <= s.throughputs[i] <= hi
    ensures 0.0 <= Throughput(s) <= hi || (s.flitThroughputs == [] && s.throughputs == [] && Throughput(s) == 0.0)
  {
    if s.flitThroughputs != [] {
      MeanBetween(s.flitThroughputs, 0.0, hi);
    } else if s.throughputs != [] {
      MeanBetween(s.throughputs, 0.0, hi);
    }
  }

}

/** The `Metrics` object, whose methods update its fields as the state functions above say. */
module MetricsObject {
  import opened Statistics

  class Metrics {
    var totalLatency: real
    var totalThroughput: real
    var count: int
    var totalPackets: int
    var totalFlits: real
    var measurementCycles: int
    var currentInjectionRate: real
    var isWarmupPhase: bool
    var isMeasurementPhase: bool
    var currentCycle: int
    var saturated: bool
    var packetLatencies: seq<real>
    var latencies: seq<real>
    var flitThroughputs: seq<real>
    var throughputs: seq<real>
    var injectionRates: seq<real>
    var throughputSamples: seq<real>
    var networkUtilizations: seq<real>
    var historyLatencyThroughput: seq<(real, real)>
    var hopCounts: seq<int>
    var totalHops: int
    var congestionEvents: int

    /** The values of all the fields. */
    function View(): MetricsState
      reads this
    {
      MetricsState(totalLatency, totalThroughput, count, totalPackets, totalFlits, measurementCycles,
                   currentInjectionRate, isWarmupPhase, isMeasurementPhase, currentCycle, saturated,
                   packetLatencies, latencies, flitThroughputs, throughputs, injectionRates, throughputSamples,
                   networkUtilizations, historyLatencyThroughput, hopCounts, totalHops, congestionEvents)
    }

    constructor ()
      ensures View() == Initial()
    {
      totalLatency, totalThroughput, count, totalPackets, totalFlits := 0.0, 0.0, 0, 0, 0.0;
      measurementCycles, currentInjectionRate := 0, 0.0;
      isWarmupPhase, isMeasurementPhase, currentCycle, saturated := false, false, 0, false;
      packetLatencies, latencies, flitThroughputs, throughputs := [], [], [], [];
      injectionRates, throughputSamples, networkUtilizations, historyLatencyThroughput := [], [], [], [];
      hopCounts, totalHops, congestionEvents := [], 0, 0;
    }

    method RecordLatency(latency: real)
      modifies this
      ensures View() == Statistics.RecordLatency(old(View()), latency)
    {
      latencies := latencies + [latency];
      totalLatency := totalLatency + latency;
      count := count + 1;
    }

    method RecordThroughput(throughput: real)
      modifies this
      ensures View() == Statistics.RecordThroughput(old(View()), throughput)
    {
      throughputs := throughputs + [throughput];
      PushThroughputSample(throughput);
      totalThroughput := totalThroughput + throughput;
    }

    /** One more saturation sample, which both throughput recorders push. */
    method PushThroughputSample(sample: real)
      modifies this
      ensures View() == old(View()).(throughputSamples := old(throughputSamples) + [sample])
    {
      throughputSamples := throughputSamples + [sample];
    }

    method RecordPacketLatency(latencyCycles: real)
      modifies this
      ensures View() == Statistics.RecordPacketLatency(old(View()), latencyCycles)
    {
      packetLatencies := packetLatencies + [latencyCycles];
      RecordLatency(latencyCycles);
    }

    method RecordFlitThroughput(flitsPerCyclePerNode: real)
      modifies this
      ensures View() == Statistics.RecordFlitThroughput(old(View()), flitsPerCyclePerNode)
    {
      flitThroughputs := flitThroughputs + [flitsPerCyclePerNode];
      PushThroughputSample(flitsPerCyclePerNode);
      totalFlits := totalFlits + flitsPerCyclePerNode;
      RecordThroughput(flitsPerCyclePerNode);
    }

    method RecordInjectionRate(packetsPerCyclePerNode: real)
      modifies this
      ensures View() == Statistics.RecordInjectionRate(old(View()), packetsPerCyclePerNode)
    {
      injectionRates := injectionRates + [packetsPerCyclePerNode];
      currentInjectionRate := packetsPerCyclePerNode;
    }

    method RecordHopCount(hops: int)
      modifies this
      ensures View() == Statistics.RecordHopCount(old(View()), hops)
    {
      hopCounts := hopCounts + [hops];
      totalHops := totalHops + hops;
    }

    method RecordNetworkUtilization(utilization: real)
      modifies this
      ensures View() == Statistics.RecordNetworkUtilization(old(View()), utilization)
    {
      networkUtilizations := networkUtilizations + [utilization];
    }

    method RecordCongestionEvent()
      modifies this
      ensures View() == Statistics.RecordCongestionEvent(old(View()))
    {
      congestionEvents := congestionEvents + 1;
    }

    method StartWarmup()
      modifies this
      ensures View() == Statistics.StartWarmup(old(View()))
    {
      isWarmupPhase := true;
      isMeasurementPhase := false;
      currentCycle := 0;
    }

    method StartMeasurement()
      modifies this
      ensures View() == Statistics.StartMeasurement(old(View()))
    {
      isMeasurementPhase := true;
      isWarmupPhase := false;
      ClearPhaseSeries();
    }

    /** The series `startMeasurement` forgets: those of the current phase. */
    method ClearPhaseSeries()
      modifies this
      ensures View() == old(View()).(packetLatencies := [], flitThroughputs := [], throughputSamples := [])
    {
      packetLatencies, flitThroughputs, throughputSamples := [], [], [];
    }

    method EndMeasurement()
      modifies this
      ensures View() == Statistics.EndMeasurement(old(View()))
    {
      isMeasurementPhase := false;
    }

    method SetSaturated(saturated: bool)
      modifies this
      ensures View() == Statistics.SetSaturated(old(View()), saturated)
    {
      this.saturated := saturated;
    }

    method Reset()
      modifies this
      ensures View() == Statistics.Reset(old(View()))
    {
      ClearLatencies();
      ClearThroughputs();
      ClearFlits();
      ClearPacketHistory();
      ClearHops();
      ClearInjection();
      ClearPhase();
      ClearSaturation();
    }

    /** Part of `reset`: the latency series with its total and count. */
    method ClearLatencies()
      modifies this
      ensures View() == old(View()).(latencies := [], totalLatency := 0.0, count := 0)
    {
      latencies, totalLatency, count := [], 0.0, 0;
    }

    /** Part of `reset`: the throughput series with its total and the saturation samples. */
    method ClearThroughputs()
      modifies this
      ensures View() == old(View()).(throughputs := [], totalThroughput := 0.0, throughputSamples := [])
    {
      throughputs, totalThroughput, throughputSamples := [], 0.0, [];
    }

    /** Part of `reset`: the flit series and the flit and packet totals. */
    method ClearFlits()
      modifies this
      ensures View() == old(View()).(flitThroughputs := [], totalFlits := 0.0, totalPackets := 0)
    {
      flitThroughputs, totalFlits, totalPackets := [], 0.0, 0;
    }

    /** Part of `reset`: the packet latencies and the latency/throughput history. */
    method ClearPacketHistory()
      modifies this
      ensures View() == old(View()).(packetLatencies := [], historyLatencyThroughput := [])
    {
      packetLatencies, historyLatencyThroughput := [], [];
    }

    /** Part of `reset`: the hop series with its total, and the congestion events. */
    method ClearHops()
      modifies this
      ensures View() == old(View()).(hopCounts := [], totalHops := 0, congestionEvents := 0)
    {
      hopCounts, totalHops, congestionEvents := [], 0, 0;
    }

    /** Part of `reset`: the injection rates, the current rate and the utilisations. */
    method ClearInjection()
      modifies this
      ensures View() == old(View()).(injectionRates := [], currentInjectionRate := 0.0, networkUtilizations := [])
    {
      injectionRates, currentInjectionRate, networkUtilizations := [], 0.0, [];
    }

    /** Part of `reset`: no phase and cycle 0. */
    method ClearPhase()
      modifies this
      ensures View() == old(View()).(isWarmupPhase := false, isMeasurementPhase := false, currentCycle := 0)
    {
      isWarmupPhase, isMeasurementPhase, currentCycle := false, false, 0;
    }

    /** Part of `reset`: not saturated and no measurement cycles. */
    method ClearSaturation()
      modifies this
      ensures View() == old(View()).(saturated := false, measurementCycles := 0)
    {
      saturated, measurementCycles := false, 0;
    }

    /** The sum of `xs`, added up front to back as the getters' loops do. */
    static method SumLoop(xs: seq<real>) returns (sum: real)
      ensures sum == Sum(xs)
    {
      sum := 0.0;
      var i := 0;
      while i < |xs|
        invariant 0 <= i <= |xs| && sum == Sum(xs[..i])
      {
        assert xs[..i + 1][..i] == xs[..i];
        sum := sum + xs[i];
        i := i + 1;
      }
      assert xs[..i] == xs;
    }

    /** `getThroughput` */
    method GetThroughput() returns (r: real)
      ensures r == Throughput(View())
    {
      if flitThroughputs != [] {
        var sum := SumLoop(flitThroughputs);
        return sum / |flitThroughputs| as real;
      }
      r := if throughputs == [] then 0.0 else totalThroughput / |throughputs| as real;
    }

    /** `getAveragePacketDelay` */
    method GetAveragePacketDelay() returns (r: real)
      ensures r == AveragePacketDelay(View())
    {
      if packetLatencies == [] {
        if isMeasurementPhase {
          return -1.0;
        }
        if latencies != [] {
          return if count > 0 then totalLatency / count as real else 0.0;
        }
        return 0.0;
      }
      var sum := SumLoop(packetLatencies);
      r := sum / |packetLatencies| as real;
    }

    /** `getAverageNetworkUtilization` */
    method GetAverageNetworkUtilization() returns (r: real)
      ensures r == AverageNetworkUtilization(View())
    {
      if networkUtilizations == [] {
        return 0.0;
      }
      var sum := SumLoop(networkUtilizations);
      r := sum / |networkUtilizations| as real;
    }

    /** `getPacketCount`: the number of packet latencies of the current phase. */
    function GetPacketCount(): (n: nat)
      reads this
      ensures n == |View().packetLatencies|
    {
      |packetLatencies|
    }

    /** `getCongestionEvents` */
    function GetCongestionEvents(): (n: int)
      reads this
      ensures n == View().congestionEvents
    {
      congestionEvents
    }

    /** `getCurrentInjectionRate` */
    function GetCurrentInjectionRate(): (r: real)
      reads this
      ensures r == View().currentInjectionRate
    {
      currentInjectionRate
    }
  }
}
