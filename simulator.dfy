/**
 * The simulation engine (src/simulator/simulator.cpp): a queue of packets per
 * node, packet injection, the routing rounds of one cycle and the measurement
 * run that turns them into a throughput and a saturation verdict.
 *
 * Nodes are addressed by number (see EngineRules): the hypercube node with id
 * `k`, or the mesh node `(k / sizeY, k % sizeY)`. The nested `x`/`y` loops of
 * the mesh mode visit the nodes in that same order, `0, 1, 2, ...`. The
 * random generator is replaced by the draws it yields, given as inputs.
 */
module Engine {
  import opened Wrappers
  import opened Bits
  import opened Messages
  import opened Hypercube
  import opened EngineRules
  import opened Statistics
  import opened MetricsObject
  import opened Settings

  // ------------------------------------------------------------------ injection

  /**
   * What the generator yields for one node in one cycle of `injectPackets`:
   * the coin compared with the injection rate, then the destinations the
   * `do`/`while` loop draws one after the other (in mesh mode, the values of
   * `rand() % totalNodes`).
   */
  datatype Draw = Draw(coin: real, candidates: seq<int>)

  /** The destination the `do`/`while` loop settles on: the first draw that is not the node itself. */
  function FirstOther(candidates: seq<int>, nodeId: int): (r: Option<int>)
    ensures r.None? <==> forall i :: 0 <= i < |candidates| ==> candidates[i] == nodeId
    ensures r.Some? ==> r.value != nodeId
  {
    if |candidates| == 0 then None
    else if candidates[0] != nodeId then Some(candidates[0])
    else
      assert forall i :: 0 < i < |candidates| ==> candidates[i] == candidates[1..][i - 1];
      FirstOther(candidates[1..], nodeId)
  }

  /** The destination found is a draw, and every draw before it was the node itself. */
  lemma {:induction false} FirstOtherIsFirst(candidates: seq<int>, nodeId: int)
    requires FirstOther(candidates, nodeId).Some?
    ensures exists i :: 0 <= i < |candidates| && candidates[i] == FirstOther(candidates, nodeId).value
                        && forall j :: 0 <= j < i ==> candidates[j] == nodeId
  {
    if candidates[0] != nodeId {
      assert candidates[0] == FirstOther(candidates, nodeId).value;
    } else {
      var rest := candidates[1..];
      FirstOtherIsFirst(rest, nodeId);
      var i :| 0 <= i < |rest| && rest[i] == FirstOther(rest, nodeId).value
               && forall j :: 0 <= j < i ==> rest[j] == nodeId;
      assert candidates[i + 1] == FirstOther(candidates, nodeId).value;
      forall j | 0 <= j < i + 1 ensures candidates[j] == nodeId {
        if j > 0 { assert candidates[j] == rest[j - 1]; }
      }
    }
  }

  /**
   * On a network of one node every draw is that node, so the `do`/`while`
   * loop of `injectPackets` never settles on a destination, however many
   * draws it makes.
   */
  lemma SingleNodeDrawsNeverEnd(candidates: seq<int>)
    requires forall i :: 0 <= i < |candidates| ==> 0 <= candidates[i] < 1
    ensures FirstOther(candidates, 0).None?
  {
  }

  /** `a / b` on `int` in the source: the quotient truncated toward zero. */
  function TruncatedDivision(a: int, b: int): int
    requires b > 0
  {
    if a >= 0 then a / b else -((-a) / b)
  }

  /** `a % b` on `int` in the source: the remainder that goes with the truncated quotient. */
  function TruncatedRemainder(a: int, b: int): int
    requires b > 0
  {
    a - b * TruncatedDivision(a, b)
  }

  /**
   * Whether the drawn destination names a node: the explicit range test of
   * the hypercube mode, `network->getNode(destinationId / networkSizeY,
   * destinationId % networkSizeY)` of the mesh mode.
   */
  function DestinationExists(isHypercubeMode: bool, sizeX: nat, sizeY: nat, totalNodes: nat, destinationId: int): bool
  {
    if isHypercubeMode then 0 <= destinationId < totalNodes
    else sizeY > 0 && InGrid(sizeX, sizeY, (TruncatedDivision(destinationId, sizeY), TruncatedRemainder(destinationId, sizeY)))
  }

  /** The mesh test, with the source's truncating `/` and `%`, accepts exactly the node numbers `0 .. sizeX * sizeY - 1`. */
  lemma MeshDestinationExistsIsRange(sizeX: nat, sizeY: nat, totalNodes: nat, destinationId: int)
    ensures DestinationExists(false, sizeX, sizeY, totalNodes, destinationId) <==> 0 <= destinationId < sizeX * sizeY
  {
    if sizeY > 0 {
      if destinationId >= 0 {
        if destinationId < sizeX * sizeY {
          MeshNumberingIsSurjective(sizeX, sizeY, destinationId);
        } else if DestinationExists(false, sizeX, sizeY, totalNodes, destinationId) {
          MeshNumberingIsInjective(sizeX, sizeY, MeshPosition(sizeY, destinationId));
        }
      } else {
        var q := (-destinationId) / sizeY;
        assert TruncatedDivision(destinationId, sizeY) == -q;
        if q == 0 {
          assert TruncatedRemainder(destinationId, sizeY) == destinationId;
        }
      }
    }
  }

  /** The packet `injectPackets` builds from `Message(nodeId, destinationId, currentCycle)`. */
  function NewPacket(nodeId: NodeId, destinationId: NodeId, cycle: int): (p: Packet<NodeId>)
    ensures p.sourceId == nodeId && p.destinationId == destinationId && p.injectionTime == cycle && p.hopCount == 0
    ensures p.sourceNode == Some(nodeId) && p.currentNode == Some(nodeId) && p.destinationNode == Some(destinationId)
  {
    var message: Message<NodeId> := NewMessage(nodeId, destinationId, cycle).SetDestinationNode(Some(destinationId));
    PacketOf<NodeId, NodeId>(message).SetSourceNode(Some(nodeId)).SetCurrentNode(Some(nodeId))
      .SetDestinationNode(Some(destinationId)).SetHopCount(0)
  }

  /** A packet waiting at node `k` of a network of `totalNodes` nodes, as the engine keeps it. */
  predicate InPlace(p: Packet<NodeId>, k: NodeId, totalNodes: nat)
  {
    && p.currentNode == Some(k)
    && 0 <= p.destinationId < totalNodes
    && p.destinationNode == Some(p.destinationId as nat)
    && p.hopCount >= 0
  }

  predicate Placed(queue: seq<Packet<NodeId>>, k: NodeId, totalNodes: nat)
  {
    forall i :: 0 <= i < |queue| ==> InPlace(queue[i], k, totalNodes)
  }

  function Queued<T>(p: Option<T>): (s: seq<T>)
    ensures |s| == (if p.Some? then 1 else 0)
  {
    if p.Some? then [p.value] else []
  }

  /** The number of nodes that inject a packet. */
  function CountSome<T>(s: seq<Option<T>>): (n: nat)
    ensures n <= |s|
  {
    if s == [] then 0 else CountSome(s[..|s| - 1]) + |Queued(s[|s| - 1])|
  }

  /** No packet is counted exactly when no node injects. */
  lemma {:induction false} CountSomeZero<T>(s: seq<Option<T>>)
    ensures CountSome(s) == 0 <==> forall i :: 0 <= i < |s| ==> s[i].None?
  {
    if s != [] {
      var init := s[..|s| - 1];
      CountSomeZero(init);
      assert forall i :: 0 <= i < |init| ==> init[i] == s[i];
    }
  }

  /** Every node is counted exactly when every node injects. */
  lemma {:induction false} CountSomeFull<T>(s: seq<Option<T>>)
    ensures CountSome(s) == |s| <==> forall i :: 0 <= i < |s| ==> s[i].Some?
  {
    if s != [] {
      var init := s[..|s| - 1];
      CountSomeFull(init);
      assert forall i :: 0 <= i < |init| ==> init[i] == s[i];
    }
  }

  /** Each present packet `injections[k]` sits at its node `k` and heads for a node. */
  predicate PlacedAtSource(injections: seq<Option<Packet<NodeId>>>, totalNodes: nat)
  {
    forall k :: 0 <= k < |injections| && injections[k].Some? ==> InPlace(injections[k].value, k, totalNodes)
  }

  // ------------------------------------------------------------------ buffers

  /** The packets waiting at the nodes `0 .. n - 1`. */
  function BufferedCount(buffers: Buffers, n: nat): nat
  {
    if n == 0 then 0
    else BufferedCount(buffers, n - 1) + (if n - 1 in buffers then |buffers[n - 1]| else 0)
  }

  /** Replacing the queue of node `k` changes the count by the difference in length. */
  lemma {:induction false} BufferedCountUpdate(buffers: Buffers, k: NodeId, queue: seq<Packet<NodeId>>, n: nat)
    requires k in buffers
    ensures BufferedCount(buffers[k := queue], n)
            == BufferedCount(buffers, n) + (if k < n then |queue| - |buffers[k]| else 0)
  {
    if n > 0 {
      BufferedCountUpdate(buffers, k, queue, n - 1);
    }
  }

  /** The empty queue of every node, as both constructors and `reset` leave them. */
  function EmptyBuffers(totalNodes: nat): (buffers: Buffers)
    ensures forall k: NodeId :: k in buffers <==> k < totalNodes
    ensures forall k :: k in buffers ==> buffers[k] == []
  {
    if totalNodes == 0 then map[] else EmptyBuffers(totalNodes - 1)[totalNodes - 1 := []]
  }

  lemma {:induction false} EmptyBuffersHoldNothing(totalNodes: nat, n: nat)
    ensures BufferedCount(EmptyBuffers(totalNodes), n) == 0
  {
    if n > 0 {
      EmptyBuffersHoldNothing(totalNodes, n - 1);
    }
  }

  /** `calculateBufferDelay`: no delay for a packet without a node or at a node without a buffer. */
  function BufferDelayOf(buffers: Buffers, p: Packet<NodeId>): (delay: real)
    ensures delay >= 0.0
  {
    if p.currentNode.None? || p.currentNode.value !in buffers then 0.0
    else BufferDelay(|buffers[p.currentNode.value]| as real / MaxBufferSize as real)
  }

  /** `linkBandwidthUsed[key]` and `linkUtilization[key]`, where a missing entry reads as 0. */
  function Used(links: map<LinkKey, nat>, key: LinkKey): nat
  {
    if key in links then links[key] else 0
  }

  /** `links[key]++` */
  function Bump(links: map<LinkKey, nat>, key: LinkKey): (r: map<LinkKey, nat>)
    ensures key in r && Used(r, key) == Used(links, key) + 1
    ensures forall other :: other != key ==> Used(r, other) == Used(links, other)
    ensures r.Keys == links.Keys + {key}
  {
    links[key := Used(links, key) + 1]
  }

  /** A packet forwarded to `next`: one hop more, now at `next`. */
  function Forwarded(p: Packet<NodeId>, next: NodeId): (q: Packet<NodeId>)
    ensures q.hopCount == p.hopCount + 1 && q.currentNode == Some(next)
    ensures q.sourceId == p.sourceId && q.destinationId == p.destinationId && q.injectionTime == p.injectionTime
    ensures q.destinationNode == p.destinationNode && q.sourceNode == p.sourceNode
  {
    p.SetHopCount(p.hopCount + 1).SetCurrentNode(Some(next))
  }

  /** The `do`/`while` loop of `injectPackets`: draw again while the draw is the node itself. */
  method DrawDestination(candidates: seq<int>, nodeId: int) returns (destination: Option<int>)
    ensures destination == FirstOther(candidates, nodeId)
  {
    var i := 0;
    while i < |candidates| && candidates[i] == nodeId
      invariant 0 <= i <= |candidates|
      invariant FirstOther(candidates[i..], nodeId) == FirstOther(candidates, nodeId)
    {
      assert candidates[i..][1..] == candidates[i + 1..];
      i := i + 1;
    }
    if i < |candidates| {
      destination := Some(candidates[i]);
    } else {
      assert candidates[i..] == [];
      destination := None;
    }
  }

  /** The queue of every node `0 .. totalNodes - 1` and of no other, each holding packets placed at it. */
  ghost predicate WellPlaced(buffers: Buffers, totalNodes: nat)
  {
    && (forall k: NodeId :: k in buffers <==> k < totalNodes)
    && (forall k :: k in buffers ==> Placed(buffers[k], k, totalNodes))
  }

  /**
   * The counter updates of one measured cycle of `runSimulation` that
   * received `receivedThisCycle` packets: the zero run and the low run go on
   * or restart, and `stop` says whether more than a fifth of the measured
   * cycles in a row have now received nothing. When the counters were the
   * runs over `received`, they are the runs over `received` and this cycle.
   */
  method Tally(ghost received: seq<int>, ghost packetCount: int, lowThroughputCycles: int, consecutiveZeroReceived: int,
               receivedThisCycle: int, injectionRate: real, totalNodes: nat, measurementCycles: int)
    returns (low: int, zero: int, stop: bool)
    requires CountersAgree(received, lowThroughputCycles, consecutiveZeroReceived, ExpectedPackets(injectionRate, totalNodes),
                           measurementCycles, packetCount)
    requires received != [] ==> !StopsEarly(received, measurementCycles)
    requires receivedThisCycle >= 0
    ensures CountersAgree(received + [receivedThisCycle], low, zero, ExpectedPackets(injectionRate, totalNodes), measurementCycles,
                          packetCount + receivedThisCycle)
    ensures stop <==> StopsEarly(received + [receivedThisCycle], measurementCycles)
  {
    CountersStep(received, lowThroughputCycles, consecutiveZeroReceived, ExpectedPackets(injectionRate, totalNodes), measurementCycles,
                 packetCount, receivedThisCycle);
    if receivedThisCycle == 0 {
      zero := consecutiveZeroReceived + 1;
    } else {
      zero := 0;
    }
    var expectedPacketsPerCycle := ExpectedPackets(injectionRate, totalNodes);
    if (receivedThisCycle as real) < expectedPacketsPerCycle * 0.6 {
      low := lowThroughputCycles + 1;
    } else {
      low := 0;
    }
    stop := zero as real > measurementCycles as real * 0.2;
  }

  lemma WellPlacedAppend(buffers: Buffers, totalNodes: nat, k: NodeId, p: Packet<NodeId>)
    requires WellPlaced(buffers, totalNodes) && k in buffers && InPlace(p, k, totalNodes)
    ensures WellPlaced(buffers[k := buffers[k] + [p]], totalNodes)
  {
  }

  /** The queues once the nodes `0 .. n - 1` have had their turn: each has its own packet, if any, at the back. */
  function Appended(buffers: Buffers, injections: seq<Option<Packet<NodeId>>>, n: nat): (r: Buffers)
    requires n <= |injections|
    ensures forall k :: k in r <==> k in buffers
    ensures forall k :: k in r ==> r[k] == buffers[k] + (if k < n then Queued(injections[k]) else [])
  {
    map k | k in buffers :: buffers[k] + (if k < n then Queued(injections[k]) else [])
  }

  /** Before any turn nothing has changed. */
  lemma AppendedNothing(buffers: Buffers, injections: seq<Option<Packet<NodeId>>>)
    ensures Appended(buffers, injections, 0) == buffers
  {
    var after := Appended(buffers, injections, 0);
    forall k | k in after ensures after[k] == buffers[k] {
      assert after[k] == buffers[k] + [];
    }
  }

  /** The turn of node `n` changes its queue only. */
  lemma AppendedStep(buffers: Buffers, injections: seq<Option<Packet<NodeId>>>, n: nat)
    requires n < |injections| && n in buffers
    ensures Appended(buffers, injections, n + 1)
            == Appended(buffers, injections, n)[n := Appended(buffers, injections, n)[n] + Queued(injections[n])]
  {
    var before, after := Appended(buffers, injections, n), Appended(buffers, injections, n + 1);
    assert before[n] == buffers[n];
    forall k | k in after ensures after[k] == before[n := before[n] + Queued(injections[n])][k] {
      if k != n {
        assert after[k] == before[k];
      }
    }
  }

  /** One turn of the injection loop: node `n`'s packet, if any, joins its queue and the count. */
  lemma InjectionStep(buffers: Buffers, injections: seq<Option<Packet<NodeId>>>, n: nat, sofar: Buffers, count: int)
    requires n < |injections| && n in buffers
    requires sofar == Appended(buffers, injections, n) && count == CountSome(injections[..n])
    ensures n in sofar
    ensures injections[n].Some? ==> sofar[n := sofar[n] + [injections[n].value]] == Appended(buffers, injections, n + 1)
    ensures injections[n].None? ==> sofar == Appended(buffers, injections, n + 1)
    ensures count + (if injections[n].Some? then 1 else 0) == CountSome(injections[..n + 1])
  {
    AppendedStep(buffers, injections, n);
    CountSomePrefix(injections, n + 1);
    if injections[n].None? {
      assert sofar[n := sofar[n] + Queued(injections[n])] == sofar;
    }
  }

  /** The turns add exactly the packets counted. */
  lemma {:induction false} AppendedCount(buffers: Buffers, injections: seq<Option<Packet<NodeId>>>, n: nat, totalNodes: nat)
    requires n <= |injections| && n <= totalNodes
    requires forall k: NodeId :: k < n ==> k in buffers
    ensures BufferedCount(Appended(buffers, injections, n), totalNodes)
            == BufferedCount(buffers, totalNodes) + CountSome(injections[..n])
  {
    if n == 0 {
      AppendedNothing(buffers, injections);
    } else {
      AppendedCount(buffers, injections, n - 1, totalNodes);
      AppendedCountStep(buffers, injections, n, totalNodes);
      CountSomePrefix(injections, n);
    }
  }

  lemma CountSomePrefix<T>(s: seq<Option<T>>, n: nat)
    requires 0 < n <= |s|
    ensures CountSome(s[..n]) == CountSome(s[..n - 1]) + |Queued(s[n - 1])|
  {
    assert s[..n][..n - 1] == s[..n - 1];
  }

  /** The turn of node `n - 1` adds its injected packet, if any, to the count. */
  lemma AppendedCountStep(buffers: Buffers, injections: seq<Option<Packet<NodeId>>>, n: nat, totalNodes: nat)
    requires 0 < n <= |injections| && n <= totalNodes && n - 1 in buffers
    ensures BufferedCount(Appended(buffers, injections, n), totalNodes)
            == BufferedCount(Appended(buffers, injections, n - 1), totalNodes) + |Queued(injections[n - 1])|
  {
    AppendedStep(buffers, injections, n - 1);
    var b := Appended(buffers, injections, n - 1);
    BufferedCountUpdate(b, n - 1, b[n - 1] + Queued(injections[n - 1]), totalNodes);
  }

  /** Packets placed at their source keep every queue well placed. */
  lemma AppendedPlaced(buffers: Buffers, injections: seq<Option<Packet<NodeId>>>, n: nat, totalNodes: nat)
    requires n <= |injections| && WellPlaced(buffers, totalNodes) && PlacedAtSource(injections, totalNodes)
    ensures WellPlaced(Appended(buffers, injections, n), totalNodes)
  {
  }

  /**
   * What one visit of `routePackets` may do to the metrics: append the
   * latencies of the `retired` packets, each at least 15 cycles, and leave
   * the flit throughputs and the phase alone.
   */
  predicate MetricsGrew(before: MetricsState, after: MetricsState, retired: nat)
  {
    && |after.packetLatencies| == |before.packetLatencies| + retired
    && after.packetLatencies[..|before.packetLatencies|] == before.packetLatencies
    && (forall i :: |before.packetLatencies| <= i < |after.packetLatencies| ==> after.packetLatencies[i] >= 15.0)
    && after.flitThroughputs == before.flitThroughputs
    && after.isMeasurementPhase == before.isMeasurementPhase
    && (Consistent(before) ==> Consistent(after))
  }

  lemma MetricsGrewStays(s: MetricsState)
    ensures MetricsGrew(s, s, 0)
  {
    assert s.packetLatencies[..|s.packetLatencies|] == s.packetLatencies;
  }

  lemma {:induction false} MetricsGrewTransitive(a: MetricsState, b: MetricsState, c: MetricsState, r1: nat, r2: nat)
    requires MetricsGrew(a, b, r1) && MetricsGrew(b, c, r2)
    ensures MetricsGrew(a, c, r1 + r2)
  {
    var n, m := |a.packetLatencies|, |b.packetLatencies|;
    assert c.packetLatencies[..n] == c.packetLatencies[..m][..n];
    forall i | n <= i < |c.packetLatencies| ensures c.packetLatencies[i] >= 15.0 {
      if i < m {
        assert c.packetLatencies[i] == c.packetLatencies[..m][i] == b.packetLatencies[i];
      }
    }
  }

  /** Recording a retired packet with a latency of at least 15 is growth by one. */
  lemma RetireGrows(s: MetricsState, latency: real, hops: int)
    requires latency >= 15.0
    ensures MetricsGrew(s, RecordHopCount(RecordPacketLatency(s, latency), hops), 1)
  {
    var r := RecordHopCount(RecordPacketLatency(s, latency), hops);
    assert r.packetLatencies == s.packetLatencies + [latency];
    assert r.packetLatencies[..|s.packetLatencies|] == s.packetLatencies;
  }

  lemma CongestionGrowsNothing(s: MetricsState)
    ensures MetricsGrew(s, RecordCongestionEvent(s), 0)
  {
    MetricsGrewStays(s);
  }

  /** Latencies all at least `c` have a mean of at least `c`. */
  lemma {:induction false} SumAtLeast(xs: seq<real>, c: real)
    requires forall i :: 0 <= i < |xs| ==> xs[i] >= c
    ensures Sum(xs) >= c * |xs| as real
  {
    if xs != [] {
      SumAtLeast(xs[..|xs| - 1], c);
    }
  }

  lemma MeanAtLeast(xs: seq<real>, c: real)
    requires xs != [] && forall i :: 0 <= i < |xs| ==> xs[i] >= c
    ensures Mean(xs) >= c
  {
    SumAtLeast(xs, c);
  }

  /** The latency a packet retired in hypercube mode gets, from the state after it left its queue. */
  ghost function HypercubeLatencyIn(buffers: Buffers, totalNodes: nat, links: map<LinkKey, nat>, rate: real, cycle: int,
                                    p: Packet<NodeId>): real
  {
    var u := NetworkUtilization(buffers, totalNodes, links, rate);
    HypercubeRetireLatency(cycle, p.injectionTime, p.hopCount, u, QueuingDelay(p.hopCount, u, rate, BufferDelayOf(buffers, p)), rate)
  }

  /** The latency a packet retired in mesh mode gets, from the state after it left its queue. */
  ghost function MeshLatencyIn(buffers: Buffers, totalNodes: nat, links: map<LinkKey, nat>, rate: real, cycle: int,
                               p: Packet<NodeId>): real
  {
    var u := NetworkUtilization(buffers, totalNodes, links, rate);
    MeshRetireLatency(cycle, p.injectionTime, p.hopCount, QueuingDelay(p.hopCount, u, rate, BufferDelayOf(buffers, p)))
  }

  // ------------------------------------------------------------------ routing

  /** Node `k` leaves its front packet out of its queue. */
  lemma WellPlacedPop(buffers: Buffers, totalNodes: nat, k: NodeId)
    requires WellPlaced(buffers, totalNodes) && k in buffers && buffers[k] != []
    ensures WellPlaced(buffers[k := buffers[k][1..]], totalNodes)
    ensures BufferedCount(buffers[k := buffers[k][1..]], totalNodes) + 1 == BufferedCount(buffers, totalNodes)
  {
    BufferedCountUpdate(buffers, k, buffers[k][1..], totalNodes);
  }

  /** The queues after node `k` forwards its front packet to `next`: popped at `k`, pushed at `next` one hop on. */
  function MovedTo(buffers: Buffers, k: NodeId, next: NodeId): Buffers
    requires k in buffers && next in buffers && buffers[k] != []
  {
    var popped := buffers[k := buffers[k][1..]];
    popped[next := popped[next] + [Forwarded(buffers[k][0], next)]]
  }

  /**
   * Forwarding a packet to another node of the network keeps every packet
   * in place and the number of waiting packets the same, and touches only
   * the two queues.
   */
  lemma MovedToKeeps(buffers: Buffers, totalNodes: nat, k: NodeId, next: NodeId)
    requires WellPlaced(buffers, totalNodes) && k in buffers && next in buffers && buffers[k] != [] && k != next
    ensures WellPlaced(MovedTo(buffers, k, next), totalNodes)
    ensures BufferedCount(MovedTo(buffers, k, next), totalNodes) == BufferedCount(buffers, totalNodes)
    ensures MovedTo(buffers, k, next)[k] == buffers[k][1..]
    ensures MovedTo(buffers, k, next)[next] == buffers[next] + [Forwarded(buffers[k][0], next)]
    ensures forall j :: j in buffers && j != k && j != next ==> MovedTo(buffers, k, next)[j] == buffers[j]
  {
    var popped := buffers[k := buffers[k][1..]];
    WellPlacedPop(buffers, totalNodes, k);
    var p := Forwarded(buffers[k][0], next);
    assert InPlace(p, next, totalNodes);
    WellPlacedAppend(popped, totalNodes, next, p);
    BufferedCountUpdate(popped, next, popped[next] + [p], totalNodes);
  }

  /** Every latency recorded is at least 15. */
  predicate LatenciesFloored(s: MetricsState) {
    forall i :: 0 <= i < |s.packetLatencies| ==> s.packetLatencies[i] >= 15.0
  }

  /** Latencies of at least 15 stay so while the metrics grow. */
  lemma MetricsGrewKeepsFloor(before: MetricsState, after: MetricsState, retired: nat)
    requires MetricsGrew(before, after, retired)
    requires forall i :: 0 <= i < |before.packetLatencies| ==> before.packetLatencies[i] >= 15.0
    ensures forall i :: 0 <= i < |after.packetLatencies| ==> after.packetLatencies[i] >= 15.0
  {
    forall i | 0 <= i < |before.packetLatencies|
      ensures after.packetLatencies[i] >= 15.0
    {
      assert after.packetLatencies[i] == after.packetLatencies[..|before.packetLatencies|][i];
    }
  }

  /** What one visit of a node by `routePackets` did. */
  datatype Visit = Idle | Retired(latency: real, hops: int) | Moved(next: NodeId) | Blocked(next: NodeId)

  class Simulator {
    const isHypercubeMode: bool
    /** The dimension of `hypercubeNet`; 0 in mesh mode. */
    const dimension: nat
    const networkSizeX: nat
    const networkSizeY: nat
    /** `hypercubeNet->getTotalNodes()`, or `networkSizeX * networkSizeY` in mesh mode. */
    const totalNodes: nat
    const maxBufferSize: nat
    const linkCapacity: real
    const metrics: Metrics
    var currentCycle: int
    var currentInjectionRate: real
    var nodeBuffers: Buffers
    var linkUtilization: map<LinkKey, nat>

    /** Every node has a queue, every queued packet sits at its node and heads for a node, and the metrics add up. */
    ghost predicate Valid()
      reads this, metrics
    {
      && totalNodes == (if isHypercubeMode then Pow2(dimension) else networkSizeX * networkSizeY)
      && maxBufferSize == MaxBufferSize
      && WellPlaced(nodeBuffers, totalNodes)
      && Consistent(metrics.View())
    }

    /** `Simulator(HypercubeNetwork*)`: an empty queue for each node of the cube, fresh metrics. */
    constructor Hypercube(net: HypercubeNetwork)
      ensures isHypercubeMode && dimension == net.dimension && totalNodes == net.totalNodes
      ensures Valid() && fresh(metrics) && metrics.View() == Initial()
      ensures nodeBuffers == EmptyBuffers(totalNodes) && linkUtilization == map[]
      ensures currentCycle == 0 && currentInjectionRate == 0.0
    {
      isHypercubeMode, dimension, networkSizeX, networkSizeY := true, net.dimension, 0, 0;
      totalNodes := net.totalNodes;
      maxBufferSize, linkCapacity := MaxBufferSize, 1.0;
      currentCycle, currentInjectionRate := 0, 0.0;
      metrics := new Metrics();
      var buffers := EmptyQueues(net.totalNodes);
      nodeBuffers := buffers;
      linkUtilization := map[];
    }

    /** `Simulator(networkSizeX, networkSizeY)`: an empty queue for each node of the grid, fresh metrics. */
    constructor Mesh(networkSizeX: nat, networkSizeY: nat)
      ensures !isHypercubeMode && this.networkSizeX == networkSizeX && this.networkSizeY == networkSizeY
      ensures totalNodes == networkSizeX * networkSizeY
      ensures Valid() && fresh(metrics) && metrics.View() == Initial()
      ensures nodeBuffers == EmptyBuffers(totalNodes) && linkUtilization == map[]
      ensures currentCycle == 0 && currentInjectionRate == 0.0
    {
      isHypercubeMode, dimension := false, 0;
      this.networkSizeX, this.networkSizeY := networkSizeX, networkSizeY;
      totalNodes := networkSizeX * networkSizeY;
      maxBufferSize, linkCapacity := MaxBufferSize, 1.0;
      currentCycle, currentInjectionRate := 0, 0.0;
      metrics := new Metrics();
      var buffers := EmptyQueues(networkSizeX * networkSizeY);
      nodeBuffers := buffers;
      linkUtilization := map[];
    }

    /** The loop of the constructors: `nodeBuffers[node] = std::queue<Packet*>()` for every node. */
    static method EmptyQueues(totalNodes: nat) returns (buffers: Buffers)
      ensures buffers == EmptyBuffers(totalNodes)
    {
      buffers := map[];
      var nodeId := 0;
      while nodeId < totalNodes
        invariant 0 <= nodeId <= totalNodes
        invariant buffers == EmptyBuffers(nodeId)
      {
        buffers := buffers[nodeId := []];
        nodeId := nodeId + 1;
      }
    }

    /** `reset`: the cycle back to 0, every queue emptied, no link load, the metrics as new. */
    method Reset()
      requires Valid()
      modifies this, metrics
      ensures Valid()
      ensures nodeBuffers == EmptyBuffers(totalNodes) && linkUtilization == map[] && currentCycle == 0
      ensures currentInjectionRate == old(currentInjectionRate)
      ensures metrics.View() == Initial()
    {
      currentCycle := 0;
      var buffers := nodeBuffers;
      var nodeId := 0;
      while nodeId < totalNodes
        invariant 0 <= nodeId <= totalNodes
        invariant buffers.Keys == nodeBuffers.Keys
        invariant forall k :: k in buffers ==> buffers[k] == (if k < nodeId then [] else nodeBuffers[k])
      {
        buffers := buffers[nodeId := []];
        nodeId := nodeId + 1;
      }
      assert buffers == EmptyBuffers(totalNodes);
      nodeBuffers := buffers;
      linkUtilization := map[];
      metrics.Reset();
    }

    /** `updateCurrentCycle` */
    method UpdateCurrentCycle(cycle: int)
      requires Valid()
      modifies this
      ensures Valid() && currentCycle == cycle
      ensures nodeBuffers == old(nodeBuffers) && linkUtilization == old(linkUtilization)
      ensures currentInjectionRate == old(currentInjectionRate)
    {
      currentCycle := cycle;
    }

    /**
     * The packet node `nodeId` injects: one exactly when the coin falls below
     * the rate and the loop draws another node of the network. It starts at
     * its source, without hops, stamped with the current cycle.
     */
    function Injected(nodeId: NodeId, draw: Draw, rate: real, cycle: int): (p: Option<Packet<NodeId>>)
      ensures p.Some? <==> draw.coin < rate && FirstOther(draw.candidates, nodeId).Some?
                           && 0 <= FirstOther(draw.candidates, nodeId).value < totalNodes
      ensures p.Some? ==> p.value.sourceId == nodeId && p.value.destinationId != nodeId
                          && p.value.hopCount == 0 && p.value.injectionTime == cycle
                          && Some(p.value.destinationId) == FirstOther(draw.candidates, nodeId)
      ensures p.Some? ==> InPlace(p.value, nodeId, totalNodes)
    {
      if draw.coin < rate then
        match FirstOther(draw.candidates, nodeId)
        case Some(d) => if 0 <= d < totalNodes then Some(NewPacket(nodeId, d as nat, cycle)) else None
        case None => None
      else None
    }

    /** The packets of all nodes, indexed by node. */
    function Injections(draws: seq<Draw>, rate: real, cycle: int): (s: seq<Option<Packet<NodeId>>>)
      ensures |s| == |draws|
      ensures forall k :: 0 <= k < |draws| ==> s[k] == Injected(k, draws[k], rate, cycle)
    {
      seq(|draws|, k requires 0 <= k < |draws| => Injected(k, draws[k], rate, cycle))
    }

    /** On a network of one node the model injects nothing, whatever the coin, instead of drawing forever. */
    lemma SingleNodeInjectsNothing(draws: seq<Draw>, rate: real, cycle: int)
      requires totalNodes == 1 && |draws| == 1
      requires forall i :: 0 <= i < |draws[0].candidates| ==> 0 <= draws[0].candidates[i] < totalNodes
      ensures Injected(0, draws[0], rate, cycle) == None
      ensures CountSome(Injections(draws, rate, cycle)) == 0
    {
      SingleNodeDrawsNeverEnd(draws[0].candidates);
      CountSomeZero(Injections(draws, rate, cycle));
    }

    /** No node injects anything while the rate is at most every coin, in particular at rate 0 with coins in `[0, 1]`. */
    lemma NothingInjectedBelowCoins(draws: seq<Draw>, rate: real, cycle: int)
      requires forall i :: 0 <= i < |draws| ==> rate <= draws[i].coin
      ensures CountSome(Injections(draws, rate, cycle)) == 0
    {
      CountSomeZero(Injections(draws, rate, cycle));
    }

    /** Every packet injected sits at its source and heads for another node of the network. */
    lemma InjectionsPlaced(draws: seq<Draw>, rate: real, cycle: int)
      ensures PlacedAtSource(Injections(draws, rate, cycle), totalNodes)
    {
    }

    /**
     * `injectPackets`: every node, in order, appends the packet its draw
     * yields to its own queue; the result is the number of packets injected.
     */
    method InjectPackets(injectionRate: real, draws: seq<Draw>) returns (totalInjected: int)
      requires Valid() && |draws| == totalNodes
      modifies this
      ensures Valid()
      ensures nodeBuffers.Keys == old(nodeBuffers).Keys
      ensures forall k :: k in nodeBuffers ==>
                nodeBuffers[k] == old(nodeBuffers)[k] + Queued(Injected(k, draws[k], injectionRate, currentCycle))
      ensures totalInjected == CountSome(Injections(draws, injectionRate, currentCycle))
      ensures BufferedCount(nodeBuffers, totalNodes) == BufferedCount(old(nodeBuffers), totalNodes) + totalInjected
      ensures linkUtilization == old(linkUtilization) && currentCycle == old(currentCycle)
      ensures currentInjectionRate == old(currentInjectionRate)
    {
      ghost var injections := Injections(draws, injectionRate, currentCycle);
      var buffers;
      buffers, totalInjected := InjectionLoop(injectionRate, draws);
      assert injections[..totalNodes] == injections;
      AppendedCount(nodeBuffers, injections, totalNodes, totalNodes);
      InjectionsPlaced(draws, injectionRate, currentCycle);
      AppendedPlaced(nodeBuffers, injections, totalNodes, totalNodes);
      nodeBuffers := buffers;
    }

    /** The node loop of `injectPackets`, on a copy of the queues. */
    method InjectionLoop(injectionRate: real, draws: seq<Draw>) returns (buffers: Buffers, totalInjected: int)
      requires |draws| == totalNodes && WellPlaced(nodeBuffers, totalNodes)
      requires isHypercubeMode || totalNodes == networkSizeX * networkSizeY
      ensures buffers == Appended(nodeBuffers, Injections(draws, injectionRate, currentCycle), totalNodes)
      ensures totalInjected == CountSome(Injections(draws, injectionRate, currentCycle)[..totalNodes])
    {
      ghost var injections := Injections(draws, injectionRate, currentCycle);
      totalInjected := 0;
      buffers := nodeBuffers;
      var nodeId := 0;
      AppendedNothing(nodeBuffers, injections);
      while nodeId < totalNodes
        invariant 0 <= nodeId <= totalNodes
        invariant buffers == Appended(nodeBuffers, injections, nodeId)
        invariant totalInjected == CountSome(injections[..nodeId])
      {
        var packet := InjectAt(nodeId, injectionRate, draws[nodeId]);
        InjectionStep(nodeBuffers, injections, nodeId, buffers, totalInjected);
        if packet.Some? {
          buffers := buffers[nodeId := buffers[nodeId] + [packet.value]];
          totalInjected := totalInjected + 1;
        }
        nodeId := nodeId + 1;
      }
    }

    /** One node's turn in `injectPackets`: the coin, the destination loop and the existence test. */
    method InjectAt(nodeId: NodeId, injectionRate: real, draw: Draw) returns (packet: Option<Packet<NodeId>>)
      requires isHypercubeMode || totalNodes == networkSizeX * networkSizeY
      ensures packet == Injected(nodeId, draw, injectionRate, currentCycle)
    {
      packet := None;
      if draw.coin < injectionRate {
        var destination := DrawDestination(draw.candidates, nodeId);
        if destination.Some? {
          MeshDestinationExistsIsRange(networkSizeX, networkSizeY, totalNodes, destination.value);
        }
        if destination.Some? && DestinationExists(isHypercubeMode, networkSizeX, networkSizeY, totalNodes, destination.value) {
          packet := Some(NewPacket(nodeId, destination.value as nat, currentCycle));
        }
      }
    }

    /** `calculateNetworkUtilization`, adding up the buffers node by node and the links entry by entry. */
    method CalculateNetworkUtilization() returns (u: real)
      ensures u == NetworkUtilization(nodeBuffers, totalNodes, linkUtilization, currentInjectionRate)
    {
      var totalBufferUtilization := 0.0;
      var nodeId := 0;
      while nodeId < totalNodes
        invariant 0 <= nodeId <= totalNodes
        invariant totalBufferUtilization == BufferUtilizationSum(nodeBuffers, nodeId)
      {
        if nodeId in nodeBuffers {
          totalBufferUtilization := totalBufferUtilization + |nodeBuffers[nodeId]| as real / MaxBufferSize as real;
        }
        nodeId := nodeId + 1;
      }
      var totalLinkUtilization := 0.0;
      var totalLinks := 0;
      var remaining := linkUtilization.Keys;
      while remaining != {}
        invariant remaining <= linkUtilization.Keys
        invariant totalLinkUtilization + LinkLoad(linkUtilization, remaining) == LinkLoad(linkUtilization, linkUtilization.Keys)
        invariant totalLinks + |remaining| == |linkUtilization|
        decreases remaining
      {
        var key :| key in remaining;
        LinkLoadRemove(linkUtilization, remaining, key);
        totalLinkUtilization := totalLinkUtilization + linkUtilization[key] as real / 3.0;
        totalLinks := totalLinks + 1;
        remaining := remaining - {key};
      }
      u := Utilization(totalBufferUtilization, totalNodes, totalLinkUtilization, totalLinks, currentInjectionRate);
    }

    /** `calculateQueuingDelay`: the utilisation of the current state, then the delay formula. */
    method CalculateQueuingDelay(packet: Packet<NodeId>) returns (delay: real)
      ensures delay == QueuingDelay(packet.hopCount, NetworkUtilization(nodeBuffers, totalNodes, linkUtilization, currentInjectionRate),
                                    currentInjectionRate, BufferDelayOf(nodeBuffers, packet))
    {
      var u := CalculateNetworkUtilization();
      delay := QueuingDelay(packet.hopCount, u, currentInjectionRate, BufferDelayOf(nodeBuffers, packet));
    }

    /**
     * The front packet of node `nodeId` has arrived: it leaves the queue, and
     * its latency, computed from the state after it left, and its hops are
     * recorded.
     */
    method Retire(nodeId: NodeId) returns (latency: real, hops: int)
      requires Valid() && nodeId in nodeBuffers && nodeBuffers[nodeId] != []
      modifies this, metrics
      ensures Valid() && nodeBuffers == old(nodeBuffers)[nodeId := old(nodeBuffers)[nodeId][1..]]
      ensures linkUtilization == old(linkUtilization) && currentCycle == old(currentCycle)
      ensures currentInjectionRate == old(currentInjectionRate)
      ensures hops == old(nodeBuffers)[nodeId][0].hopCount
      ensures latency == if isHypercubeMode
                         then HypercubeLatencyIn(nodeBuffers, totalNodes, linkUtilization, currentInjectionRate, currentCycle, old(nodeBuffers)[nodeId][0])
                         else MeshLatencyIn(nodeBuffers, totalNodes, linkUtilization, currentInjectionRate, currentCycle, old(nodeBuffers)[nodeId][0])
      ensures metrics.View() == RecordHopCount(RecordPacketLatency(old(metrics.View()), latency), hops)
      ensures MetricsGrew(old(metrics.View()), metrics.View(), 1)
      ensures BufferedCount(nodeBuffers, totalNodes) + 1 == BufferedCount(old(nodeBuffers), totalNodes)
    {
      var packet := PopFront(nodeId);
      latency, hops := Account(packet);
    }

    /** The latency and hops of a packet that has left its queue, recorded in the metrics. */
    method Account(packet: Packet<NodeId>) returns (latency: real, hops: int)
      requires packet.hopCount >= 0 && Consistent(metrics.View())
      modifies metrics
      ensures hops == packet.hopCount
      ensures latency == if isHypercubeMode
                         then HypercubeLatencyIn(nodeBuffers, totalNodes, linkUtilization, currentInjectionRate, currentCycle, packet)
                         else MeshLatencyIn(nodeBuffers, totalNodes, linkUtilization, currentInjectionRate, currentCycle, packet)
      ensures metrics.View() == RecordHopCount(RecordPacketLatency(old(metrics.View()), latency), hops)
      ensures MetricsGrew(old(metrics.View()), metrics.View(), 1) && Consistent(metrics.View())
    {
      latency := RetireLatency(packet);
      hops := packet.hopCount;
      RecordRetired(latency, hops);
    }

    /** `nodeBuffers[currentNode].pop()` */
    method PopFront(nodeId: NodeId) returns (packet: Packet<NodeId>)
      requires Valid() && nodeId in nodeBuffers && nodeBuffers[nodeId] != []
      modifies this
      ensures Valid() && packet == old(nodeBuffers)[nodeId][0]
      ensures nodeBuffers == old(nodeBuffers)[nodeId := old(nodeBuffers)[nodeId][1..]]
      ensures linkUtilization == old(linkUtilization) && currentCycle == old(currentCycle)
      ensures currentInjectionRate == old(currentInjectionRate)
      ensures BufferedCount(nodeBuffers, totalNodes) + 1 == BufferedCount(old(nodeBuffers), totalNodes)
    {
      packet := nodeBuffers[nodeId][0];
      WellPlacedPop(nodeBuffers, totalNodes, nodeId);
      nodeBuffers := nodeBuffers[nodeId := nodeBuffers[nodeId][1..]];
    }

    /** The latency of a retired packet, from the current state, by the formula of the mode. */
    method RetireLatency(packet: Packet<NodeId>) returns (latency: real)
      requires packet.hopCount >= 0
      ensures latency == if isHypercubeMode
                         then HypercubeLatencyIn(nodeBuffers, totalNodes, linkUtilization, currentInjectionRate, currentCycle, packet)
                         else MeshLatencyIn(nodeBuffers, totalNodes, linkUtilization, currentInjectionRate, currentCycle, packet)
      ensures latency >= 15.0
    {
      var queuingDelay := CalculateQueuingDelay(packet);
      if isHypercubeMode {
        var networkUtil := CalculateNetworkUtilization();
        latency := HypercubeRetireLatency(currentCycle, packet.injectionTime, packet.hopCount, networkUtil, queuingDelay, currentInjectionRate);
      } else {
        latency := MeshRetireLatency(currentCycle, packet.injectionTime, packet.hopCount, queuingDelay);
      }
    }

    /** `recordPacketLatency` and `recordHopCount` for a retired packet. */
    method RecordRetired(latency: real, hops: int)
      requires latency >= 15.0 && Consistent(metrics.View())
      modifies metrics
      ensures metrics.View() == RecordHopCount(RecordPacketLatency(old(metrics.View()), latency), hops)
      ensures MetricsGrew(old(metrics.View()), metrics.View(), 1) && Consistent(metrics.View())
    {
      RetireGrows(metrics.View(), latency, hops);
      metrics.RecordPacketLatency(latency);
      metrics.RecordHopCount(hops);
    }

    /** Node `nodeId` forwards its front packet to `next`, and the link `(nodeId, next)` carries one more packet. */
    method Forward(nodeId: NodeId, next: NodeId)
      requires Valid() && nodeId in nodeBuffers && next in nodeBuffers && nodeBuffers[nodeId] != [] && nodeId != next
      modifies this
      ensures Valid() && nodeBuffers == MovedTo(old(nodeBuffers), nodeId, next)
      ensures linkUtilization == Bump(old(linkUtilization), (nodeId, next))
      ensures currentCycle == old(currentCycle) && currentInjectionRate == old(currentInjectionRate)
      ensures BufferedCount(nodeBuffers, totalNodes) == BufferedCount(old(nodeBuffers), totalNodes)
    {
      MovedToKeeps(nodeBuffers, totalNodes, nodeId, next);
      nodeBuffers := MovedTo(nodeBuffers, nodeId, next);
      linkUtilization := Bump(linkUtilization, (nodeId, next));
    }

    /**
     * One visit of node `nodeId` in a hypercube round of `routePackets`. An
     * empty queue is passed over. A front packet at its destination retires.
     * Any other goes to its e-cube next hop, unless the queue there is full or
     * the link has already carried `capacity` packets this cycle; either block
     * is a congestion event. `bandwidth` is `linkBandwidthUsed`.
     */
    method VisitHypercube(nodeId: NodeId, capacity: int, bandwidth: map<LinkKey, nat>) returns (visit: Visit, used: map<LinkKey, nat>)
      requires Valid() && isHypercubeMode && nodeId < totalNodes
      modifies this, metrics
      ensures Valid() && currentCycle == old(currentCycle) && currentInjectionRate == old(currentInjectionRate)
      ensures visit.Idle? <==> old(nodeBuffers)[nodeId] == []
      ensures !visit.Moved? ==> used == bandwidth && linkUtilization == old(linkUtilization)
      ensures visit.Idle? || visit.Blocked? ==> nodeBuffers == old(nodeBuffers)
      ensures visit.Idle? || visit.Moved? ==> metrics.View() == old(metrics.View())
      ensures visit.Retired? ==>
                && old(nodeBuffers)[nodeId][0].destinationId == nodeId
                && nodeBuffers == old(nodeBuffers)[nodeId := old(nodeBuffers)[nodeId][1..]]
                && visit.hops == old(nodeBuffers)[nodeId][0].hopCount
                && visit.latency == HypercubeLatencyIn(nodeBuffers, totalNodes, linkUtilization, currentInjectionRate, currentCycle,
                                                       old(nodeBuffers)[nodeId][0])
                && metrics.View() == RecordHopCount(RecordPacketLatency(old(metrics.View()), visit.latency), visit.hops)
      ensures visit.Moved? || visit.Blocked? ==>
                && old(nodeBuffers)[nodeId][0].destinationId != nodeId
                && NextHopHypercube(dimension, nodeId, old(nodeBuffers)[nodeId][0].destinationId as nat) == Some(visit.next)
                && visit.next < totalNodes
      ensures visit.Moved? ==>
                && |old(nodeBuffers)[visit.next]| < maxBufferSize && Used(bandwidth, (nodeId, visit.next)) < capacity
                && nodeBuffers == MovedTo(old(nodeBuffers), nodeId, visit.next)
                && used == Bump(bandwidth, (nodeId, visit.next))
                && linkUtilization == Bump(old(linkUtilization), (nodeId, visit.next))
      ensures visit.Blocked? ==>
                && (|old(nodeBuffers)[visit.next]| >= maxBufferSize || Used(bandwidth, (nodeId, visit.next)) >= capacity)
                && metrics.View() == RecordCongestionEvent(old(metrics.View()))
      ensures MetricsGrew(old(metrics.View()), metrics.View(), if visit.Retired? then 1 else 0)
      ensures BufferedCount(nodeBuffers, totalNodes) + (if visit.Retired? then 1 else 0) == BufferedCount(old(nodeBuffers), totalNodes)
    {
      used := bandwidth;
      MetricsGrewStays(metrics.View());
      if nodeBuffers[nodeId] == [] {
        visit := Idle;
        return;
      }
      var packet := nodeBuffers[nodeId][0].SetCurrentNode(Some(nodeId));
      assert packet == nodeBuffers[nodeId][0];
      if packet.destinationNode == Some(nodeId) {
        var latency, hops := Retire(nodeId);
        visit := Retired(latency, hops);
        return;
      }
      var destination := packet.destinationNode.value;
      NextHopHypercubeIsEcube(dimension, nodeId, destination);
      var next := NextHopHypercube(dimension, nodeId, destination).value;
      var linkKey := (nodeId, next);
      if |nodeBuffers[next]| >= maxBufferSize {
        RecordCongestion();
        visit := Blocked(next);
      } else if Used(bandwidth, linkKey) >= capacity {
        RecordCongestion();
        visit := Blocked(next);
      } else {
        Forward(nodeId, next);
        used := Bump(bandwidth, linkKey);
        visit := Moved(next);
      }
    }

    /** `recordCongestionEvent` */
    method RecordCongestion()
      requires Consistent(metrics.View())
      modifies metrics
      ensures metrics.View() == RecordCongestionEvent(old(metrics.View()))
      ensures MetricsGrew(old(metrics.View()), metrics.View(), 0) && Consistent(metrics.View())
    {
      CongestionGrowsNothing(metrics.View());
      metrics.RecordCongestionEvent();
    }

    /**
     * One visit of node `nodeId` in a mesh round of `routePackets`. An empty
     * queue is passed over. A front packet at its destination retires. Any
     * other goes one step along `x`, then `y`, toward its destination, unless
     * the queue there is full or the link has already carried two packets
     * this cycle; a block records nothing.
     */
    method VisitMesh(nodeId: NodeId) returns (visit: Visit)
      requires Valid() && !isHypercubeMode && nodeId < totalNodes
      modifies this, metrics
      ensures Valid() && currentCycle == old(currentCycle) && currentInjectionRate == old(currentInjectionRate)
      ensures visit.Idle? <==> old(nodeBuffers)[nodeId] == []
      ensures !visit.Moved? ==> linkUtilization == old(linkUtilization)
      ensures !visit.Retired? ==> metrics.View() == old(metrics.View())
      ensures visit.Idle? || visit.Blocked? ==> nodeBuffers == old(nodeBuffers)
      ensures visit.Retired? ==>
                && old(nodeBuffers)[nodeId][0].destinationId == nodeId
                && nodeBuffers == old(nodeBuffers)[nodeId := old(nodeBuffers)[nodeId][1..]]
                && visit.hops == old(nodeBuffers)[nodeId][0].hopCount
                && visit.latency == MeshLatencyIn(nodeBuffers, totalNodes, linkUtilization, currentInjectionRate, currentCycle,
                                                  old(nodeBuffers)[nodeId][0])
                && metrics.View() == RecordHopCount(RecordPacketLatency(old(metrics.View()), visit.latency), visit.hops)
      ensures visit.Moved? || visit.Blocked? ==>
                && old(nodeBuffers)[nodeId][0].destinationId != nodeId
                && networkSizeY > 0
                && NextHopMeshId(networkSizeX, networkSizeY, nodeId, old(nodeBuffers)[nodeId][0].destinationId as nat) == Some(visit.next as int)
                && visit.next < totalNodes
      ensures visit.Moved? ==>
                && |old(nodeBuffers)[visit.next]| < maxBufferSize && Used(old(linkUtilization), (nodeId, visit.next)) < MeshLinkCapacity
                && nodeBuffers == MovedTo(old(nodeBuffers), nodeId, visit.next)
                && linkUtilization == Bump(old(linkUtilization), (nodeId, visit.next))
      ensures visit.Blocked? ==>
                |old(nodeBuffers)[visit.next]| >= maxBufferSize || Used(old(linkUtilization), (nodeId, visit.next)) >= MeshLinkCapacity
      ensures MetricsGrew(old(metrics.View()), metrics.View(), if visit.Retired? then 1 else 0)
      ensures BufferedCount(nodeBuffers, totalNodes) + (if visit.Retired? then 1 else 0) == BufferedCount(old(nodeBuffers), totalNodes)
    {
      MetricsGrewStays(metrics.View());
      if nodeBuffers[nodeId] == [] {
        visit := Idle;
        return;
      }
      var packet := nodeBuffers[nodeId][0].SetCurrentNode(Some(nodeId));
      assert packet == nodeBuffers[nodeId][0];
      if packet.destinationNode == Some(nodeId) {
        var latency, hops := Retire(nodeId);
        visit := Retired(latency, hops);
        return;
      }
      var destination := packet.destinationNode.value;
      NextHopMeshIdStep(networkSizeX, networkSizeY, nodeId, destination);
      var next := NextHopMeshId(networkSizeX, networkSizeY, nodeId, destination).value as nat;
      var linkKey := (nodeId, next);
      if |nodeBuffers[next]| >= maxBufferSize {
        visit := Blocked(next);
      } else if Used(linkUtilization, linkKey) >= MeshLinkCapacity {
        visit := Blocked(next);
      } else {
        Forward(nodeId, next);
        visit := Moved(next);
      }
    }

    /**
     * One hypercube round of `routePackets`: the nodes in order, while fewer
     * than `maxGlobal` packets have retired or moved this cycle. Every link
     * stays within `capacity`; `retired` packets leave and `moved` are
     * forwarded one hop, each counted once against the global budget, and no
     * node acts more than once.
     */
    method HypercubeRound(capacity: int, maxGlobal: int, bandwidth: map<LinkKey, nat>, movedBefore: int)
      returns (used: map<LinkKey, nat>, globalPacketsMoved: int, ghost retired: nat, ghost moved: nat)
      requires Valid() && isHypercubeMode && bandwidth == linkUtilization
      requires 0 <= movedBefore <= Max(maxGlobal, 0)
      requires forall key :: key in linkUtilization ==> linkUtilization[key] <= capacity
      modifies this, metrics
      ensures Valid() && currentCycle == old(currentCycle) && currentInjectionRate == old(currentInjectionRate)
      ensures used == linkUtilization && forall key :: key in linkUtilization ==> linkUtilization[key] <= capacity
      ensures movedBefore <= globalPacketsMoved <= Max(maxGlobal, 0) && retired + moved == globalPacketsMoved - movedBefore
      ensures retired + moved <= totalNodes
      ensures BufferedCount(nodeBuffers, totalNodes) + retired == BufferedCount(old(nodeBuffers), totalNodes)
      ensures MetricsGrew(old(metrics.View()), metrics.View(), retired)
    {
      used, globalPacketsMoved, retired, moved := bandwidth, movedBefore, 0, 0;
      MetricsGrewStays(metrics.View());
      var nodeId := 0;
      while nodeId < totalNodes && globalPacketsMoved < maxGlobal
        invariant 0 <= nodeId <= totalNodes
        invariant Valid() && used == linkUtilization
        invariant currentCycle == old(currentCycle) && currentInjectionRate == old(currentInjectionRate)
        invariant forall key :: key in linkUtilization ==> linkUtilization[key] <= capacity
        invariant movedBefore <= globalPacketsMoved <= Max(maxGlobal, 0) && retired + moved == globalPacketsMoved - movedBefore
        invariant retired + moved <= nodeId
        invariant BufferedCount(nodeBuffers, totalNodes) + retired == BufferedCount(old(nodeBuffers), totalNodes)
        invariant MetricsGrew(old(metrics.View()), metrics.View(), retired)
      {
        ghost var before := metrics.View();
        var visit;
        visit, used := VisitHypercube(nodeId, capacity, used);
        if visit.Retired? || visit.Moved? {
          globalPacketsMoved := globalPacketsMoved + 1;
        }
        ghost var r: nat := if visit.Retired? then 1 else 0;
        MetricsGrewTransitive(old(metrics.View()), before, metrics.View(), retired, r);
        retired := retired + r;
        moved := moved + if visit.Moved? then 1 else 0;
        nodeId := nodeId + 1;
      }
    }

    /**
     * The hypercube mode of `routePackets`: `rounds` rounds sharing one link
     * budget and one global budget, which the packets retired and the hops
     * forwarded share.
     */
    method RouteHypercube(capacity: int, rounds: nat, maxGlobal: int) returns (ghost retired: nat, ghost moved: nat)
      requires Valid() && isHypercubeMode && linkUtilization == map[]
      modifies this, metrics
      ensures Valid() && currentCycle == old(currentCycle) && currentInjectionRate == old(currentInjectionRate)
      ensures forall key :: key in linkUtilization ==> linkUtilization[key] <= capacity
      ensures retired + moved <= Max(maxGlobal, 0) && retired + moved <= rounds * totalNodes
      ensures BufferedCount(nodeBuffers, totalNodes) + retired == BufferedCount(old(nodeBuffers), totalNodes)
      ensures MetricsGrew(old(metrics.View()), metrics.View(), retired)
    {
      var linkBandwidthUsed: map<LinkKey, nat> := map[];
      var globalPacketsMoved := 0;
      retired, moved := 0, 0;
      MetricsGrewStays(metrics.View());
      var round := 0;
      while round < rounds
        invariant 0 <= round <= rounds
        invariant Valid() && linkBandwidthUsed == linkUtilization
        invariant currentCycle == old(currentCycle) && currentInjectionRate == old(currentInjectionRate)
        invariant forall key :: key in linkUtilization ==> linkUtilization[key] <= capacity
        invariant retired + moved == globalPacketsMoved <= Max(maxGlobal, 0)
        invariant retired + moved <= round * totalNodes
        invariant BufferedCount(nodeBuffers, totalNodes) + retired == BufferedCount(old(nodeBuffers), totalNodes)
        invariant MetricsGrew(old(metrics.View()), metrics.View(), retired)
      {
        ghost var before := metrics.View();
        ghost var r, m;
        linkBandwidthUsed, globalPacketsMoved, r, m := HypercubeRound(capacity, maxGlobal, linkBandwidthUsed, globalPacketsMoved);
        MetricsGrewTransitive(old(metrics.View()), before, metrics.View(), retired, r);
        retired, moved := retired + r, moved + m;
        assert (round + 1) * totalNodes == round * totalNodes + totalNodes;
        round := round + 1;
      }
    }

    /**
     * One mesh round of `routePackets`: the nodes in order; every link stays
     * within two packets; `retired` packets leave and `moved` are forwarded
     * one hop, and no node acts more than once.
     */
    method MeshRound() returns (ghost retired: nat, ghost moved: nat)
      requires Valid() && !isHypercubeMode
      requires forall key :: key in linkUtilization ==> linkUtilization[key] <= MeshLinkCapacity
      modifies this, metrics
      ensures Valid() && currentCycle == old(currentCycle) && currentInjectionRate == old(currentInjectionRate)
      ensures forall key :: key in linkUtilization ==> linkUtilization[key] <= MeshLinkCapacity
      ensures retired + moved <= totalNodes
      ensures BufferedCount(nodeBuffers, totalNodes) + retired == BufferedCount(old(nodeBuffers), totalNodes)
      ensures MetricsGrew(old(metrics.View()), metrics.View(), retired)
    {
      retired, moved := 0, 0;
      MetricsGrewStays(metrics.View());
      var nodeId := 0;
      while nodeId < totalNodes
        invariant 0 <= nodeId <= totalNodes
        invariant Valid()
        invariant currentCycle == old(currentCycle) && currentInjectionRate == old(currentInjectionRate)
        invariant forall key :: key in linkUtilization ==> linkUtilization[key] <= MeshLinkCapacity
        invariant retired + moved <= nodeId
        invariant BufferedCount(nodeBuffers, totalNodes) + retired == BufferedCount(old(nodeBuffers), totalNodes)
        invariant MetricsGrew(old(metrics.View()), metrics.View(), retired)
      {
        ghost var before := metrics.View();
        var visit := VisitMesh(nodeId);
        ghost var r: nat := if visit.Retired? then 1 else 0;
        MetricsGrewTransitive(old(metrics.View()), before, metrics.View(), retired, r);
        retired := retired + r;
        moved := moved + if visit.Moved? then 1 else 0;
        nodeId := nodeId + 1;
      }
    }

    /** The mesh mode of `routePackets`: two rounds. */
    method RouteMesh() returns (ghost retired: nat, ghost moved: nat)
      requires Valid() && !isHypercubeMode && linkUtilization == map[]
      modifies this, metrics
      ensures Valid() && currentCycle == old(currentCycle) && currentInjectionRate == old(currentInjectionRate)
      ensures forall key :: key in linkUtilization ==> linkUtilization[key] <= MeshLinkCapacity
      ensures retired + moved <= MeshRoutingRounds * totalNodes
      ensures BufferedCount(nodeBuffers, totalNodes) + retired == BufferedCount(old(nodeBuffers), totalNodes)
      ensures MetricsGrew(old(metrics.View()), metrics.View(), retired)
    {
      retired, moved := 0, 0;
      MetricsGrewStays(metrics.View());
      var round := 0;
      while round < MeshRoutingRounds
        invariant 0 <= round <= MeshRoutingRounds
        invariant Valid()
        invariant currentCycle == old(currentCycle) && currentInjectionRate == old(currentInjectionRate)
        invariant forall key :: key in linkUtilization ==> linkUtilization[key] <= MeshLinkCapacity
        invariant retired + moved <= round * totalNodes
        invariant BufferedCount(nodeBuffers, totalNodes) + retired == BufferedCount(old(nodeBuffers), totalNodes)
        invariant MetricsGrew(old(metrics.View()), metrics.View(), retired)
      {
        ghost var before := metrics.View();
        ghost var r, m := MeshRound();
        MetricsGrewTransitive(old(metrics.View()), before, metrics.View(), retired, r);
        retired, moved := retired + r, moved + m;
        assert (round + 1) * totalNodes == round * totalNodes + totalNodes;
        round := round + 1;
      }
    }

    /**
     * `routePackets`: the link loads start from nothing; the packets that
     * retire leave the network and have their latencies, each at least 15,
     * appended; every other packet stays queued; no link carries more than
     * the cycle's link capacity; in hypercube mode the packets retired and
     * the hops forwarded (`moved`) together stay within the global budget.
     */
    method RoutePackets() returns (ghost retired: nat, ghost moved: nat)
      requires Valid()
      modifies this, metrics
      ensures Valid() && currentCycle == old(currentCycle) && currentInjectionRate == old(currentInjectionRate)
      ensures BufferedCount(nodeBuffers, totalNodes) + retired == BufferedCount(old(nodeBuffers), totalNodes)
      ensures MetricsGrew(old(metrics.View()), metrics.View(), retired)
      ensures isHypercubeMode ==> forall key :: key in linkUtilization ==> linkUtilization[key] <= DynamicLinkCapacity(currentInjectionRate)
      ensures !isHypercubeMode ==> forall key :: key in linkUtilization ==> linkUtilization[key] <= MeshLinkCapacity
      ensures isHypercubeMode ==> retired + moved <= MaxGlobalPackets(BaseGlobalCapacity(totalNodes), currentInjectionRate)
      ensures isHypercubeMode ==> retired + moved <= RoutingRounds(currentInjectionRate) * totalNodes
      ensures !isHypercubeMode ==> retired + moved <= MeshRoutingRounds * totalNodes
    {
      linkUtilization := map[];
      var dynamicLinkCapacity := DynamicLinkCapacity(currentInjectionRate);
      var maxGlobalPacketsPerCycle := MaxGlobalPackets(BaseGlobalCapacity(totalNodes), currentInjectionRate);
      if isHypercubeMode {
        var routingRounds := RoutingRounds(currentInjectionRate);
        retired, moved := RouteHypercube(dynamicLinkCapacity, routingRounds, maxGlobalPacketsPerCycle);
      } else {
        retired, moved := RouteMesh();
      }
    }

    /**
     * The warm-up of `runSimulation`: each cycle injects, then routes, the
     * cycle `c` using the draws `draws[c]`. Every packet injected is still
     * queued or has retired.
     */
    method WarmUp(injectionRate: real, warmupCycles: int, draws: seq<seq<Draw>>) returns (ghost injected: nat, ghost retired: nat)
      requires Valid() && currentInjectionRate == injectionRate
      requires |draws| == Max(warmupCycles, 0) && forall c :: 0 <= c < |draws| ==> |draws[c]| == totalNodes
      modifies this, metrics
      ensures Valid() && currentInjectionRate == injectionRate
      ensures BufferedCount(nodeBuffers, totalNodes) + retired == BufferedCount(old(nodeBuffers), totalNodes) + injected
      ensures MetricsGrew(old(metrics.View()), metrics.View(), retired)
    {
      injected, retired := 0, 0;
      MetricsGrewStays(metrics.View());
      var cycle := 0;
      while cycle < warmupCycles
        invariant 0 <= cycle <= |draws|
        invariant Valid() && currentInjectionRate == injectionRate
        invariant BufferedCount(nodeBuffers, totalNodes) + retired == BufferedCount(old(nodeBuffers), totalNodes) + injected
        invariant MetricsGrew(old(metrics.View()), metrics.View(), retired)
      {
        UpdateCurrentCycle(cycle);
        var injectedThisCycle := InjectPackets(injectionRate, draws[cycle]);
        ghost var before := metrics.View();
        ghost var r, m := RoutePackets();
        MetricsGrewTransitive(old(metrics.View()), before, metrics.View(), retired, r);
        injected, retired := injected + injectedThisCycle, retired + r;
        cycle := cycle + 1;
      }
    }

    /**
     * One measured cycle of `runSimulation`: cycle `cycle` injects with the
     * draws `draws`, then routes; `receivedThisCycle` is the growth of
     * `getPacketCount`, the packets that retired in the cycle.
     */
    method MeasureCycle(injectionRate: real, cycle: int, draws: seq<Draw>) returns (injectedThisCycle: int, receivedThisCycle: int)
      requires Valid() && currentInjectionRate == injectionRate && |draws| == totalNodes
      requires metrics.View().isMeasurementPhase && metrics.View().flitThroughputs == []
      requires LatenciesFloored(metrics.View())
      modifies this, metrics
      ensures Valid() && currentInjectionRate == injectionRate
      ensures metrics.View().isMeasurementPhase && metrics.View().flitThroughputs == []
      ensures LatenciesFloored(metrics.View())
      ensures receivedThisCycle >= 0 && |metrics.View().packetLatencies| == |old(metrics.View()).packetLatencies| + receivedThisCycle
      ensures BufferedCount(nodeBuffers, totalNodes) + receivedThisCycle == BufferedCount(old(nodeBuffers), totalNodes) + injectedThisCycle
    {
      UpdateCurrentCycle(cycle);
      injectedThisCycle := InjectPackets(injectionRate, draws);
      var packetsBeforeRouting := metrics.GetPacketCount();
      ghost var before := metrics.View();
      ghost var r, m := RoutePackets();
      MetricsGrewKeepsFloor(before, metrics.View(), r);
      var packetsAfterRouting := metrics.GetPacketCount();
      receivedThisCycle := packetsAfterRouting - packetsBeforeRouting;
    }

    /**
     * The measurement cycles of `runSimulation`, numbered on from the
     * warm-up. `received` holds the packets received in each cycle run; the
     * counters are the final run of consecutive cycles that received nothing
     * and the final run of consecutive cycles that received under 60% of the
     * expected packets. The loop stops early exactly at the first cycle where
     * more than a fifth of the cycles in a row received nothing. Every packet
     * injected is still queued or has been received, and every latency
     * recorded is at least 15.
     */
    method Measure(injectionRate: real, warmupCycles: int, measurementCycles: int, draws: seq<seq<Draw>>)
      returns (totalPacketsInjected: int, lowThroughputCycles: int, consecutiveZeroReceived: int, ghost received: seq<int>)
      requires Valid() && currentInjectionRate == injectionRate
      requires |draws| == Max(measurementCycles, 0) && forall c :: 0 <= c < |draws| ==> |draws[c]| == totalNodes
      requires metrics.View().isMeasurementPhase && metrics.View().packetLatencies == [] && metrics.View().flitThroughputs == []
      modifies this, metrics
      ensures Valid() && currentInjectionRate == injectionRate
      ensures metrics.View().isMeasurementPhase && metrics.View().flitThroughputs == []
      ensures LatenciesFloored(metrics.View())
      ensures BufferedCount(nodeBuffers, totalNodes) + |metrics.View().packetLatencies|
              == BufferedCount(old(nodeBuffers), totalNodes) + totalPacketsInjected
      ensures lowThroughputCycles >= 0 && consecutiveZeroReceived >= 0
      ensures |received| <= Max(measurementCycles, 0)
      ensures consecutiveZeroReceived == ZeroRun(received)
      ensures lowThroughputCycles == LowRun(received, ExpectedPackets(injectionRate, totalNodes))
      ensures RanOn(received, measurementCycles)
      ensures |received| < measurementCycles ==> StopsEarly(received, measurementCycles)
      ensures (forall c :: 0 <= c < |received| ==> received[c] >= 0) && SumInts(received) == |metrics.View().packetLatencies|
    {
      totalPacketsInjected, lowThroughputCycles, consecutiveZeroReceived := 0, 0, 0;
      received := [];
      ghost var expected, packetCount := ExpectedPackets(injectionRate, totalNodes), 0;
      var cycle := 0;
      while cycle < measurementCycles
        invariant 0 <= cycle <= |draws|
        invariant Valid() && currentInjectionRate == injectionRate
        invariant metrics.View().isMeasurementPhase && metrics.View().flitThroughputs == []
        invariant LatenciesFloored(metrics.View())
        invariant BufferedCount(nodeBuffers, totalNodes) + |metrics.View().packetLatencies|
                  == BufferedCount(old(nodeBuffers), totalNodes) + totalPacketsInjected
        invariant |received| == cycle && packetCount == |metrics.View().packetLatencies|
        invariant CountersAgree(received, lowThroughputCycles, consecutiveZeroReceived, expected, measurementCycles, packetCount)
        invariant received != [] ==> !StopsEarly(received, measurementCycles)
      {
        var injectedThisCycle, receivedThisCycle := MeasureCycle(injectionRate, warmupCycles + cycle, draws[cycle]);
        totalPacketsInjected := totalPacketsInjected + injectedThisCycle;
        var stop;
        lowThroughputCycles, consecutiveZeroReceived, stop :=
          Tally(received, packetCount, lowThroughputCycles, consecutiveZeroReceived, receivedThisCycle, injectionRate, totalNodes,
                measurementCycles);
        received, packetCount := received + [receivedThisCycle], packetCount + receivedThisCycle;
        if stop {
          break;
        }
        cycle := cycle + 1;
      }
    }

    /**
     * The end of `runSimulation`: the throughput of the received packets,
     * clamped to the network capacity, is recorded; the saturation verdict
     * is set from it, the mean packet delay and the counters; the
     * measurement ends.
     */
    method Conclude(injectionRate: real, config: Config, lowThroughputCycles: int, consecutiveZeroReceived: int)
      requires Consistent(metrics.View()) && metrics.View().isMeasurementPhase
      modifies metrics
      ensures Consistent(metrics.View())
      ensures var s := metrics.View();
              && !s.isMeasurementPhase
              && s.packetLatencies == old(metrics.View()).packetLatencies
              && s.flitThroughputs == old(metrics.View()).flitThroughputs
                                      + [ReportedThroughput(|s.packetLatencies|, config.packetSizeFlits, config.measurementCycles,
                                                            totalNodes as real, injectionRate)]
              && s.saturated == RunSaturated(|s.packetLatencies|,
                                             if s.packetLatencies == [] then -1.0 else Mean(s.packetLatencies),
                                             ReportedThroughput(|s.packetLatencies|, config.packetSizeFlits, config.measurementCycles,
                                                                totalNodes as real, injectionRate),
                                             injectionRate, config.packetSizeFlits, lowThroughputCycles, consecutiveZeroReceived,
                                             config.measurementCycles)
    {
      var totalPacketsReceived := metrics.GetPacketCount();
      var flitsPerPacket := config.packetSizeFlits;
      var actualThroughput := ReportedThroughput(totalPacketsReceived, flitsPerPacket, config.measurementCycles, totalNodes as real, injectionRate);
      metrics.RecordFlitThroughput(actualThroughput);
      var avgLatency := metrics.GetAveragePacketDelay();
      var isSaturated := RunSaturated(totalPacketsReceived, avgLatency, actualThroughput, injectionRate, flitsPerPacket,
                                      lowThroughputCycles, consecutiveZeroReceived, config.measurementCycles);
      metrics.SetSaturated(isSaturated);
      metrics.EndMeasurement();
    }

    /**
     * `runSimulation`: from a reset state, the warm-up cycles and then the
     * measured ones at `injectionRate`, cycle `c` using the draws `draws[c]`.
     * Afterwards the measurement phase is over, every packet latency of the
     * measurement is at least 15, the one flit throughput recorded is that of
     * the packets received, and the verdict follows the received count, the
     * mean packet latency and the counters: in particular a run that
     * received nothing, or whose mean latency exceeds 300, is saturated.
     * The counters are the final runs of consecutive measured cycles, in
     * `received`, that received nothing or under 60% of the expected packets.
     */
    method RunSimulation(injectionRate: real, config: Config, draws: seq<seq<Draw>>)
      returns (ghost lowThroughputCycles: int, ghost consecutiveZeroReceived: int, ghost received: seq<int>)
      requires Valid()
      requires |draws| == Max(config.warmupCycles, 0) + Max(config.measurementCycles, 0)
      requires forall c :: 0 <= c < |draws| ==> |draws[c]| == totalNodes
      modifies this, metrics
      ensures Valid() && currentInjectionRate == injectionRate
      ensures var s := metrics.View();
              && !s.isMeasurementPhase
              && (forall i :: 0 <= i < |s.packetLatencies| ==> s.packetLatencies[i] >= 15.0)
              && s.flitThroughputs == [ReportedThroughput(|s.packetLatencies|, config.packetSizeFlits, config.measurementCycles,
                                                          totalNodes as real, injectionRate)]
              && s.saturated == RunSaturated(|s.packetLatencies|,
                                             if s.packetLatencies == [] then -1.0 else Mean(s.packetLatencies),
                                             ReportedThroughput(|s.packetLatencies|, config.packetSizeFlits, config.measurementCycles,
                                                                totalNodes as real, injectionRate),
                                             injectionRate, config.packetSizeFlits, lowThroughputCycles, consecutiveZeroReceived,
                                             config.measurementCycles)
      ensures metrics.View().packetLatencies == [] ==> metrics.View().saturated
      ensures metrics.View().packetLatencies != [] && Mean(metrics.View().packetLatencies) > 300.0 ==> metrics.View().saturated
      ensures |received| <= Max(config.measurementCycles, 0) && SumInts(received) == |metrics.View().packetLatencies|
      ensures consecutiveZeroReceived == ZeroRun(received)
      ensures lowThroughputCycles == LowRun(received, ExpectedPackets(injectionRate, totalNodes))
      ensures RanOn(received, config.measurementCycles)
      ensures |received| < config.measurementCycles ==> StopsEarly(received, config.measurementCycles)
    {
      Reset();
      currentInjectionRate := injectionRate;
      var warmupCycles := config.warmupCycles;
      var measurementCycles := config.measurementCycles;
      ghost var injected, retired := WarmUp(injectionRate, warmupCycles, draws[..Max(warmupCycles, 0)]);
      metrics.StartMeasurement();
      var totalPacketsInjected, low, zero;
      totalPacketsInjected, low, zero, received := Measure(injectionRate, warmupCycles, measurementCycles, draws[Max(warmupCycles, 0)..]);
      lowThroughputCycles, consecutiveZeroReceived := low, zero;
      Conclude(injectionRate, config, low, zero);
    }
  }
}
