/**
 * The computations the simulation engine (src/simulator/simulator.cpp) makes
 * without changing anything: node numbering of the mesh, the two next-hop
 * rules, the capacity schedule of `routePackets`, the delay and latency
 * formulas, the network utilisation, the throughput clamp and the saturation
 * verdict of `runSimulation`. The engine addresses nodes by their number: a
 * hypercube node by its id, a mesh node `(x, y)` by `x * sizeY + y`.
 */
module EngineRules {
  import opened Wrappers
  import opened Bits
  import opened Messages
  import opened Hypercube
  import opened ECube
  import Mesh
  import opened Statistics

  type NodeId = nat
  /** `nodeBuffers`: the queue of each node, front first. */
  type Buffers = map<NodeId, seq<Packet<NodeId>>>
  /** A directed pair `(current, next)` of `linkUtilization` and `linkBandwidthUsed`. */
  type LinkKey = (NodeId, NodeId)

  /** `maxBufferSize`, fixed by both constructors. */
  const MaxBufferSize: nat := 8

  // ------------------------------------------------------------------ mesh numbering

  /** A mesh position `(x, y)`. */
  type Position = (int, int)

  /** `network->getNode(x, y)` finds a node exactly inside the grid. */
  predicate InGrid(sizeX: nat, sizeY: nat, p: Position)
  {
    0 <= p.0 < sizeX && 0 <= p.1 < sizeY
  }

  /** `nodeId = x * networkSizeY + y` */
  function MeshNodeId(sizeY: nat, p: Position): int
  {
    p.0 * sizeY + p.1
  }

  /** `(destinationId / networkSizeY, destinationId % networkSizeY)` on a non-negative id. */
  function MeshPosition(sizeY: nat, id: nat): Position
    requires sizeY > 0
  {
    (id / sizeY, id % sizeY)
  }

  /** A grid position has a number below `sizeX * sizeY`, and its number gives the position back. */
  lemma MeshNumberingIsInjective(sizeX: nat, sizeY: nat, p: Position)
    requires InGrid(sizeX, sizeY, p)
    ensures 0 <= MeshNodeId(sizeY, p) < sizeX * sizeY
    ensures MeshPosition(sizeY, MeshNodeId(sizeY, p) as nat) == p
  {
    var (x, y) := p;
    MultiplyBelow(x, sizeX - 1, sizeY);
    DivisionUnique(x * sizeY + y, sizeY, x, y);
  }

  /** A number below `sizeX * sizeY` is the number of the grid position it decodes to. */
  lemma MeshNumberingIsSurjective(sizeX: nat, sizeY: nat, id: nat)
    requires id < sizeX * sizeY
    ensures sizeY > 0 && InGrid(sizeX, sizeY, MeshPosition(sizeY, id))
    ensures MeshNodeId(sizeY, MeshPosition(sizeY, id)) == id
  {
    var x := id / sizeY;
    if x >= sizeX {
      MultiplyBelow(sizeX, x, sizeY);
    }
  }

  lemma MultiplyBelow(a: int, b: int, c: nat)
    requires a <= b
    ensures a * c <= b * c
  {
  }

  lemma DivisionUnique(n: int, d: nat, q: int, r: int)
    requires d > 0 && n == q * d + r && 0 <= r < d
    ensures n / d == q && n % d == r
  {
    var k := n / d - q;
    assert k * d == r - n % d;
    if k >= 1 {
      MultiplyBelow(1, k, d);
    } else if k <= -1 {
      MultiplyBelow(k, -1, d);
    }
  }

  function Manhattan(a: Position, b: Position): nat
  {
    Mesh.Abs(a.0 - b.0) + Mesh.Abs(a.1 - b.1)
  }

  // ------------------------------------------------------------------ next hops

  /** One unit from `from` toward `to`. */
  function Toward(from: int, to: int): int
  {
    if from < to then from + 1 else from - 1
  }

  /**
   * `calculateNextHop` on mesh positions: one unit along X while X differs and
   * that neighbour exists, else one unit along Y, else nothing at the
   * destination and the destination itself otherwise.
   */
  function NextHopMesh(sizeX: nat, sizeY: nat, current: Position, destination: Position): Option<Position>
  {
    var stepX := (Toward(current.0, destination.0), current.1);
    var stepY := (current.0, Toward(current.1, destination.1));
    if current.0 != destination.0 && InGrid(sizeX, sizeY, stepX) then Some(stepX)
    else if current.1 != destination.1 && InGrid(sizeX, sizeY, stepY) then Some(stepY)
    else if current == destination then None
    else Some(destination)
  }

  /**
   * Inside the grid the mesh rule is dimension-ordered and minimal: nothing
   * exactly at the destination, otherwise a grid neighbour one unit closer,
   * along X while X differs and along Y only once X agrees.
   */
  lemma NextHopMeshStep(sizeX: nat, sizeY: nat, current: Position, destination: Position)
    requires InGrid(sizeX, sizeY, current) && InGrid(sizeX, sizeY, destination)
    ensures var r := NextHopMesh(sizeX, sizeY, current, destination);
            && (r.None? <==> current == destination)
            && (r.Some? ==> InGrid(sizeX, sizeY, r.value) && Manhattan(r.value, destination) + 1 == Manhattan(current, destination))
            && (current.0 != destination.0 ==> r == Some((Toward(current.0, destination.0), current.1)))
            && (current.0 == destination.0 && current.1 != destination.1 ==> r == Some((current.0, Toward(current.1, destination.1))))
  {
  }

  /** The positions the mesh rule visits from `current` to `destination`. */
  function MeshRoute(sizeX: nat, sizeY: nat, current: Position, destination: Position): (route: seq<Position>)
    requires InGrid(sizeX, sizeY, current) && InGrid(sizeX, sizeY, destination)
    ensures |route| == Manhattan(current, destination) + 1
    ensures route[0] == current && route[|route| - 1] == destination
    ensures forall i :: 0 <= i < |route| ==> InGrid(sizeX, sizeY, route[i])
    decreases Manhattan(current, destination)
  {
    NextHopMeshStep(sizeX, sizeY, current, destination);
    if current == destination then [current]
    else [current] + MeshRoute(sizeX, sizeY, NextHopMesh(sizeX, sizeY, current, destination).value, destination)
  }

  /** Every hop of the mesh route is the mesh rule applied to the previous position, so the rule reaches the destination in Manhattan-distance hops. */
  lemma {:induction false} MeshRouteFollowsRule(sizeX: nat, sizeY: nat, current: Position, destination: Position)
    requires InGrid(sizeX, sizeY, current) && InGrid(sizeX, sizeY, destination)
    ensures forall i :: 0 <= i < |MeshRoute(sizeX, sizeY, current, destination)| - 1 ==>
              NextHopMesh(sizeX, sizeY, MeshRoute(sizeX, sizeY, current, destination)[i], destination)
              == Some(MeshRoute(sizeX, sizeY, current, destination)[i + 1])
    decreases Manhattan(current, destination)
  {
    NextHopMeshStep(sizeX, sizeY, current, destination);
    if current != destination {
      var next := NextHopMesh(sizeX, sizeY, current, destination).value;
      var route, rest := MeshRoute(sizeX, sizeY, current, destination), MeshRoute(sizeX, sizeY, next, destination);
      MeshRouteFollowsRule(sizeX, sizeY, next, destination);
      assert route == [current] + rest;
      forall i | 0 <= i < |route| - 1
        ensures NextHopMesh(sizeX, sizeY, route[i], destination) == Some(route[i + 1])
      {
        if i > 0 {
          assert route[i] == rest[i - 1] && route[i + 1] == rest[i];
          assert NextHopMesh(sizeX, sizeY, rest[i - 1], destination) == Some(rest[i]);
        } else {
          assert route[1] == rest[0] == next;
        }
      }
    }
  }

  /** The mesh rule on node numbers, as `routePackets` applies it to the nodes `currentNode` and `destNode`. */
  function NextHopMeshId(sizeX: nat, sizeY: nat, current: nat, destination: nat): Option<int>
    requires sizeY > 0
  {
    match NextHopMesh(sizeX, sizeY, MeshPosition(sizeY, current), MeshPosition(sizeY, destination))
    case Some(p) => Some(MeshNodeId(sizeY, p))
    case None => None
  }

  /**
   * Between nodes of the grid the mesh rule on numbers gives nothing exactly
   * at the destination, and otherwise another node of the grid one unit
   * closer to it.
   */
  lemma NextHopMeshIdStep(sizeX: nat, sizeY: nat, current: nat, destination: nat)
    requires current < sizeX * sizeY && destination < sizeX * sizeY
    ensures sizeY > 0
    ensures var r := NextHopMeshId(sizeX, sizeY, current, destination);
            && (r.None? <==> current == destination)
            && (r.Some? ==> 0 <= r.value < sizeX * sizeY && r.value != current
                            && Manhattan(MeshPosition(sizeY, r.value as nat), MeshPosition(sizeY, destination)) + 1
                               == Manhattan(MeshPosition(sizeY, current), MeshPosition(sizeY, destination)))
  {
    MeshNumberingIsSurjective(sizeX, sizeY, current);
    MeshNumberingIsSurjective(sizeX, sizeY, destination);
    var a, b := MeshPosition(sizeY, current), MeshPosition(sizeY, destination);
    NextHopMeshStep(sizeX, sizeY, a, b);
    var r := NextHopMesh(sizeX, sizeY, a, b);
    if r.Some? {
      MeshNumberingIsInjective(sizeX, sizeY, r.value);
    } else {
      assert current == MeshNodeId(sizeY, a) == MeshNodeId(sizeY, b) == destination;
    }
  }

  /**
   * `calculateNextHopHypercube` on node ids of an `n`-cube: the neighbour
   * across the lowest dimension whose coordinates differ, nothing at the
   * destination, and the destination itself when no coordinate differs.
   */
  function NextHopHypercube(n: nat, current: nat, destination: nat): Option<nat>
  {
    var d := LowestDifference(Coordinates(n, current), Coordinates(n, destination));
    if d >= 0 then Some(Xor(current, Pow2(d)))
    else if current == destination then None
    else Some(destination)
  }

  /**
   * On ids of the cube the hypercube rule is the E-cube step: nothing exactly
   * at the destination, otherwise the next node of the E-cube route, one bit
   * closer to the destination.
   */
  lemma NextHopHypercubeIsEcube(n: nat, current: nat, destination: nat)
    requires current < Pow2(n) && destination < Pow2(n)
    ensures var r := NextHopHypercube(n, current, destination);
            && (r.None? <==> current == destination)
            && (r.Some? ==> r.value < Pow2(n) && r.value == EcubeRoute(n, current, destination)[1]
                            && Popcount(Xor(r.value, destination)) + 1 == Popcount(Xor(current, destination)))
  {
    if current == destination {
      assert LowestDifference(Coordinates(n, current), Coordinates(n, destination)) == -1;
    } else {
      StepCloser(n, current, destination);
      EcubeRouteUnfold(n, current, destination);
    }
  }

  // ------------------------------------------------------------------ capacity schedule of routePackets

  /** `static_cast<int>` of a double: truncation toward zero. */
  function Truncate(v: real): (r: int)
    ensures v >= 0.0 ==> r as real <= v < r as real + 1.0
    ensures v < 0.0 ==> r as real - 1.0 < v <= r as real
  {
    if v >= 0.0 then v.Floor else -((-v).Floor)
  }

  lemma TruncateMonotone(u: real, v: real)
    requires u <= v
    ensures Truncate(u) <= Truncate(v)
  {
  }

  function Max(a: int, b: int): int
  {
    if a < b then b else a
  }

  /** `dynamicLinkCapacity`: 3 up to a rate of 0.15, then cut down linearly, never below 1. */
  function DynamicLinkCapacity(rate: real): (c: int)
    ensures 1 <= c <= 3
    ensures rate <= 0.15 ==> c == 3
    ensures rate > 0.15 ==> c <= 2
  {
    if rate > 0.15 then
      var overload := (rate - 0.15) / 0.08;
      Max(1, Truncate(3.0 * (1.0 - overload * 0.7)))
    else 3
  }

  /** A higher injection rate never raises the link capacity. */
  lemma DynamicLinkCapacityFalls(rate1: real, rate2: real)
    requires rate1 <= rate2
    ensures DynamicLinkCapacity(rate2) <= DynamicLinkCapacity(rate1)
  {
    if rate1 > 0.15 {
      TruncateMonotone(3.0 * (1.0 - (rate2 - 0.15) / 0.08 * 0.7), 3.0 * (1.0 - (rate1 - 0.15) / 0.08 * 0.7));
    }
  }

  /** `baseGlobalCapacity`: half the nodes. */
  function BaseGlobalCapacity(totalNodes: nat): nat
  {
    totalNodes / 2
  }

  /** `maxGlobalPacketsPerCycle`: the base up to a rate of 0.16, then cut down linearly, never below a sixth of it. */
  function MaxGlobalPackets(base: nat, rate: real): (m: int)
    ensures base / 6 <= m <= base
    ensures rate <= 0.16 ==> m == base
  {
    if rate > 0.16 then
      var overload := (rate - 0.16) / 0.06;
      var cut := base as real * (1.0 - overload * 0.8);
      assert cut <= base as real;
      Max(base / 6, Truncate(cut))
    else base
  }

  /** `routingRounds` of the hypercube mode: 3, then 2 above a rate of 0.15, then 1 above 0.18. */
  function RoutingRounds(rate: real): (rounds: nat)
    ensures 1 <= rounds <= 3
    ensures rounds == 3 <==> rate <= 0.15
    ensures rounds == 1 <==> rate > 0.18
  {
    if rate > 0.18 then 1 else if rate > 0.15 then 2 else 3
  }

  /** The mesh mode always routes twice and lets a directed link carry two hops per call. */
  const MeshRoutingRounds: nat := 2
  const MeshLinkCapacity: nat := 2

  // ------------------------------------------------------------------ delays and latencies

  /** `x` multiplied by itself `k` times, as the delay formulas write out. */
  function Power(x: real, k: nat): real
  {
    if k == 0 then 1.0 else x * Power(x, k - 1)
  }

  lemma {:induction false} PowerNonNegative(x: real, k: nat)
    ensures x >= 0.0 ==> Power(x, k) >= 0.0
  {
    if k > 0 {
      PowerNonNegative(x, k - 1);
      MultiplyNonNegative(x, Power(x, k - 1));
    }
  }

  lemma MultiplyNonNegative(a: real, b: real)
    ensures a >= 0.0 && b >= 0.0 ==> a * b >= 0.0
  {
  }

  /** A square is never negative and grows with a non-negative base. */
  lemma SquareBelow(a: real, b: real)
    ensures a * a >= 0.0
    ensures 0.0 <= a <= b ==> a * a <= b * b
  {
    if a < 0.0 { MultiplyNonNegative(-a, -a); } else { MultiplyNonNegative(a, a); }
    if 0.0 <= a <= b {
      MultiplyNonNegative(a, b - a);
      MultiplyNonNegative(b, b - a);
    }
  }

  /**
   * `calculateBufferDelay` for a buffer filled to `utilization`
   * (`size / maxBufferSize`): a piecewise penalty that is never negative and,
   * for a buffer at most full, at most 27 cycles.
   */
  function BufferDelay(utilization: real): (delay: real)
    ensures utilization >= 0.0 ==> delay >= 0.0
    ensures 0.0 <= utilization <= 1.0 ==> delay <= 27.0
  {
    var u := utilization;
    if u > 0.85 then
      SquareBelow(u - 0.85, 0.15);
      (u - 0.85) * (u - 0.85) * 1200.0
    else if u > 0.7 then
      SquareBelow(u - 0.7, 0.15);
      (u - 0.7) * (u - 0.7) * 500.0
    else if u > 0.5 then
      SquareBelow(u - 0.5, 0.2);
      (u - 0.5) * (u - 0.5) * 200.0
    else if u > 0.3 then (u - 0.3) * 100.0
    else if u > 0.15 then (u - 0.15) * 30.0
    else u * 15.0
  }

  /** The part of `calculateQueuingDelay` driven by the injection pressure `rate / 0.08`. */
  function SystemDelay(rate: real): (delay: real)
    ensures rate >= 0.0 ==> delay >= 0.0
  {
    var p := rate / 0.08;
    if p > 2.2 then
      PowerNonNegative(p - 2.2, 5);
      300.0 + Power(p - 2.2, 5) * 400.0
    else if p > 1.8 then
      PowerNonNegative(p - 1.8, 4);
      150.0 + Power(p - 1.8, 4) * 375.0
    else if p > 1.4 then
      PowerNonNegative(p - 1.4, 3);
      60.0 + Power(p - 1.4, 3) * 225.0
    else if p > 1.25 then
      PowerNonNegative(p - 1.25, 3);
      30.0 + Power(p - 1.25, 3) * 200.0
    else if p > 1.0 then
      PowerNonNegative(p - 1.0, 2);
      15.0 + Power(p - 1.0, 2) * 60.0
    else if p > 0.6 then 5.0 + (p - 0.6) * 25.0
    else p * 8.33
  }

  /** The part of `calculateQueuingDelay` driven by the network utilisation. */
  function CongestionDelay(utilization: real): (delay: real)
    ensures delay >= 0.0
  {
    var u := utilization;
    if u > 0.6 then
      PowerNonNegative((u - 0.6) / 0.4, 5);
      Power((u - 0.6) / 0.4, 5) * 200.0
    else if u > 0.4 then
      PowerNonNegative((u - 0.4) / 0.2, 4);
      Power((u - 0.4) / 0.2, 4) * 100.0
    else if u > 0.25 then
      PowerNonNegative((u - 0.25) / 0.15, 3);
      Power((u - 0.25) / 0.15, 3) * 50.0
    else if u > 0.1 then
      PowerNonNegative((u - 0.1) / 0.15, 2);
      Power((u - 0.1) / 0.15, 2) * 25.0
    else 0.0
  }

  /** The part of `calculateQueuingDelay` that sets in above a rate of 0.10. */
  function ThresholdEffect(rate: real): (delay: real)
    ensures delay >= 0.0
  {
    if rate > 0.10 then
      PowerNonNegative((rate - 0.10) / 0.05, 5);
      Power((rate - 0.10) / 0.05, 5) * 120.0
    else 0.0
  }

  /**
   * `calculateQueuingDelay` of a packet with `hops` hops, at network
   * utilisation `utilization`, injection rate `rate`, with the buffer delay of
   * its node: never below `4 + 5 * hops` when nothing it is given is negative.
   */
  function QueuingDelay(hops: int, utilization: real, rate: real, bufferDelay: real): (delay: real)
    ensures hops >= 0 && utilization >= 0.0 && rate >= 0.0 && bufferDelay >= 0.0 ==>
              delay >= 4.0 + 5.0 * hops as real
  {
    var base := 4.0 + hops as real * 2.0;
    var hopPenalty := hops as real * (3.0 + Power(utilization, 3) * 15.0);
    PowerNonNegative(utilization, 3);
    MultiplyNonNegative(hops as real, Power(utilization, 3) * 15.0);
    base + SystemDelay(rate) + CongestionDelay(utilization) + bufferDelay + hopPenalty + ThresholdEffect(rate)
  }

  /**
   * The latency a packet retired in hypercube mode is recorded with: the
   * network latency plus four cycles per hop, scaled by the congestion
   * multiplier, plus queuing delay and system overhead, but never below
   * `18 + 3 * hops`.
   */
  function HypercubeRetireLatency(cycle: int, injectionTime: int, hops: int, utilization: real, queuing: real, rate: real)
    : (latency: real)
    ensures latency >= 18.0 + hops as real * 3.0
  {
    var networkLatency := (cycle - injectionTime) as real;
    var transmission := hops as real * 4.0;
    var multiplier := 1.0 + Power(utilization, 3) * 8.0;
    var overhead := if rate > 0.12 then Power((rate - 0.12) / 0.12, 4) * 50.0 else 0.0;
    var total := (networkLatency + transmission) * multiplier + queuing + overhead;
    var minimum := 18.0 + hops as real * 3.0;
    if total < minimum then minimum else total
  }

  /**
   * The latency a packet retired in mesh mode is recorded with: network
   * latency, five cycles per hop and queuing delay, replaced by
   * `15 + 5 * hops` when below 15, so never below 15 for a packet that has
   * not gone backwards in hops.
   */
  function MeshRetireLatency(cycle: int, injectionTime: int, hops: int, queuing: real): (latency: real)
    ensures hops >= 0 ==> latency >= 15.0
    ensures latency >= 15.0 || latency == 15.0 + hops as real * 5.0
  {
    var total := (cycle - injectionTime) as real + hops as real * 5.0 + queuing;
    if total < 15.0 then 15.0 + hops as real * 5.0 else total
  }

  // ------------------------------------------------------------------ network utilisation

  /** Buffer utilisation summed over the nodes `0 .. n - 1` that have a buffer. */
  function BufferUtilizationSum(buffers: Buffers, n: nat): (sum: real)
    ensures sum >= 0.0
  {
    if n == 0 then 0.0
    else BufferUtilizationSum(buffers, n - 1)
         + (if n - 1 in buffers then |buffers[n - 1]| as real / MaxBufferSize as real else 0.0)
  }

  ghost function PickLink(keys: set<LinkKey>): (k: LinkKey)
    requires keys != {}
    ensures k in keys
  {
    var k :| k in keys; k
  }

  /** `pair.second / 3.0` summed over the entries of `linkUtilization` whose keys are in `keys`. */
  ghost function LinkLoad(links: map<LinkKey, nat>, keys: set<LinkKey>): (load: real)
    requires keys <= links.Keys
    ensures load >= 0.0
    decreases keys
  {
    if keys == {} then 0.0
    else
      var k := PickLink(keys);
      links[k] as real / 3.0 + LinkLoad(links, keys - {k})
  }

  /** The load of a set of entries does not depend on the order they are added up in. */
  lemma {:induction false} LinkLoadRemove(links: map<LinkKey, nat>, keys: set<LinkKey>, k: LinkKey)
    requires keys <= links.Keys && k in keys
    ensures LinkLoad(links, keys) == links[k] as real / 3.0 + LinkLoad(links, keys - {k})
    decreases |keys|
  {
    var j := PickLink(keys);
    if j != k {
      LinkLoadRemove(links, keys - {j}, k);
      LinkLoadRemove(links, keys - {k}, j);
      assert keys - {j} - {k} == keys - {k} - {j};
    }
  }

  /** `std::min(combinedUtil + injectionPressure, 1.0)`, from the sums `calculateNetworkUtilization` accumulates. */
  function Utilization(bufferSum: real, totalNodes: int, linkSum: real, totalLinks: int, rate: real): (u: real)
    ensures u <= 1.0
    ensures bufferSum >= 0.0 && linkSum >= 0.0 && rate >= 0.0 ==> u >= 0.0
  {
    var avgBuffer := if totalNodes > 0 then bufferSum / totalNodes as real else 0.0;
    var avgLink := if totalLinks > 0 then linkSum / totalLinks as real else 0.0;
    var combined := 0.8 * avgBuffer + 0.2 * avgLink;
    var factor := rate / 0.15;
    var pressure := Power(factor, 3) * 0.2;
    PowerNonNegative(factor, 3);
    var u := combined + pressure;
    if 1.0 < u then 1.0 else u
  }

  /** The utilisation of buffers and links: never above 1, never below 0 at a non-negative rate. */
  ghost function NetworkUtilization(buffers: Buffers, totalNodes: nat, links: map<LinkKey, nat>, rate: real): (u: real)
    ensures u <= 1.0
    ensures rate >= 0.0 ==> u >= 0.0
  {
    Utilization(BufferUtilizationSum(buffers, totalNodes), totalNodes, LinkLoad(links, links.Keys), |links|, rate)
  }

  // ------------------------------------------------------------------ the verdict of runSimulation

  /** A double as `std::min`/`std::max` see it after the throughput division. */
  datatype Double = Finite(value: real) | PlusInfinity | MinusInfinity | NotANumber

  /** `num / den` in IEEE arithmetic. */
  function Divide(num: real, den: real): Double
  {
    if den != 0.0 then Finite(num / den)
    else if num > 0.0 then PlusInfinity
    else if num < 0.0 then MinusInfinity
    else NotANumber
  }

  /** `std::max(0.0, std::min(x, cap))`, where `std::min(a, b)` is `b < a ? b : a` and every comparison with NaN is false. */
  function ClampThroughput(x: Double, cap: real): (t: real)
    ensures 0.0 <= t && (t <= cap || t == 0.0)
    ensures x.Finite? && 0.0 <= x.value <= cap ==> t == x.value
  {
    var low: Double := match x
      case Finite(v) => if cap < v then Finite(cap) else x
      case PlusInfinity => Finite(cap)
      case MinusInfinity => x
      case NotANumber => x;
    match low
      case Finite(v) => if 0.0 < v then v else 0.0
      case PlusInfinity => 0.0
      case MinusInfinity => 0.0
      case NotANumber => 0.0
  }

  /** `maxNetworkCapacity`: 0.75 up to a rate of 0.16, then cut down linearly (it may go below zero). */
  function MaxNetworkCapacity(rate: real): (cap: real)
    ensures cap <= 0.75
    ensures rate <= 0.16 ==> cap == 0.75
  {
    if rate > 0.16 then 0.75 * (1.0 - (rate - 0.16) / 0.06 * 0.6) else 0.75
  }

  /**
   * The throughput `runSimulation` records: received flits per cycle and
   * node, clamped to `[0, max(0, maxNetworkCapacity)]`.
   */
  function ReportedThroughput(received: int, flitsPerPacket: int, measurementCycles: int, totalNodes: real, rate: real)
    : (t: real)
    ensures 0.0 <= t && (t <= MaxNetworkCapacity(rate) || t == 0.0)
  {
    ClampThroughput(Divide((received * flitsPerPacket) as real, measurementCycles as real * totalNodes),
                    MaxNetworkCapacity(rate))
  }

  /**
   * The saturation verdict of `runSimulation`: no packet received, a mean
   * delay above 300, low throughput with a delay above 60, or too many
   * low-throughput or blocked cycles.
   */
  function RunSaturated(received: int, avgLatency: real, throughput: real, rate: real, flitsPerPacket: int,
                        lowThroughputCycles: int, consecutiveZeroReceived: int, measurementCycles: int): (saturated: bool)
    ensures received == 0 ==> saturated
    ensures avgLatency > 300.0 ==> saturated
    ensures saturated && received != 0 && avgLatency <= 300.0 ==>
              (throughput < rate * flitsPerPacket as real * 0.7 && avgLatency > 60.0)
              || lowThroughputCycles as real > measurementCycles as real * 0.2
              || consecutiveZeroReceived as real > measurementCycles as real * 0.15
    ensures ((throughput < rate * flitsPerPacket as real * 0.7 && avgLatency > 60.0)
             || lowThroughputCycles as real > measurementCycles as real * 0.2
             || consecutiveZeroReceived as real > measurementCycles as real * 0.15) ==> saturated
  {
    if received == 0 then true
    else if avgLatency > 300.0 then true
    else if throughput < rate * flitsPerPacket as real * 0.7 && avgLatency > 60.0 then true
    else if lowThroughputCycles as real > measurementCycles as real * 0.2 then true
    else consecutiveZeroReceived as real > measurementCycles as real * 0.15
  }

  // ---- the counters of the measurement loop (simulator.cpp, runSimulation)

  /**
   * The number of cycles that received nothing at the end of the first `n`
   * cycles of `received`: those cycles all received 0 and the cycle before
   * them, if any, did not.
   */
  function ZeroRunTo(received: seq<int>, n: nat): (r: nat)
    requires n <= |received|
    ensures r <= n
    ensures forall i :: n - r <= i < n ==> received[i] == 0
    ensures r < n ==> received[n - 1 - r] != 0
  {
    if n == 0 then 0
    else if received[n - 1] == 0 then ZeroRunTo(received, n - 1) + 1
    else 0
  }

  /** The number of cycles at the end of `received` that received nothing. */
  function ZeroRun(received: seq<int>): (n: nat)
    ensures n <= |received|
    ensures forall i :: |received| - n <= i < |received| ==> received[i] == 0
    ensures n < |received| ==> received[|received| - 1 - n] != 0
  {
    ZeroRunTo(received, |received|)
  }

  /** A later cycle does not change the zero run at an earlier point. */
  lemma {:induction false} ZeroRunToAppend(received: seq<int>, x: int, n: nat)
    requires n <= |received|
    ensures ZeroRunTo(received + [x], n) == ZeroRunTo(received, n)
  {
    if n > 0 {
      ZeroRunToAppend(received, x, n - 1);
    }
  }

  /** The packets `runSimulation` expects per measured cycle: the injection rate times the node count. */
  function ExpectedPackets(rate: real, totalNodes: nat): (expected: real)
    ensures rate >= 0.0 ==> expected >= 0.0
  {
    rate * totalNodes as real
  }

  /** A cycle counts as low throughput when it received under 60% of `expected`. */
  predicate LowCycle(receivedThisCycle: int, expected: real)
  {
    (receivedThisCycle as real) < expected * 0.6
  }

  /**
   * The number of low-throughput cycles at the end of `received`: those
   * cycles are all low and the cycle before them, if any, is not.
   */
  function LowRun(received: seq<int>, expected: real): (n: nat)
    ensures n <= |received|
    ensures forall i :: |received| - n <= i < |received| ==> LowCycle(received[i], expected)
    ensures n < |received| ==> !LowCycle(received[|received| - 1 - n], expected)
  {
    if received == [] then 0
    else if LowCycle(received[|received| - 1], expected) then LowRun(received[..|received| - 1], expected) + 1
    else 0
  }

  /**
   * One more cycle: the zero run grows on a cycle that received nothing and
   * restarts otherwise, and likewise the low run on a low cycle.
   */
  lemma RunsStep(received: seq<int>, x: int, expected: real)
    ensures ZeroRun(received + [x]) == if x == 0 then ZeroRun(received) + 1 else 0
    ensures LowRun(received + [x], expected) == if LowCycle(x, expected) then LowRun(received, expected) + 1 else 0
  {
    ZeroRunToAppend(received, x, |received|);
    assert (received + [x])[..|received|] == received;
  }

  /** The early stop of the measurement: more than a fifth of the cycles in a row received nothing. */
  predicate StopsEarly(received: seq<int>, measurementCycles: int)
  {
    ZeroRun(received) as real > measurementCycles as real * 0.2
  }

  /** No cycle before the last one of `received` met the early stop. */
  predicate RanOn(received: seq<int>, measurementCycles: int)
  {
    forall k :: 0 < k < |received| ==> ZeroRunTo(received, k) as real <= measurementCycles as real * 0.2
  }

  /** A cycle that did not stop the loop keeps every cycle before the next one clear of the early stop. */
  lemma {:induction false} RanOnStep(received: seq<int>, x: int, measurementCycles: int)
    requires RanOn(received, measurementCycles)
    requires received != [] ==> !StopsEarly(received, measurementCycles)
    ensures RanOn(received + [x], measurementCycles)
  {
    forall k | 0 < k < |received + [x]|
      ensures ZeroRunTo(received + [x], k) as real <= measurementCycles as real * 0.2
    {
      ZeroRunToAppend(received, x, k);
    }
  }

  /**
   * The state the measurement loop keeps about the cycles it ran: the
   * counters are the final runs over `received`, no earlier cycle met the
   * early stop, and the cycles received `packetCount` packets in all.
   */
  predicate CountersAgree(received: seq<int>, lowThroughputCycles: int, consecutiveZeroReceived: int, expected: real,
                          measurementCycles: int, packetCount: int)
  {
    && consecutiveZeroReceived == ZeroRun(received)
    && lowThroughputCycles == LowRun(received, expected)
    && RanOn(received, measurementCycles)
    && (forall c :: 0 <= c < |received| ==> received[c] >= 0)
    && SumInts(received) == packetCount
  }

  /** One more cycle that received `x` packets, after a cycle that did not stop the loop, updates the counters as the source does. */
  lemma CountersStep(received: seq<int>, lowThroughputCycles: int, consecutiveZeroReceived: int, expected: real,
                     measurementCycles: int, packetCount: int, x: int)
    requires CountersAgree(received, lowThroughputCycles, consecutiveZeroReceived, expected, measurementCycles, packetCount)
    requires received != [] ==> !StopsEarly(received, measurementCycles)
    requires x >= 0
    ensures CountersAgree(received + [x], if LowCycle(x, expected) then lowThroughputCycles + 1 else 0,
                          if x == 0 then consecutiveZeroReceived + 1 else 0, expected, measurementCycles, packetCount + x)
  {
    RunsStep(received, x, expected);
    RanOnStep(received, x, measurementCycles);
    SumIntsSnoc(received, x);
  }
}
