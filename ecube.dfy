/**
 * E-cube routing on the hypercube (src/routing/ecube_routing.cpp): from the
 * current node, move to the neighbour across the lowest dimension in which
 * its coordinates still differ from the destination's, until the
 * destination is reached. Dimensions are therefore corrected in increasing
 * order and the route is as long as the Hamming distance.
 */
module ECube {
  import opened Bits
  import opened Wrappers
  import opened Messages
  import opened Graph
  import opened Hypercube
  import opened Routing

  /** The lowest index within both vectors at which they differ, or -1 when they agree on all of them. */
  function LowestDifference(a: seq<int>, b: seq<int>): (r: int)
    ensures -1 <= r && (r >= 0 ==> r < |a| && r < |b|)
    ensures r == -1 <==> forall i :: 0 <= i < |a| && i < |b| ==> a[i] == b[i]
    ensures r >= 0 ==> a[r] != b[r] && forall i :: 0 <= i < r ==> a[i] == b[i]
  {
    if a == [] || b == [] then -1
    else if a[0] != b[0] then 0
    else
      var rest := LowestDifference(a[1..], b[1..]);
      assert forall i :: 1 <= i < |a| && i < |b| ==> a[i] == a[1..][i - 1] && b[i] == b[1..][i - 1];
      if rest == -1 then -1 else rest + 1
  }

  /** The dimension E-cube corrects next on the way from node `m` to node `t` of an `n`-cube. */
  function NextDimension(n: nat, m: nat, t: nat): int
  {
    LowestDifference(Coordinates(n, m), Coordinates(n, t))
  }

  /** Distinct ids of an `n`-cube differ in some coordinate, and flipping the lowest one brings the id one bit closer. */
  lemma StepCloser(n: nat, m: nat, t: nat)
    requires m < Pow2(n) && t < Pow2(n) && m != t
    ensures 0 <= NextDimension(n, m, t) < n
    ensures Xor(m, Pow2(NextDimension(n, m, t))) < Pow2(n)
    ensures Popcount(Xor(Xor(m, Pow2(NextDimension(n, m, t))), t)) + 1 == Popcount(Xor(m, t))
  {
    var d := NextDimension(n, m, t);
    if d == -1 {
      assert Coordinates(n, m) == Coordinates(n, t);
      NodeIdOfCoordinates(n, m);
      NodeIdOfCoordinates(n, t);
      assert false;
    }
    BitOfXor(m, t, d);
    FlipInXor(m, t, d);
    FlipValue(Xor(m, t), d);
    PopcountClear(Xor(m, t), d);
    FlipBelow(m, d, n);
  }

  /** The ids E-cube routing visits from `m` to `t` in an `n`-cube: one hop per differing bit, in increasing dimension. */
  function EcubeRoute(n: nat, m: nat, t: nat): (route: seq<nat>)
    requires m < Pow2(n) && t < Pow2(n)
    ensures |route| >= 1 && route[0] == m && route[|route| - 1] == t
    ensures forall i :: 0 <= i < |route| ==> route[i] < Pow2(n)
    decreases if m == t then 0 else n - NextDimension(n, m, t)
  {
    if m == t then
      [m]
    else
      StepStays(n, m, t);
      NextDimensionRises(n, m, t);
      PrependBelow(m, EcubeRoute(n, Xor(m, Pow2(NextDimension(n, m, t))), t), t, Pow2(n));
      [m] + EcubeRoute(n, Xor(m, Pow2(NextDimension(n, m, t))), t)
  }

  /** A step from `m` toward `t` stays in the cube. */
  lemma StepStays(n: nat, m: nat, t: nat)
    requires m < Pow2(n) && t < Pow2(n) && m != t
    ensures 0 <= NextDimension(n, m, t) < n && Xor(m, Pow2(NextDimension(n, m, t))) < Pow2(n)
  {
    StepCloser(n, m, t);
  }

  /** The route is one node longer than the Hamming distance between its ends. */
  lemma {:induction false} EcubeRouteLength(n: nat, m: nat, t: nat)
    requires m < Pow2(n) && t < Pow2(n)
    ensures |EcubeRoute(n, m, t)| == Popcount(Xor(m, t)) + 1
    decreases Popcount(Xor(m, t))
  {
    if m == t {
      XorSelf(m);
    } else {
      EcubeRouteUnfold(n, m, t);
      StepCloser(n, m, t);
      EcubeRouteLength(n, Xor(m, Pow2(NextDimension(n, m, t))), t);
    }
  }

  lemma PrependBelow(m: nat, rest: seq<nat>, t: nat, bound: nat)
    requires m < bound && |rest| >= 1 && rest[|rest| - 1] == t && forall i :: 0 <= i < |rest| ==> rest[i] < bound
    ensures |[m] + rest| >= 1 && ([m] + rest)[0] == m && ([m] + rest)[|[m] + rest| - 1] == t
    ensures forall i :: 0 <= i < |[m] + rest| ==> ([m] + rest)[i] < bound
  {
  }

  /** After flipping the lowest differing bit, the next differing bit is higher still. */
  lemma NextDimensionRises(n: nat, m: nat, t: nat)
    requires m < Pow2(n) && t < Pow2(n) && m != t
    ensures var d := NextDimension(n, m, t);
            0 <= d && (Xor(m, Pow2(d)) != t ==> d < NextDimension(n, Xor(m, Pow2(d)), t))
  {
    StepCloser(n, m, t);
    var d := NextDimension(n, m, t);
    var next := Xor(m, Pow2(d));
    if next != t {
      StepCloser(n, next, t);
      var e := NextDimension(n, next, t);
      FlipBitOf(m, d, e);
      FlipBitOf(m, d, d);
    }
  }

  /** The route from `m` starts with `m` and continues with the route from the node across the next dimension. */
  lemma EcubeRouteUnfold(n: nat, m: nat, t: nat)
    requires m < Pow2(n) && t < Pow2(n) && m != t
    ensures 0 <= NextDimension(n, m, t) < n && Xor(m, Pow2(NextDimension(n, m, t))) < Pow2(n)
    ensures EcubeRoute(n, m, t) == [m] + EcubeRoute(n, Xor(m, Pow2(NextDimension(n, m, t))), t)
  {
    StepCloser(n, m, t);
  }

  /** One E-cube hop toward `t`: from `a` across the lowest differing dimension to `b`, a neighbour. */
  predicate EcubeHop(n: nat, t: nat, a: nat, b: nat)
  {
    a != t && 0 <= NextDimension(n, a, t) < n && b == Xor(a, Pow2(NextDimension(n, a, t))) && AreNeighbors(a, b)
  }

  /** Each E-cube hop flips the lowest differing coordinate, so it goes to a neighbour at Hamming distance one. */
  lemma {:induction false} EcubeRouteSteps(n: nat, m: nat, t: nat)
    requires m < Pow2(n) && t < Pow2(n)
    ensures forall i :: 0 <= i < |EcubeRoute(n, m, t)| - 1 ==> EcubeHop(n, t, EcubeRoute(n, m, t)[i], EcubeRoute(n, m, t)[i + 1])
    decreases |EcubeRoute(n, m, t)|
  {
    if m != t {
      EcubeRouteUnfold(n, m, t);
      StepStays(n, m, t);
      var d := NextDimension(n, m, t);
      var next := Xor(m, Pow2(d));
      var route, rest := EcubeRoute(n, m, t), EcubeRoute(n, next, t);
      EcubeRouteSteps(n, next, t);
      FlipNeighbors(m, d);
      forall i | 0 <= i < |route| - 1
        ensures EcubeHop(n, t, route[i], route[i + 1])
      {
        if i > 0 {
          assert route[i] == rest[i - 1] && route[i + 1] == rest[i];
          assert EcubeHop(n, t, rest[i - 1], rest[i]);
        }
      }
    }
  }

  /** Ids one flipped bit apart are neighbours. */
  lemma FlipNeighbors(m: nat, d: nat)
    ensures AreNeighbors(m, Xor(m, Pow2(d)))
  {
    XorAssociates(m, m, Pow2(d));
    XorSelf(m);
    AreNeighborsIffOneBit(m, Xor(m, Pow2(d)));
  }

  /** E-cube corrects dimensions in strictly increasing order along the route. */
  lemma {:induction false} EcubeRouteIsDimensionOrdered(n: nat, m: nat, t: nat)
    requires m < Pow2(n) && t < Pow2(n)
    ensures forall i, j :: 0 <= i < j < |EcubeRoute(n, m, t)| - 1 ==>
              NextDimension(n, EcubeRoute(n, m, t)[i], t) < NextDimension(n, EcubeRoute(n, m, t)[j], t)
    decreases |EcubeRoute(n, m, t)|
  {
    if m != t {
      EcubeRouteUnfold(n, m, t);
      var d := NextDimension(n, m, t);
      var next := Xor(m, Pow2(d));
      var route, rest := EcubeRoute(n, m, t), EcubeRoute(n, next, t);
      EcubeRouteIsDimensionOrdered(n, next, t);
      NextDimensionRises(n, m, t);
      forall i, j | 0 <= i < j < |route| - 1
        ensures NextDimension(n, route[i], t) < NextDimension(n, route[j], t)
      {
        assert route[j] == rest[j - 1];
        if i > 0 {
          assert route[i] == rest[i - 1];
        } else if j > 1 {
          assert rest[0] == next;
        }
      }
    }
  }

  /** The nodes of `net` with the given ids. */
  function NodesAt(net: HypercubeNetwork, ids: seq<nat>): (r: seq<Node>)
    reads net
    requires forall i :: 0 <= i < |ids| ==> ids[i] < |net.nodes|
    ensures |r| == |ids| && forall i :: 0 <= i < |ids| ==> r[i] == net.nodes[ids[i]]
  {
    if ids == [] then [] else [net.nodes[ids[0]]] + NodesAt(net, ids[1..])
  }

  /** Both ends exist and are hypercube nodes, the condition under which E-cube routes at all. */
  predicate Routable(source: Node?, destination: Node?)
  {
    source != null && destination != null && source.isHypercube && destination.isHypercube
  }

  /** `calculateDimensionDifferences`: `dest[i] - src[i]` for every index both coordinate vectors have. */
  method CalculateDimensionDifferences(source: Node?, destination: Node?) returns (differences: seq<int>)
    ensures !Routable(source, destination) ==> differences == []
    ensures Routable(source, destination) ==>
              |differences| == (if |source.coordinates| < |destination.coordinates| then |source.coordinates| else |destination.coordinates|)
              && forall i :: 0 <= i < |differences| ==> differences[i] == destination.coordinates[i] - source.coordinates[i]
  {
    differences := [];
    if !Routable(source, destination) { return; }
    var sourceCoords, destCoords := source.coordinates, destination.coordinates;
    var i := 0;
    while i < |sourceCoords| && i < |destCoords|
      invariant 0 <= i <= |sourceCoords| && i <= |destCoords| && |differences| == i
      invariant forall k :: 0 <= k < i ==> differences[k] == destCoords[k] - sourceCoords[k]
    {
      differences := differences + [destCoords[i] - sourceCoords[i]];
      i := i + 1;
    }
  }

  /** `selectNextDimension`: the lowest dimension whose difference is non-zero, or -1. */
  method SelectNextDimension(current: Node?, destination: Node?) returns (dim: int)
    ensures !Routable(current, destination) ==> dim == -1
    ensures Routable(current, destination) ==> dim == LowestDifference(current.coordinates, destination.coordinates)
  {
    if !Routable(current, destination) { return -1; }
    var differences := CalculateDimensionDifferences(current, destination);
    dim := 0;
    while dim < |differences|
      invariant 0 <= dim <= |differences|
      invariant forall i :: 0 <= i < dim ==> differences[i] == 0
    {
      if differences[dim] != 0 {
        return;
      }
      dim := dim + 1;
    }
    dim := -1;
  }

  /** The inner loop of `calculatePath`: the neighbour of `current` across the lowest dimension that still differs from the destination. */
  method NextHop(net: HypercubeNetwork, current: Node, destCoords: seq<int>, ghost t: nat) returns (next: Node?)
    requires net.Built() && 0 <= current.id < net.totalNodes && current == net.nodes[current.id]
    requires t < net.totalNodes && t != current.id && destCoords == Coordinates(net.dimension, t)
    ensures 0 <= NextDimension(net.dimension, current.id, t) < net.dimension
    ensures Xor(current.id, Pow2(NextDimension(net.dimension, current.id, t))) < net.totalNodes
    ensures next == net.nodes[Xor(current.id, Pow2(NextDimension(net.dimension, current.id, t)))]
    ensures next != null && next != current && next.id == Xor(current.id, Pow2(NextDimension(net.dimension, current.id, t)))
  {
    var n := net.dimension;
    StepStays(n, current.id, t);
    ghost var d := NextDimension(n, current.id, t);
    FlipValue(current.id, d);
    var currentCoords := current.coordinates;
    next := null;
    var dim := 0;
    while dim < |currentCoords|
      invariant 0 <= dim <= |currentCoords| && next == null
      invariant forall i :: 0 <= i < dim ==> currentCoords[i] == destCoords[i]
    {
      if currentCoords[dim] != destCoords[dim] {
        assert dim == d;
        next := HopAcross(net, current, dim, t);
        return;
      }
      dim := dim + 1;
    }
  }

  /** The body of the `if` in `calculatePath`'s inner loop: the neighbour across `dim`, or null when there is none. */
  method HopAcross(net: HypercubeNetwork, current: Node, dim: nat, ghost t: nat) returns (next: Node?)
    requires net.Built() && 0 <= current.id < net.totalNodes && current == net.nodes[current.id]
    requires t < net.totalNodes && dim == NextDimension(net.dimension, current.id, t) && dim < net.dimension
    ensures Xor(current.id, Pow2(dim)) < net.totalNodes && next == net.nodes[Xor(current.id, Pow2(dim))]
    ensures next != null && next.id == Xor(current.id, Pow2(dim))
  {
    net.NeighborIsFlippedBit(current.id, dim);
    var neighbor := current.NeighborInDimension(dim);
    next := if neighbor.Some? then neighbor.value else null;
  }

  /** The `while (current != destination)` loop of `calculatePath`, between two nodes of a built hypercube. */
  method FollowRoute(net: HypercubeNetwork, source: Node, destination: Node) returns (path: seq<Node>)
    requires net.Built()
    requires 0 <= source.id < net.totalNodes && source == net.nodes[source.id]
    requires 0 <= destination.id < net.totalNodes && destination == net.nodes[destination.id]
    ensures path == NodesAt(net, EcubeRoute(net.dimension, source.id, destination.id))
  {
    ghost var n, t: nat := net.dimension, destination.id;
    ghost var route := EcubeRoute(n, source.id, t);
    EcubeRouteSteps(n, source.id, t);
    TargetOnlyLast(n, source.id, t);
    ghost var k := 0;
    path := [source];
    var destCoords := destination.coordinates;
    var current := source;
    while current != destination
      invariant Along(net, route, k, path, current)
      decreases |route| - k
    {
      assert EcubeHop(n, t, route[k], route[k + 1]);
      var next := NextHop(net, current, destCoords, t);
      if next == null || next == current {
        break;
      }
      AlongStep(net, route, k, path, current, next);
      path := path + [next];
      current := next;
      k := k + 1;
    }
    NodesAtPointwise(net, route, path);
  }

  /** Only the last node of the route is `t`. */
  lemma {:induction false} TargetOnlyLast(n: nat, m: nat, t: nat)
    requires m < Pow2(n) && t < Pow2(n)
    ensures forall i :: 0 <= i < |EcubeRoute(n, m, t)| - 1 ==> EcubeRoute(n, m, t)[i] != t
  {
    EcubeRouteSteps(n, m, t);
    var route := EcubeRoute(n, m, t);
    forall i | 0 <= i < |route| - 1
      ensures route[i] != t
    {
      assert EcubeHop(n, t, route[i], route[i + 1]);
    }
  }

  /** `path` holds the first `k + 1` nodes of `route` and ends at `current`. */
  ghost predicate Along(net: HypercubeNetwork, route: seq<nat>, k: int, path: seq<Node>, current: Node?)
    reads net
  {
    && 0 <= k < |route|
    && (forall i :: 0 <= i < |route| ==> route[i] < |net.nodes|)
    && current == net.nodes[route[k]] && current.id == route[k]
    && |path| == k + 1 && forall i :: 0 <= i <= k ==> path[i] == net.nodes[route[i]]
  }

  lemma AlongStep(net: HypercubeNetwork, route: seq<nat>, k: int, path: seq<Node>, current: Node?, next: Node)
    requires Along(net, route, k, path, current) && k + 1 < |route|
    requires next == net.nodes[route[k + 1]] && next.id == route[k + 1]
    ensures Along(net, route, k + 1, path + [next], next)
  {
  }

  lemma NodesAtPointwise(net: HypercubeNetwork, ids: seq<nat>, nodes: seq<Node>)
    requires forall i :: 0 <= i < |ids| ==> ids[i] < |net.nodes|
    requires |nodes| == |ids| && forall i :: 0 <= i < |ids| ==> nodes[i] == net.nodes[ids[i]]
    ensures nodes == NodesAt(net, ids)
  {
  }

  /** `calculatePath`: on a built hypercube, the nodes of the E-cube route from source to destination; empty unless both ends are hypercube nodes. */
  method CalculatePath(net: HypercubeNetwork, source: Node?, destination: Node?) returns (path: seq<Node>)
    requires net.Built()
    requires source != null && source.isHypercube ==> source in net.nodes
    requires destination != null && destination.isHypercube ==> destination in net.nodes
    ensures !Routable(source, destination) ==> path == []
    ensures Routable(source, destination) ==>
              0 <= source.id < net.totalNodes && 0 <= destination.id < net.totalNodes
              && path == NodesAt(net, EcubeRoute(net.dimension, source.id, destination.id))
  {
    path := [];
    if source == null || destination == null {
      return;
    }
    if source.isHypercube && destination.isHypercube {
      path := FollowRoute(net, source, destination);
    }
  }

  /** `calculateRouteDelay`: one unit of link latency plus half a unit of router delay per hop. */
  function CalculateRouteDelay(path: seq<Node>): (delay: real)
    ensures |path| < 2 ==> delay == 0.0
    ensures |path| >= 2 ==> delay == 1.5 * (|path| - 1) as real
    ensures delay >= 0.0
  {
    if |path| < 2 then 0.0
    else
      var linkLatency := 1.0;
      var totalDelay := (|path| - 1) as real * linkLatency;
      totalDelay + (|path| - 1) as real * 0.5
  }

  /** `routeMessage`: records the source as the current node and the destination, when both are hypercube nodes. */
  function RouteMessage(message: Message<Node>, source: Node?, destination: Node?): (m: Message<Node>)
    ensures !Routable(source, destination) ==> m == message
    ensures Routable(source, destination) ==>
              m.currentNode == Some(source as Node) && m.destinationNode == Some(destination as Node)
              && m.sourceId == message.sourceId && m.destinationId == message.destinationId && m.timestamp == message.timestamp
  {
    if !Routable(source, destination) then message
    else message.SetCurrentNode(Some(source as Node)).SetDestinationNode(Some(destination as Node))
  }

  /** `routeMessageWithStats`: the E-cube path with success, hop count and delays derived from it. */
  method RouteMessageWithStats(net: HypercubeNetwork, message: Message<Node>, source: Node?, destination: Node?)
    returns (result: RoutingResult, routed: Message<Node>)
    requires net.Built()
    requires source != null && source.isHypercube ==> source in net.nodes
    requires destination != null && destination.isHypercube ==> destination in net.nodes
    ensures routed == RouteMessage(message, source, destination)
    ensures result.success <==> result.path != []
    ensures result.hopCount == |result.path| - 1 && result.delay == result.hopCount as real
    ensures result.totalDelay == CalculateRouteDelay(result.path)
    ensures !Routable(source, destination) ==> result.path == [] && result.hopCount == -1
    ensures Routable(source, destination) ==>
              0 <= source.id < net.totalNodes && 0 <= destination.id < net.totalNodes
              && result.path == NodesAt(net, EcubeRoute(net.dimension, source.id, destination.id))
              && result.success && result.hopCount == Popcount(Xor(source.id, destination.id))
              && result.path[0] == source && result.path[|result.path| - 1] == destination
  {
    routed := RouteMessage(message, source, destination);
    var path := CalculatePath(net, source, destination);
    if Routable(source, destination) {
      EcubeRouteLength(net.dimension, source.id, destination.id);
    }
    var hopCount := |path| - 1;
    result := RoutingResult(path != [], path, hopCount, hopCount as real, CalculateRouteDelay(path));
  }
}
