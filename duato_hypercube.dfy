/**
 * Duato-style routing on the hypercube (src/routing/duato_hypercube_protocol.cpp):
 * with E-cube as the baseline, each hop picks a dimension that still needs
 * correcting, adaptively (the lowest such dimension) when the adaptive
 * channel would not close a cycle, otherwise in the configured priority
 * order, and then a virtual channel for the hop. The two policy points the
 * source leaves as stubs are a `Policy` value here; `Shipped` is the policy
 * the source implements.
 */
module DuatoHypercube {
  import opened Bits
  import opened Wrappers
  import opened Graph
  import opened Hypercube
  import opened Routing
  import opened ECube
  import opened Settings

  /**
   * The answers of the protocol's two policy points: whether an adaptive hop
   * would close a cycle of channel dependencies (`wouldCreateCycle`), and
   * whether each virtual channel is available (`isVirtualChannelAvailable`).
   */
  datatype Policy = Policy(adaptiveClosesCycle: bool, adaptiveAvailable: bool, deterministicAvailable: bool)

  /** The stubs as written: no cycle is ever reported and every channel is available. */
  const Shipped: Policy := Policy(false, true, true)

  /** `wouldCreateCycle`: a deterministic hop never closes a cycle. */
  function WouldCreateCycle(policy: Policy, vc: VirtualChannel): (r: bool)
    ensures vc == Deterministic ==> !r
    ensures policy == Shipped ==> !r
  {
    vc == Adaptive && policy.adaptiveClosesCycle
  }

  /** `isVirtualChannelAvailable` */
  function IsVirtualChannelAvailable(policy: Policy, vc: VirtualChannel): (r: bool)
    ensures policy == Shipped ==> r
  {
    if vc == Adaptive then policy.adaptiveAvailable else policy.deterministicAvailable
  }

  /** `needsRoutingInDimension`: `dim` lies within both coordinate vectors and they differ there. */
  function NeedsRoutingInDimension(current: seq<int>, destination: seq<int>, dim: nat): (r: bool)
    ensures r ==> dim < |current| && dim < |destination| && current[dim] != destination[dim]
  {
    if dim >= |current| || dim >= |destination| then false else current[dim] != destination[dim]
  }

  /** On cube coordinates, a dimension needs routing exactly when the two ids differ in that bit. */
  lemma NeedsRoutingIffBitDiffers(n: nat, m: nat, t: nat, dim: nat)
    ensures NeedsRoutingInDimension(Coordinates(n, m), Coordinates(n, t), dim) <==> dim < n && Bit(Xor(m, t), dim) == 1
  {
    BitOfXor(m, t, dim);
  }

  /** `canUseAdaptiveChannel`: the target dimension (when one is given) needs routing and the adaptive hop closes no cycle. */
  function CanUseAdaptiveChannel(policy: Policy, current: seq<int>, targetDim: int, destination: seq<int>): (r: bool)
    ensures r <==> (targetDim < 0 || NeedsRoutingInDimension(current, destination, targetDim)) && !policy.adaptiveClosesCycle
  {
    if targetDim >= 0 && !NeedsRoutingInDimension(current, destination, targetDim) then false
    else !WouldCreateCycle(policy, Adaptive)
  }

  /** `selectVirtualChannel`: adaptive when the adaptive channel may be used for this dimension, else deterministic. */
  function SelectVirtualChannel(policy: Policy, current: seq<int>, dim: int, destination: seq<int>): (vc: VirtualChannel)
    ensures vc == Adaptive <==> CanUseAdaptiveChannel(policy, current, dim, destination)
    ensures policy == Shipped ==> (vc == Adaptive <==> dim < 0 || NeedsRoutingInDimension(current, destination, dim))
  {
    if CanUseAdaptiveChannel(policy, current, dim, destination) then Adaptive else Deterministic
  }

  /** `mustUseDeterministicChannel`: the destination is at most one hop away, the node itself or a neighbour. */
  function MustUseDeterministicChannel(currentId: nat, destinationId: nat): (r: bool)
    ensures r <==> currentId == destinationId || AreNeighbors(currentId, destinationId)
  {
    HammingIsDistance(currentId, destinationId);
    AreNeighborsIffOneBit(currentId, destinationId);
    Popcount(Xor(currentId, destinationId)) <= 1
  }

  /** The identity order `0, 1, .., n - 1`. */
  function Dimensions(n: nat): (r: seq<nat>)
    ensures |r| == n && forall i :: 0 <= i < n ==> r[i] == i
  {
    if n == 0 then [] else Dimensions(n - 1) + [n - 1]
  }

  /** The dimension order of `getDeterministicDimensionOrder`: the configured priorities, or `0 .. n - 1` without any. */
  function DimensionOrder(config: Option<Config>, n: nat): (order: seq<nat>)
    ensures config.Some? && config.value.dimensionPriorities != [] ==> order == config.value.dimensionPriorities
    ensures config.None? || config.value.dimensionPriorities == [] ==> order == Dimensions(n)
  {
    if config.Some? && config.value.dimensionPriorities != [] then config.value.dimensionPriorities else Dimensions(n)
  }

  /** The position of the first entry of `dims` that needs routing, or `|dims|` when none does. */
  function FirstNeedingIndex(dims: seq<nat>, current: seq<int>, destination: seq<int>): (k: nat)
    ensures k <= |dims|
    ensures forall j :: 0 <= j < k ==> !NeedsRoutingInDimension(current, destination, dims[j])
    ensures k < |dims| ==> NeedsRoutingInDimension(current, destination, dims[k])
  {
    if dims == [] then 0
    else if NeedsRoutingInDimension(current, destination, dims[0]) then 0
    else
      assert forall j :: 1 <= j < |dims| ==> dims[j] == dims[1..][j - 1];
      1 + FirstNeedingIndex(dims[1..], current, destination)
  }

  /** The first entry of `dims` that needs routing, or -1 when none does. */
  function FirstNeeding(dims: seq<nat>, current: seq<int>, destination: seq<int>): (r: int)
  {
    var k := FirstNeedingIndex(dims, current, destination);
    if k == |dims| then -1 else dims[k]
  }

  /** The dimension `selectNextDimension` picks: adaptively the lowest one below `n`, otherwise the first in `order`. */
  function ChosenDimension(policy: Policy, order: seq<nat>, n: nat, current: seq<int>, destination: seq<int>): int
  {
    if CanUseAdaptiveChannel(policy, current, -1, destination) then FirstNeeding(Dimensions(n), current, destination)
    else FirstNeeding(order, current, destination)
  }

  /** Over `0 .. n - 1`, the first dimension needing routing is the lowest coordinate difference, the one E-cube corrects. */
  lemma FirstNeedingIsLowestDifference(n: nat, current: seq<int>, destination: seq<int>)
    requires |current| == n && |destination| == n
    ensures FirstNeeding(Dimensions(n), current, destination) == LowestDifference(current, destination)
  {
    var k := FirstNeedingIndex(Dimensions(n), current, destination);
    var l := LowestDifference(current, destination);
    if l == -1 {
      assert forall j :: 0 <= j < n ==> !NeedsRoutingInDimension(current, destination, Dimensions(n)[j]);
    } else {
      assert NeedsRoutingInDimension(current, destination, Dimensions(n)[l]);
    }
  }

  /** When the adaptive channel is usable, the protocol picks the same dimension as E-cube on the cube. */
  lemma AdaptiveChoiceIsEcube(policy: Policy, order: seq<nat>, n: nat, m: nat, t: nat)
    requires !policy.adaptiveClosesCycle
    ensures ChosenDimension(policy, order, n, Coordinates(n, m), Coordinates(n, t)) == NextDimension(n, m, t)
  {
    FirstNeedingIsLowestDifference(n, Coordinates(n, m), Coordinates(n, t));
  }

  /** A chosen dimension is one that still needs routing. */
  lemma ChosenNeedsRouting(policy: Policy, order: seq<nat>, n: nat, current: seq<int>, destination: seq<int>)
    requires ChosenDimension(policy, order, n, current, destination) != -1
    ensures var d := ChosenDimension(policy, order, n, current, destination);
            0 <= d && NeedsRoutingInDimension(current, destination, d)
  {
  }

  /** `getDeterministicDimensionOrder` */
  method GetDeterministicDimensionOrder(config: Option<Config>, n: nat) returns (order: seq<nat>)
    ensures order == DimensionOrder(config, n)
  {
    order := [];
    if config.Some? {
      order := config.value.dimensionPriorities;
    }
    if order == [] {
      var i := 0;
      while i < n
        invariant 0 <= i <= n && order == Dimensions(i)
      {
        order := order + [i];
        i := i + 1;
      }
    }
  }

  /** `selectAdaptiveDimension`: the lowest dimension below `n` that needs routing, or -1. */
  method SelectAdaptiveDimension(n: nat, current: seq<int>, destination: seq<int>) returns (dim: int)
    ensures dim == -1 <==> forall d: nat :: d < n ==> !NeedsRoutingInDimension(current, destination, d)
    ensures dim != -1 ==> 0 <= dim < n && NeedsRoutingInDimension(current, destination, dim)
                          && forall d: nat :: d < dim ==> !NeedsRoutingInDimension(current, destination, d)
  {
    var validDimensions: seq<nat> := [];
    var d := 0;
    while d < n
      invariant 0 <= d <= n
      invariant forall k :: 0 <= k < |validDimensions| ==> validDimensions[k] < d && NeedsRoutingInDimension(current, destination, validDimensions[k])
      invariant validDimensions == [] <==> forall e: nat :: e < d ==> !NeedsRoutingInDimension(current, destination, e)
      invariant validDimensions != [] ==> forall e: nat :: e < validDimensions[0] ==> !NeedsRoutingInDimension(current, destination, e)
    {
      if NeedsRoutingInDimension(current, destination, d) {
        validDimensions := validDimensions + [d];
      }
      d := d + 1;
    }
    if validDimensions == [] {
      return -1;
    }
    dim := validDimensions[0];
  }

  /** The lowest dimension below `n` that needs routing, or -1 for none, is the first of `0 .. n - 1` that does. */
  lemma LowestIsFirstNeeding(n: nat, current: seq<int>, destination: seq<int>, dim: int)
    requires dim == -1 <==> forall d: nat :: d < n ==> !NeedsRoutingInDimension(current, destination, d)
    requires dim != -1 ==> 0 <= dim < n && NeedsRoutingInDimension(current, destination, dim)
                           && forall d: nat :: d < dim ==> !NeedsRoutingInDimension(current, destination, d)
    ensures dim == FirstNeeding(Dimensions(n), current, destination)
  {
    var k := FirstNeedingIndex(Dimensions(n), current, destination);
    forall d: nat | d < k
      ensures !NeedsRoutingInDimension(current, destination, d)
    {
      assert Dimensions(n)[d] == d;
    }
    if k < n {
      assert Dimensions(n)[k] == k;
    }
  }

  /** `selectNextDimension`: -1 for a missing end, else the dimension the policy picks. */
  method SelectNextDimension(policy: Policy, config: Option<Config>, n: nat, current: Node?, destination: Node?) returns (dim: int)
    ensures current == null || destination == null ==> dim == -1
    ensures current != null && destination != null ==>
              dim == ChosenDimension(policy, DimensionOrder(config, n), n, current.coordinates, destination.coordinates)
  {
    if current == null || destination == null {
      return -1;
    }
    var dimensionPriorities := GetDeterministicDimensionOrder(config, n);
    if CanUseAdaptiveChannel(policy, current.coordinates, -1, destination.coordinates) {
      dim := SelectAdaptiveDimension(n, current.coordinates, destination.coordinates);
      LowestIsFirstNeeding(n, current.coordinates, destination.coordinates, dim);
      return;
    }
    var i := 0;
    while i < |dimensionPriorities|
      invariant 0 <= i <= |dimensionPriorities|
      invariant forall j :: 0 <= j < i ==> !NeedsRoutingInDimension(current.coordinates, destination.coordinates, dimensionPriorities[j])
    {
      if NeedsRoutingInDimension(current.coordinates, destination.coordinates, dimensionPriorities[i]) {
        return dimensionPriorities[i];
      }
      i := i + 1;
    }
    return -1;
  }

  /** Flipping a bit in which `m` and `t` differ brings `m` one bit closer to `t` and stays in the cube. */
  lemma FlipCloser(n: nat, m: nat, t: nat, d: nat)
    requires m < Pow2(n) && t < Pow2(n) && d < n && Bit(Xor(m, t), d) == 1
    ensures Xor(m, Pow2(d)) < Pow2(n)
    ensures Popcount(Xor(Xor(m, Pow2(d)), t)) + 1 == Popcount(Xor(m, t))
  {
    FlipInXor(m, t, d);
    FlipValue(Xor(m, t), d);
    PopcountClear(Xor(m, t), d);
    FlipBelow(m, d, n);
  }

  lemma {:induction false} PopcountBelow(x: nat, n: nat)
    requires x < Pow2(n)
    ensures Popcount(x) <= n
  {
    if n > 0 { PopcountBelow(x / 2, n - 1); }
  }

  /** The ids `ids` are a walk in which every hop crosses the dimension the policy picks towards `t`. */
  ghost predicate PolicyWalk(policy: Policy, order: seq<nat>, n: nat, ids: seq<nat>, t: nat)
  {
    forall i :: 0 <= i < |ids| - 1 ==> IdHop(policy, order, n, ids[i], ids[i + 1], t)
  }

  /** The hop from id `a` to id `b` crosses the dimension the policy picks at `a` towards `t`. */
  ghost predicate IdHop(policy: Policy, order: seq<nat>, n: nat, a: nat, b: nat, t: nat)
  {
    var d := ChosenDimension(policy, order, n, Coordinates(n, a), Coordinates(n, t));
    0 <= d < n && b == Xor(a, Pow2(d))
  }

  /** The same walk seen on the nodes: every hop of `path` crosses the dimension the policy picks towards `destination`. */
  predicate PolicyPath(policy: Policy, order: seq<nat>, n: nat, path: seq<Node>, destination: Node)
  {
    forall i :: 0 <= i < |path| - 1 ==> NodeHop(policy, order, n, path[i], path[i + 1], destination)
  }

  /** The hop from node `a` to node `b` crosses the dimension the policy picks at `a` towards `destination`. */
  predicate NodeHop(policy: Policy, order: seq<nat>, n: nat, a: Node, b: Node, destination: Node)
  {
    var d := ChosenDimension(policy, order, n, a.coordinates, destination.coordinates);
    0 <= d < n && 0 <= a.id && b.id == Xor(a.id, Pow2(d))
  }

  /** `path` is the nodes of `net` with ids `ids`, ending at `current`. */
  ghost predicate Visits(net: HypercubeNetwork, ids: seq<nat>, path: seq<Node>, current: Node?)
    reads net
  {
    && |ids| == |path| > 0
    && (forall i :: 0 <= i < |ids| ==> ids[i] < |net.nodes| && path[i] == net.nodes[ids[i]] && path[i].id == ids[i])
    && current == path[|path| - 1]
  }

  /** The hop across a chosen dimension: the neighbour found there is the node across that bit, one bit closer to `t`. */
  lemma WalkStep(net: HypercubeNetwork, policy: Policy, order: seq<nat>, current: Node, t: nat, d: int)
    requires net.Built() && t < net.totalNodes
    requires 0 <= current.id < net.totalNodes && current == net.nodes[current.id]
    requires d == ChosenDimension(policy, order, net.dimension, current.coordinates, net.nodes[t].coordinates) && d != -1
    ensures 0 <= d < net.dimension && Xor(current.id, Pow2(d)) < net.totalNodes
    ensures current.NeighborInDimension(d) == Some(net.nodes[Xor(current.id, Pow2(d))])
    ensures net.nodes[Xor(current.id, Pow2(d))].id == Xor(current.id, Pow2(d))
    ensures Popcount(Xor(Xor(current.id, Pow2(d)), t)) + 1 == Popcount(Xor(current.id, t))
  {
    var n, m := net.dimension, current.id;
    ChosenNeedsRouting(policy, order, n, current.coordinates, net.nodes[t].coordinates);
    NeedsRoutingIffBitDiffers(n, m, t, d);
    FlipCloser(n, m, t, d);
    net.NeighborIsFlippedBit(m, d);
  }

  /**
   * One hop of `routeMessageWithStats` once the dimension is chosen: pick the
   * virtual channel, find the neighbour across the dimension, and fall back
   * from a busy adaptive channel to the deterministic one; no hop when no
   * channel is available.
   */
  method TakeHop(net: HypercubeNetwork, policy: Policy, current: Node, dim: int, destination: Node, ghost order: seq<nat>, ghost t: nat)
      returns (next: Option<Node>)
    requires net.Built() && t < net.totalNodes && destination == net.nodes[t]
    requires 0 <= current.id < net.totalNodes && current == net.nodes[current.id]
    requires dim == ChosenDimension(policy, order, net.dimension, current.coordinates, destination.coordinates) && dim != -1
    ensures next.None? <==> !IsVirtualChannelAvailable(policy, SelectVirtualChannel(policy, current.coordinates, dim, destination.coordinates))
                            && !IsVirtualChannelAvailable(policy, Deterministic)
    ensures next.Some? ==> 0 <= dim < net.dimension && Xor(current.id, Pow2(dim)) < net.totalNodes
                           && next.value == net.nodes[Xor(current.id, Pow2(dim))] && next.value.id == Xor(current.id, Pow2(dim))
                           && Popcount(Xor(next.value.id, t)) + 1 == Popcount(Xor(current.id, t))
  {
    var vc := SelectVirtualChannel(policy, current.coordinates, dim, destination.coordinates);
    var neighbor := current.NeighborInDimension(dim);
    WalkStep(net, policy, order, current, t, dim);
    if neighbor.None? {
      return None;
    }
    if !IsVirtualChannelAvailable(policy, vc) {
      if vc == Adaptive {
        vc := Deterministic;
        if !IsVirtualChannelAvailable(policy, vc) {
          return None;
        }
      } else {
        return None;
      }
    }
    next := Some(neighbor.value);
  }

  lemma PolicyPathSnoc(policy: Policy, order: seq<nat>, n: nat, path: seq<Node>, destination: Node, next: Node)
    requires PolicyPath(policy, order, n, path, destination) && |path| > 0
    requires NodeHop(policy, order, n, path[|path| - 1], next, destination)
    ensures PolicyPath(policy, order, n, path + [next], destination)
  {
    var path' := path + [next];
    forall i | 0 <= i < |path'| - 1
      ensures NodeHop(policy, order, n, path'[i], path'[i + 1], destination)
    {
      assert path'[i] == path[i];
      if i < |path| - 1 {
        assert path'[i + 1] == path[i + 1];
      }
    }
  }

  /** On a built cube a node's coordinates are those of its id, so the walk over nodes is the walk over ids. */
  lemma PolicyPathIds(net: HypercubeNetwork, policy: Policy, order: seq<nat>, ids: seq<nat>, path: seq<Node>, current: Node?, t: nat)
    requires net.Built() && t < net.totalNodes
    requires Visits(net, ids, path, current) && PolicyPath(policy, order, net.dimension, path, net.nodes[t])
    ensures PolicyWalk(policy, order, net.dimension, ids, t)
  {
    var n := net.dimension;
    forall i | 0 <= i < |ids| - 1
      ensures IdHop(policy, order, n, ids[i], ids[i + 1], t)
    {
      assert path[i] == net.nodes[ids[i]] && path[i + 1].id == ids[i + 1] && path[i].id == ids[i];
      assert path[i].coordinates == Coordinates(n, ids[i]);
      assert net.nodes[t].coordinates == Coordinates(n, t);
      var d := ChosenDimension(policy, order, n, path[i].coordinates, net.nodes[t].coordinates);
      assert NodeHop(policy, order, n, path[i], path[i + 1], net.nodes[t]);
      assert 0 <= d < n && path[i + 1].id == Xor(path[i].id, Pow2(d));
    }
  }

  lemma VisitsSnoc(net: HypercubeNetwork, ids: seq<nat>, path: seq<Node>, current: Node?, next: Node)
    requires Visits(net, ids, path, current)
    requires 0 <= next.id < |net.nodes| && next == net.nodes[next.id]
    ensures Visits(net, ids + [next.id], path + [next], next)
  {
  }

  /** A walk under an adaptive policy that reaches `t` is the E-cube route. */
  lemma {:induction false} AdaptiveWalkIsEcube(policy: Policy, order: seq<nat>, n: nat, ids: seq<nat>, t: nat)
    requires !policy.adaptiveClosesCycle && t < Pow2(n)
    requires |ids| > 0 && ids[0] < Pow2(n) && ids[|ids| - 1] == t
    requires PolicyWalk(policy, order, n, ids, t)
    ensures ids == EcubeRoute(n, ids[0], t)
  {
    var m := ids[0];
    if |ids| == 1 {
      XorSelf(t);
    } else {
      AdaptiveChoiceIsEcube(policy, order, n, m, t);
      var d := ChosenDimension(policy, order, n, Coordinates(n, ids[0]), Coordinates(n, t));
      assert IdHop(policy, order, n, ids[0], ids[1], t);
      assert 0 <= d < n && ids[1] == Xor(ids[0], Pow2(d));
      assert m != t;
      EcubeRouteUnfold(n, m, t);
      var rest := ids[1..];
      assert PolicyWalk(policy, order, n, rest, t) by {
        forall i | 0 <= i < |rest| - 1
          ensures IdHop(policy, order, n, rest[i], rest[i + 1], t)
        {
          assert rest[i] == ids[i + 1] && rest[i + 1] == ids[i + 2];
          assert IdHop(policy, order, n, ids[i + 1], ids[i + 2], t);
        }
      }
      AdaptiveWalkIsEcube(policy, order, n, rest, t);
      assert ids == [m] + rest;
    }
  }

  /**
   * `routeMessageWithStats`: walk from `source` hop by hop, each hop across the
   * dimension the policy picks and on a channel that is available, giving up
   * when no dimension is left, no channel is free or the hop count exceeds the
   * cube's dimension. Every hop brings the message one bit closer, so a route
   * that gets through is a shortest one; under the shipped policy it always
   * gets through and is the E-cube route.
   */
  method RouteMessageWithStats(net: HypercubeNetwork, policy: Policy, config: Option<Config>, source: Node?, destination: Node?)
      returns (result: RoutingResult)
    requires net.Built()
    requires source != null ==> source in net.nodes
    requires destination != null ==> destination in net.nodes
    ensures source == null || destination == null ==> result == EmptyResult()
    ensures source != null && destination != null ==>
              && |result.path| > 0 && result.hopCount == |result.path| - 1 && result.path[0] == source
              && result.delay == 0.0
              && (forall i :: 0 <= i < |result.path| ==> result.path[i] in net.nodes)
              && PolicyPath(policy, DimensionOrder(config, net.dimension), net.dimension, result.path, destination)
              && (result.success <==> result.path[|result.path| - 1] == destination)
              && (result.success ==> result.hopCount == Popcount(Xor(source.id, destination.id))
                                     && result.totalDelay == CalculateRouteDelay(result.path))
              && (!result.success ==> result.totalDelay == 0.0)
              && (policy == Shipped ==>
                    result.success && result.path == NodesAt(net, EcubeRoute(net.dimension, source.id, destination.id)))
  {
    if source == null || destination == null {
      return EmptyResult();
    }
    result := Walk(net, policy, config, source, destination);
  }

  /** The state of the walk from `source` after `hops` hops: the visited ids and nodes, each hop by the policy, each one bit closer. */
  ghost predicate Walking(net: HypercubeNetwork, policy: Policy, order: seq<nat>, source: Node, destination: Node,
                          ids: seq<nat>, path: seq<Node>, current: Node?, hops: int)
    reads net
  {
    && Visits(net, ids, path, current) && ids[0] == source.id && path[0] == source
    && PolicyPath(policy, order, net.dimension, path, destination)
    && hops == |ids| - 1 && 0 <= destination.id
    && Popcount(Xor(ids[|ids| - 1], destination.id)) + hops == Popcount(Xor(ids[0], destination.id))
  }

  lemma WalkingStart(net: HypercubeNetwork, policy: Policy, order: seq<nat>, source: Node, destination: Node)
    requires net.Built() && source in net.nodes && destination in net.nodes
    ensures 0 <= source.id < net.totalNodes && source == net.nodes[source.id]
    ensures 0 <= destination.id < net.totalNodes && destination == net.nodes[destination.id]
    ensures Popcount(Xor(source.id, destination.id)) <= net.dimension
    ensures Walking(net, policy, order, source, destination, [source.id], [source], source, 0)
  {
    XorBelow(source.id, destination.id, net.dimension);
    PopcountBelow(Xor(source.id, destination.id), net.dimension);
  }

  lemma WalkingSnoc(net: HypercubeNetwork, policy: Policy, order: seq<nat>, source: Node, destination: Node,
                    ids: seq<nat>, path: seq<Node>, current: Node, hops: int, dim: int, next: Node)
    requires net.Built() && Walking(net, policy, order, source, destination, ids, path, current, hops)
    requires dim == ChosenDimension(policy, order, net.dimension, current.coordinates, destination.coordinates)
    requires 0 <= dim < net.dimension && 0 <= current.id && Xor(current.id, Pow2(dim)) < net.totalNodes
    requires next == net.nodes[Xor(current.id, Pow2(dim))] && next.id == Xor(current.id, Pow2(dim))
    requires Popcount(Xor(next.id, destination.id)) + 1 == Popcount(Xor(current.id, destination.id))
    ensures Walking(net, policy, order, source, destination, ids + [next.id], path + [next], next, hops + 1)
  {
    PolicyPathSnoc(policy, order, net.dimension, path, destination, next);
    VisitsSnoc(net, ids, path, current, next);
  }

  /** A walk that has reached the destination took as many hops as the Hamming distance, and under an adaptive policy it is the E-cube route. */
  lemma WalkingArrived(net: HypercubeNetwork, policy: Policy, order: seq<nat>, source: Node, destination: Node,
                       ids: seq<nat>, path: seq<Node>, hops: int)
    requires net.Built() && 0 <= destination.id < net.totalNodes && destination == net.nodes[destination.id]
    requires Walking(net, policy, order, source, destination, ids, path, destination, hops)
    ensures 0 <= source.id < net.totalNodes && hops == Popcount(Xor(source.id, destination.id))
    ensures !policy.adaptiveClosesCycle ==> path == NodesAt(net, EcubeRoute(net.dimension, source.id, destination.id))
  {
    var t: nat := destination.id;
    XorSelf(t);
    if !policy.adaptiveClosesCycle {
      PolicyPathIds(net, policy, order, ids, path, destination, t);
      AdaptiveWalkIsEcube(policy, order, net.dimension, ids, t);
      NodesAtPointwise(net, ids, path);
    }
  }

  /** What a walk that has stopped, wherever it stopped, has to show for itself. */
  lemma WalkingDone(net: HypercubeNetwork, policy: Policy, order: seq<nat>, source: Node, destination: Node,
                    ids: seq<nat>, path: seq<Node>, current: Node, hops: int)
    requires net.Built() && source in net.nodes && destination in net.nodes
    requires Walking(net, policy, order, source, destination, ids, path, current, hops)
    ensures 0 <= source.id < net.totalNodes && 0 <= destination.id < net.totalNodes
    ensures |path| > 0 && path[0] == source && forall i :: 0 <= i < |path| ==> path[i] in net.nodes
    ensures path[|path| - 1] == destination ==> |path| - 1 == Popcount(Xor(source.id, destination.id))
    ensures path[|path| - 1] == destination && !policy.adaptiveClosesCycle
            ==> path == NodesAt(net, EcubeRoute(net.dimension, source.id, destination.id))
  {
    WalkingStart(net, policy, order, source, destination);
    if path[|path| - 1] == destination {
      WalkingArrived(net, policy, order, source, destination, ids, path, hops);
    }
  }

  /** The loop of `routeMessageWithStats`, between two nodes of the cube. */
  method Walk(net: HypercubeNetwork, policy: Policy, config: Option<Config>, source: Node, destination: Node)
      returns (result: RoutingResult)
    requires net.Built()
    requires source in net.nodes && destination in net.nodes
    ensures |result.path| > 0 && result.hopCount == |result.path| - 1 && result.path[0] == source
    ensures result.delay == 0.0
    ensures forall i :: 0 <= i < |result.path| ==> result.path[i] in net.nodes
    ensures PolicyPath(policy, DimensionOrder(config, net.dimension), net.dimension, result.path, destination)
    ensures result.success <==> result.path[|result.path| - 1] == destination
    ensures result.success ==> result.hopCount == Popcount(Xor(source.id, destination.id))
    ensures result.success ==> result.totalDelay == CalculateRouteDelay(result.path)
    ensures !result.success ==> result.totalDelay == 0.0
    ensures policy == Shipped ==> result.success
    ensures policy == Shipped ==> result.path == NodesAt(net, EcubeRoute(net.dimension, source.id, destination.id))
  {
    result := EmptyResult();
    var path := WalkTo(net, policy, config, source, destination);
    result := result.(path := path, hopCount := |path| - 1);
    if path[|path| - 1] == destination {
      result := result.(success := true, totalDelay := CalculateRouteDelay(path));
    }
  }

  /**
   * The body of that loop up to the hop: choose the dimension, stop when
   * none is left, otherwise take the hop across it if a channel is free. The
   * shipped policy always finds a hop until the destination is reached.
   */
  method ChooseHop(net: HypercubeNetwork, policy: Policy, config: Option<Config>, current: Node, destination: Node, ghost t: nat)
      returns (next: Option<Node>, ghost dim: int)
    requires net.Built() && t < net.totalNodes && destination == net.nodes[t] && destination.id == t
    requires 0 <= current.id < net.totalNodes && current == net.nodes[current.id]
    ensures next.Some? ==> dim == ChosenDimension(policy, DimensionOrder(config, net.dimension), net.dimension, current.coordinates, destination.coordinates)
                           && 0 <= dim < net.dimension && Xor(current.id, Pow2(dim)) < net.totalNodes
                           && next.value == net.nodes[Xor(current.id, Pow2(dim))] && next.value.id == Xor(current.id, Pow2(dim))
                           && Popcount(Xor(next.value.id, t)) + 1 == Popcount(Xor(current.id, t))
    ensures policy == Shipped && current != destination ==> next.Some?
  {
    var n := net.dimension;
    ghost var order := DimensionOrder(config, n);
    var nextDim := SelectNextDimension(policy, config, n, current, destination);
    dim := nextDim;
    if policy == Shipped && current != destination {
      AdaptiveChoiceIsEcube(policy, order, n, current.id, t);
      StepCloser(n, current.id, t);
    }
    if nextDim == -1 {
      return None, dim;
    }
    next := TakeHop(net, policy, current, nextDim, destination, order, t);
  }

  /**
   * The path that loop builds, whatever its end: it starts at the source, stays
   * in the cube and follows the policy. A path ending at the destination is a
   * shortest one, the E-cube route when no adaptive hop closes a cycle. Under
   * the shipped policy it always ends at the destination.
   */
  method WalkTo(net: HypercubeNetwork, policy: Policy, config: Option<Config>, source: Node, destination: Node)
      returns (path: seq<Node>)
    requires net.Built()
    requires source in net.nodes && destination in net.nodes
    ensures 0 <= source.id < net.totalNodes && 0 <= destination.id < net.totalNodes
    ensures |path| > 0 && path[0] == source && forall i :: 0 <= i < |path| ==> path[i] in net.nodes
    ensures PolicyPath(policy, DimensionOrder(config, net.dimension), net.dimension, path, destination)
    ensures path[|path| - 1] == destination ==> |path| - 1 == Popcount(Xor(source.id, destination.id))
    ensures path[|path| - 1] == destination && !policy.adaptiveClosesCycle
            ==> path == NodesAt(net, EcubeRoute(net.dimension, source.id, destination.id))
    ensures policy == Shipped ==> path[|path| - 1] == destination
  {
    var current: Node;
    var hopCount: int;
    ghost var ids: seq<nat>;
    path, current, hopCount, ids := Hops(net, policy, config, source, destination);
    WalkingDone(net, policy, DimensionOrder(config, net.dimension), source, destination, ids, path, current, hopCount);
  }

  /**
   * The hops of that loop: it stops at the destination, when no dimension is
   * left to choose, when the chosen neighbour is missing, or after more hops
   * than the cube has dimensions. Under the shipped policy it always arrives.
   */
  method Hops(net: HypercubeNetwork, policy: Policy, config: Option<Config>, source: Node, destination: Node)
      returns (path: seq<Node>, current: Node, hopCount: int, ghost ids: seq<nat>)
    requires net.Built()
    requires source in net.nodes && destination in net.nodes
    ensures Walking(net, policy, DimensionOrder(config, net.dimension), source, destination, ids, path, current, hopCount)
    ensures policy == Shipped ==> current == destination
  {
    var n := net.dimension;
    ghost var t: nat := destination.id;
    ghost var order := DimensionOrder(config, n);
    ids := [source.id];
    WalkingStart(net, policy, order, source, destination);
    current := source;
    hopCount := 0;
    path := [current];
    while current != destination
      invariant Walking(net, policy, order, source, destination, ids, path, current, hopCount)
      invariant hopCount <= n
      decreases n - hopCount
    {
      var hop: Option<Node>;
      ghost var nextDim: int;
      hop, nextDim := ChooseHop(net, policy, config, current, destination, t);
      if hop.None? {
        break;
      }
      var nextNode := hop.value;
      WalkingSnoc(net, policy, order, source, destination, ids, path, current, hopCount, nextDim, nextNode);
      ids := ids + [nextNode.id];
      path := path + [nextNode];
      hopCount := hopCount + 1;
      current := nextNode;
      if hopCount > n {
        break;
      }
    }
  }
}
