/**
 * Duato-style routing on the 2D mesh (src/routing/duato_protocol.cpp): from
 * the current node, take the incident link whose far end is closest to the
 * destination (an adaptive hop) when its adaptive channel is free, otherwise
 * a deterministic hop when its deterministic channel is free; give up when
 * neither is possible or the path grows beyond 100 nodes.
 *
 * The source's deterministic hop is the first link tagged with the direction
 * towards the destination, whichever end of it the current node is; that
 * lookup is `GetDeterministicRouteAsWritten`, and
 * `DeterministicRouteAsWrittenTurnsBack` shows it leading away from the
 * destination. The search below uses the corrected `GetDeterministicRoute`
 * instead: the link whose far end is one step closer to the destination.
 */
module DuatoMesh {
  import opened Wrappers
  import opened Graph
  import opened Mesh
  import opened Routing
  import opened Settings

  /** `INT_MAX`, the initial best distance of `selectAdaptiveRoute`. */
  const IntMax: int := 0x7fff_ffff

  /** The longest path `findPath` accepts. */
  const MaxPathNodes: nat := 100

  /** `calculateManhattanDistance` */
  function ManhattanDistance(from: Node, to: Node): (d: nat)
    ensures d == 0 <==> from.x == to.x && from.y == to.y
  {
    Abs(from.x - to.x) + Abs(from.y - to.y)
  }

  /** The Manhattan distance is symmetric and obeys the triangle inequality. */
  lemma ManhattanIsMetric(a: Node, b: Node, c: Node)
    ensures ManhattanDistance(a, b) == ManhattanDistance(b, a)
    ensures ManhattanDistance(a, c) <= ManhattanDistance(a, b) + ManhattanDistance(b, c)
  {
  }

  /** `isMinimalRoute`: the next node is strictly closer to the destination. */
  function IsMinimalRoute(current: Node, next: Node, destination: Node): (r: bool)
    ensures r ==> current.x != destination.x || current.y != destination.y
    ensures r ==> next.x != current.x || next.y != current.y
    ensures next.y == current.y && (current.x < next.x <= destination.x || destination.x <= next.x < current.x) ==> r
    ensures next.x == current.x && (current.y < next.y <= destination.y || destination.y <= next.y < current.y) ==> r
  {
    ManhattanDistance(next, destination) < ManhattanDistance(current, destination)
  }

  /** `canUseAdaptiveChannel`: always without a next node, else only for a minimal hop. */
  function CanUseAdaptiveChannel(current: Node, next: Node?, destination: Node): (r: bool)
    ensures next == null ==> r
    ensures next != null ==> (r <==> ManhattanDistance(next, destination) < ManhattanDistance(current, destination))
  {
    if next == null then true else IsMinimalRoute(current, next, destination)
  }

  /** `mustUseDeterministicChannel`: the destination is within two hops. */
  function MustUseDeterministicChannel(current: Node, destination: Node): (r: bool)
    ensures r <==> ManhattanDistance(current, destination) <= 2
    ensures r ==> Abs(current.x - destination.x) <= 2 && Abs(current.y - destination.y) <= 2
  {
    ManhattanDistance(current, destination) <= 2
  }

  /** `wouldCreateDeadlock`: a stub that never reports a deadlock. */
  function WouldCreateDeadlock(current: Node, link: Link, vc: VirtualChannel): (r: bool)
    ensures !r
  {
    if vc == Deterministic then false else false
  }

  /** `isChannelFree`: the link's flag for the channel, looked up by the channel's integer value. */
  function IsChannelFree(link: Link, vc: VirtualChannel): (free: bool)
    reads link
    ensures free <==> link.CanTransmit(vc)
  {
    link.IsVirtualChannelFree(Ordinal(vc))
  }

  /** The far end of `link` seen from `current`: node B when node A is `current`, node A otherwise. */
  function FarEnd(link: Link, current: Node): Node?
  {
    if link.source == current then link.destination else link.source
  }

  /** Every link of `ls` exists and has a node at its far end, as the source's dereferences need. */
  predicate Resolved(ls: seq<Link?>, current: Node)
  {
    forall k :: 0 <= k < |ls| ==> ls[k] != null && FarEnd(ls[k], current) != null
  }

  /** The far end of `link` is no farther from the destination than `current`. */
  predicate NotFarther(link: Link, current: Node, destination: Node)
    requires FarEnd(link, current) != null
  {
    ManhattanDistance(FarEnd(link, current), destination) <= ManhattanDistance(current, destination)
  }

  /** The links of `ls`, in order, that do not lead farther from the destination. */
  function PossibleRoutes(ls: seq<Link?>, current: Node, destination: Node): (routes: seq<Link>)
    requires Resolved(ls, current)
    ensures forall i :: 0 <= i < |routes| ==> routes[i] in ls && FarEnd(routes[i], current) != null
                                              && NotFarther(routes[i], current, destination)
    ensures forall k :: 0 <= k < |ls| && NotFarther(ls[k], current, destination) ==> ls[k] in routes
  {
    if ls == [] then []
    else
      var last: Link := ls[|ls| - 1];
      assert forall k :: 0 <= k < |ls| - 1 ==> ls[..|ls| - 1][k] == ls[k];
      PossibleRoutes(ls[..|ls| - 1], current, destination) + (if NotFarther(last, current, destination) then [last] else [])
  }

  /** `getPossibleRoutes` */
  method GetPossibleRoutes(current: Node, destination: Node) returns (routes: seq<Link>)
    requires Resolved(current.links, current)
    ensures routes == PossibleRoutes(current.links, current, destination)
  {
    var links := current.links;
    routes := [];
    var i := 0;
    while i < |links|
      invariant 0 <= i <= |links| && routes == PossibleRoutes(links[..i], current, destination)
    {
      var link := links[i];
      var next := if link.source == current then link.destination else link.source;
      assert links[..i + 1][..i] == links[..i];
      if ManhattanDistance(next, destination) <= ManhattanDistance(current, destination) {
        routes := routes + [link];
      }
      i := i + 1;
    }
    assert links[..i] == links;
  }

  /** The far end of the route is strictly closer to the destination. */
  predicate Closer(routes: seq<Link>, j: int, current: Node, destination: Node)
  {
    0 <= j < |routes| && FarEnd(routes[j], current) != null && IsMinimalRoute(current, FarEnd(routes[j], current), destination)
  }

  /**
   * The position, among the first `n` routes, of the first one whose far end
   * is strictly closer and, among those, closest to the destination; -1 when
   * no route brings the message closer.
   */
  function BestIndex(routes: seq<Link>, current: Node, destination: Node, n: nat): (k: int)
    requires n <= |routes|
    ensures -1 <= k < n
    ensures k >= 0 ==> Closer(routes, k, current, destination)
  {
    if n == 0 then -1
    else
      var k := BestIndex(routes, current, destination, n - 1);
      if Closer(routes, n - 1, current, destination)
         && (k == -1 || ManhattanDistance(FarEnd(routes[n - 1], current), destination) < ManhattanDistance(FarEnd(routes[k], current), destination))
      then n - 1
      else k
  }

  /**
   * `BestIndex` is -1 exactly when no route is strictly closer; otherwise its
   * far end is the closest of the strictly closer ones, and strictly closer
   * than that of every earlier one.
   */
  lemma {:induction false} BestIndexIsBest(routes: seq<Link>, current: Node, destination: Node, n: nat)
    requires n <= |routes|
    ensures var k := BestIndex(routes, current, destination, n);
            && (k == -1 <==> forall j :: 0 <= j < n ==> !Closer(routes, j, current, destination))
            && (k >= 0 ==> forall j :: 0 <= j < n && Closer(routes, j, current, destination) ==>
                 ManhattanDistance(FarEnd(routes[k], current), destination) <= ManhattanDistance(FarEnd(routes[j], current), destination))
            && (k >= 0 ==> forall j :: 0 <= j < k && Closer(routes, j, current, destination) ==>
                 ManhattanDistance(FarEnd(routes[k], current), destination) < ManhattanDistance(FarEnd(routes[j], current), destination))
  {
    if n > 0 {
      BestIndexIsBest(routes, current, destination, n - 1);
    }
  }

  /** The state of the `selectAdaptiveRoute` loop after the first `i` routes: the best route so far and its distance. */
  ghost predicate Scanned(routes: seq<Link>, current: Node, destination: Node, i: nat, best: Option<Link>, minDistance: int)
  {
    i <= |routes|
    && var k := BestIndex(routes, current, destination, i);
       && best == (if k == -1 then None else Some(routes[k]))
       && minDistance == if k == -1 then IntMax else ManhattanDistance(FarEnd(routes[k], current), destination)
  }

  /** One step of the `selectAdaptiveRoute` loop: route `i` replaces the best so far when it is strictly closer than both. */
  lemma ScannedStep(routes: seq<Link>, current: Node, destination: Node, i: nat, best: Option<Link>, minDistance: int)
    requires Scanned(routes, current, destination, i, best, minDistance) && i < |routes|
    requires FarEnd(routes[i], current) != null
    requires ManhattanDistance(current, destination) <= IntMax
    ensures var d := ManhattanDistance(FarEnd(routes[i], current), destination);
            if IsMinimalRoute(current, FarEnd(routes[i], current), destination) && d < minDistance
            then Scanned(routes, current, destination, i + 1, Some(routes[i]), d)
            else Scanned(routes, current, destination, i + 1, best, minDistance)
  {
  }

  /** `selectAdaptiveRoute`: the first possible route whose far end is closest, among those strictly closer; none when no route is. */
  method SelectAdaptiveRoute(current: Node, destination: Node) returns (best: Option<Link>)
    requires Resolved(current.links, current) && ManhattanDistance(current, destination) <= IntMax
    ensures var routes := PossibleRoutes(current.links, current, destination);
            var k := BestIndex(routes, current, destination, |routes|);
            best == if k == -1 then None else Some(routes[k])
  {
    var possibleRoutes := GetPossibleRoutes(current, destination);
    best := None;
    var minDistance := IntMax;
    var i := 0;
    while i < |possibleRoutes|
      invariant Scanned(possibleRoutes, current, destination, i, best, minDistance)
    {
      var link := possibleRoutes[i];
      var next := if link.source == current then link.destination else link.source;
      assert next == FarEnd(link, current);
      ScannedStep(possibleRoutes, current, destination, i, best, minDistance);
      if IsMinimalRoute(current, next, destination) {
        var distance := ManhattanDistance(next, destination);
        if distance < minDistance {
          minDistance := distance;
          best := Some(link);
        }
      }
      i := i + 1;
    }
  }

  /** The direction `getDeterministicRoute` looks for along an offset: positive for a positive offset, negative otherwise. */
  function Toward(delta: int, positive: Direction, negative: Direction): Direction
  {
    if delta > 0 then positive else negative
  }

  /** The position of the first link of `ls` tagged `dir`, or `|ls|` when there is none. */
  function FirstTagged(ls: seq<Link?>, dir: Direction): (k: nat)
    requires forall i :: 0 <= i < |ls| ==> ls[i] != null
    ensures k <= |ls|
    ensures forall i :: 0 <= i < k ==> ls[i].direction != dir
    ensures k < |ls| ==> ls[k].direction == dir
  {
    if ls == [] || ls[0].direction == dir then 0
    else
      assert forall i :: 1 <= i < |ls| ==> ls[i] == ls[1..][i - 1];
      1 + FirstTagged(ls[1..], dir)
  }

  /** The first link of `ls` tagged `dir`, if any. */
  function FirstLinkTagged(ls: seq<Link?>, dir: Direction): (r: Option<Link>)
    requires forall i :: 0 <= i < |ls| ==> ls[i] != null
  {
    var k := FirstTagged(ls, dir);
    if k == |ls| then None else var l: Link := ls[k]; Some(l)
  }

  /**
   * `getDeterministicRoute` as written: when the destination lies in another
   * column, the first link tagged with the X direction towards it; failing
   * that, when it lies in another row, the first link tagged with the Y
   * direction towards it. See `DeterministicRouteAsWrittenTurnsBack` for why
   * a direction tag does not say where a link leads.
   */
  function GetDeterministicRouteAsWritten(current: Node, destination: Node): (r: Option<Link>)
    reads current
    requires forall i :: 0 <= i < |current.links| ==> current.links[i] != null
    ensures r.Some? ==> r.value in current.links
    ensures var ls, dx, dy := current.links, destination.x - current.x, destination.y - current.y;
            var xDir, yDir := Toward(dx, PositiveX, NegativeX), Toward(dy, PositiveY, NegativeY);
            && (dx != 0 && FirstTagged(ls, xDir) < |ls| ==> r.Some? && r.value == ls[FirstTagged(ls, xDir)])
            && (!(dx != 0 && FirstTagged(ls, xDir) < |ls|) && dy != 0 && FirstTagged(ls, yDir) < |ls| ==> r.Some? && r.value == ls[FirstTagged(ls, yDir)])
            && (r.None? <==> (dx == 0 || FirstTagged(ls, xDir) == |ls|) && (dy == 0 || FirstTagged(ls, yDir) == |ls|))
  {
    var dx, dy := destination.x - current.x, destination.y - current.y;
    var byX := if dx != 0 then FirstLinkTagged(current.links, Toward(dx, PositiveX, NegativeX)) else None;
    if byX.Some? then byX
    else if dy != 0 then FirstLinkTagged(current.links, Toward(dy, PositiveY, NegativeY))
    else None
  }

  /** The unit step along an offset that is not zero. */
  function Step(delta: int): (s: int)
    ensures s == 1 || s == -1
    ensures delta != 0 ==> Abs(delta - s) + 1 == Abs(delta)
  {
    if delta > 0 then 1 else -1
  }

  /** The far end of `link` seen from `current` is the node `(sx, sy)` away. */
  predicate Heads(link: Link?, current: Node, sx: int, sy: int)
  {
    link != null && FarEnd(link, current) != null
    && FarEnd(link, current).x == current.x + sx && FarEnd(link, current).y == current.y + sy
  }

  /** The position of the first link of `ls` leading `(sx, sy)` away from `current`, or `|ls|` when there is none. */
  function FirstHeading(ls: seq<Link?>, current: Node, sx: int, sy: int): (k: nat)
    ensures k <= |ls|
    ensures forall i :: 0 <= i < k ==> !Heads(ls[i], current, sx, sy)
    ensures k < |ls| ==> Heads(ls[k], current, sx, sy)
  {
    if ls == [] || Heads(ls[0], current, sx, sy) then 0
    else
      assert forall i :: 1 <= i < |ls| ==> ls[i] == ls[1..][i - 1];
      1 + FirstHeading(ls[1..], current, sx, sy)
  }

  /** The first link of `ls` leading `(sx, sy)` away from `current`, if any. */
  function FirstLinkHeading(ls: seq<Link?>, current: Node, sx: int, sy: int): (r: Option<Link>)
    ensures r.Some? ==> r.value in ls && Heads(r.value, current, sx, sy)
  {
    var k := FirstHeading(ls, current, sx, sy);
    if k == |ls| then None else var l: Link := ls[k]; Some(l)
  }

  /**
   * The deterministic route `getDeterministicRoute` evidently intends,
   * dimension order X first: when the destination lies in another column,
   * the first link leading one column towards it; failing that, when it lies
   * in another row, the first link leading one row towards it. Such a link is
   * always a minimal hop.
   */
  function GetDeterministicRoute(current: Node, destination: Node): (r: Option<Link>)
    reads current
    ensures r.Some? ==> r.value in current.links && FarEnd(r.value, current) != null
                        && IsMinimalRoute(current, FarEnd(r.value, current), destination)
    ensures var ls, dx, dy := current.links, destination.x - current.x, destination.y - current.y;
            var kx, ky := FirstHeading(ls, current, Step(dx), 0), FirstHeading(ls, current, 0, Step(dy));
            && (dx != 0 && kx < |ls| ==> r.Some? && r.value == ls[kx])
            && (!(dx != 0 && kx < |ls|) && dy != 0 && ky < |ls| ==> r.Some? && r.value == ls[ky])
            && (r.None? <==> (dx == 0 || kx == |ls|) && (dy == 0 || ky == |ls|))
  {
    var dx, dy := destination.x - current.x, destination.y - current.y;
    var byX := if dx != 0 then FirstLinkHeading(current.links, current, Step(dx), 0) else None;
    if byX.Some? then byX
    else if dy != 0 then FirstLinkHeading(current.links, current, 0, Step(dy))
    else None
  }

  /**
   * The link one step of `findPath` leaves by: the best adaptive route when its
   * adaptive channel is free, otherwise the deterministic route when its
   * deterministic channel is free; none when neither. Either way the hop is minimal.
   */
  ghost function StepLink(current: Node, destination: Node): (r: Option<Link>)
    reads current, current.links
    requires Resolved(current.links, current)
    ensures r.Some? ==> r.value in current.links && FarEnd(r.value, current) != null
                        && IsMinimalRoute(current, FarEnd(r.value, current), destination)
  {
    var routes := PossibleRoutes(current.links, current, destination);
    var k := BestIndex(routes, current, destination, |routes|);
    if k != -1 && IsChannelFree(routes[k], Adaptive) then Some(routes[k])
    else
      var det := GetDeterministicRoute(current, destination);
      if det.Some? && IsChannelFree(det.value, Deterministic) then det else None
  }

  /** The body of the `findPath` loop up to the hop: the adaptive choice, then the deterministic fallback. */
  method ChooseLink(current: Node, destination: Node) returns (nextLink: Option<Link>)
    requires Resolved(current.links, current) && ManhattanDistance(current, destination) <= IntMax
    ensures nextLink == StepLink(current, destination)
  {
    nextLink := None;
    if CanUseAdaptiveChannel(current, null, destination) {
      nextLink := SelectAdaptiveRoute(current, destination);
      if nextLink.Some? && !IsChannelFree(nextLink.value, Adaptive) {
        nextLink := None;
      }
    }
    if nextLink.None? {
      nextLink := GetDeterministicRoute(current, destination);
      if nextLink.Some? && !IsChannelFree(nextLink.value, Deterministic) {
        return None;
      }
    }
  }

  // ---------------------------------------------------------------- on the built mesh

  /** `node` is the node of `net`'s grid at its own coordinates. */
  ghost predicate InGrid(net: Network, node: Node)
    reads net
    requires net.NodesBuilt()
  {
    0 <= node.x < net.width && 0 <= node.y < net.height && node == net.nodes[node.y][node.x]
  }

  /** Every adaptive channel of the mesh is free. */
  ghost predicate AdaptiveFree(net: Network)
    reads net, net.links
  {
    forall k :: 0 <= k < |net.links| ==> net.links[k].CanTransmit(Adaptive)
  }

  /** Every deterministic channel of the mesh is free. */
  ghost predicate DeterministicFree(net: Network)
    reads net, net.links
  {
    forall k :: 0 <= k < |net.links| ==> net.links[k].CanTransmit(Deterministic)
  }

  /** `path` runs through grid nodes, each step to an orthogonal neighbour. */
  ghost predicate GridWalk(net: Network, path: seq<Node>)
    reads net
    requires net.NodesBuilt()
  {
    (forall i :: 0 <= i < |path| ==> InGrid(net, path[i]))
    && forall i :: 0 <= i < |path| - 1 ==> ManhattanDistance(path[i], path[i + 1]) == 1
  }

  /** A link attached to a grid node of the built mesh leads to an orthogonal neighbour in the grid. */
  lemma AttachedLinkLeadsToNeighbour(net: Network, node: Node, j: nat)
    requires net.Built() && InGrid(net, node) && j < |node.links|
    ensures node.links[j] != null && node.links[j] in net.links
    ensures FarEnd(node.links[j], node) != null && InGrid(net, FarEnd(node.links[j], node))
    ensures ManhattanDistance(node, FarEnd(node.links[j], node)) == 1
  {
    IncidentLinksMembers(net.links, node);
    var l := node.links[j];
    var m :| 0 <= m < |net.links| && net.links[m] == l;
    var w := MeshWires(net.width, net.height, net.width)[m];
    assert l.source == net.nodes[w.fy][w.fx] && l.destination == net.nodes[w.ty][w.tx];
  }

  /** The links of a grid node of the built mesh all resolve. */
  lemma GridLinksResolve(net: Network, node: Node)
    requires net.Built() && InGrid(net, node)
    ensures Resolved(node.links, node)
    ensures forall j :: 0 <= j < |node.links| ==> node.links[j] in net.links
  {
    forall j | 0 <= j < |node.links|
      ensures node.links[j] != null && FarEnd(node.links[j], node) != null && node.links[j] in net.links
    {
      AttachedLinkLeadsToNeighbour(net, node, j);
    }
  }

  /** The link of wire `w` of the built mesh is attached to both of its ends: its positions in each end's list. */
  lemma WireAttached(net: Network, w: MeshWire) returns (a: nat, b: nat)
    requires net.Built() && w in MeshWires(net.width, net.height, net.width)
    ensures MeshWireOk(net.width, net.height, w)
    ensures a < |net.nodes[w.fy][w.fx].links| && FarEnd(net.nodes[w.fy][w.fx].links[a], net.nodes[w.fy][w.fx]) == net.nodes[w.ty][w.tx]
    ensures b < |net.nodes[w.ty][w.tx].links| && FarEnd(net.nodes[w.ty][w.tx].links[b], net.nodes[w.ty][w.tx]) == net.nodes[w.fy][w.fx]
  {
    var ws := MeshWires(net.width, net.height, net.width);
    var m :| 0 <= m < |ws| && ws[m] == w;
    var l := net.links[m];
    var from, to := net.nodes[w.fy][w.fx], net.nodes[w.ty][w.tx];
    IncidentLinksMembers(net.links, from);
    IncidentLinksMembers(net.links, to);
    assert Touches(l, from) && Touches(l, to);
    assert l in from.links && l in to.links;
    a :| 0 <= a < |from.links| && from.links[a] == l;
    b :| 0 <= b < |to.links| && to.links[b] == l;
    assert from != to by {
      assert from.x == w.fx && from.y == w.fy && to.x == w.tx && to.y == w.ty;
    }
  }

  /**
   * `getDeterministicRoute` as written goes the wrong way. In a 3 x 1 mesh the
   * middle node's first link is the one from its left neighbour, tagged
   * `PositiveX` because it was created pointing right; so towards the right
   * neighbour it returns the link back to the left one. And since no link is
   * ever tagged `NegativeX`, towards the left neighbour it returns nothing.
   */
  lemma DeterministicRouteAsWrittenTurnsBack(net: Network)
    requires net.Built() && net.width == 3 && net.height == 1
    ensures var left, middle, right := net.nodes[0][0], net.nodes[0][1], net.nodes[0][2];
            && (forall i :: 0 <= i < |middle.links| ==> middle.links[i] != null)
            && GetDeterministicRouteAsWritten(middle, right).Some?
            && FarEnd(GetDeterministicRouteAsWritten(middle, right).value, middle) == left
            && ManhattanDistance(left, right) > ManhattanDistance(middle, right)
            && GetDeterministicRouteAsWritten(middle, left).None?
  {
    var left, middle, right := net.nodes[0][0], net.nodes[0][1], net.nodes[0][2];
    MiddleOfThree(net);
    assert FirstTagged(middle.links, PositiveX) == 0;
    assert FirstTagged(middle.links[1..], NegativeX) == 1;
  }

  /** The links of a 3 x 1 mesh: from left to middle, then from middle to right, both tagged `PositiveX`; the middle node holds both, in that order. */
  lemma MiddleOfThree(net: Network)
    requires net.Built() && net.width == 3 && net.height == 1
    ensures var left, middle, right := net.nodes[0][0], net.nodes[0][1], net.nodes[0][2];
            && |net.links| == 2 && left != middle
            && net.links[0].source == left && net.links[0].destination == middle && net.links[0].direction == PositiveX
            && net.links[1].source == middle && net.links[1].destination == right && net.links[1].direction == PositiveX
            && middle.links == [net.links[0], net.links[1]]
  {
    var left, middle, right := net.nodes[0][0], net.nodes[0][1], net.nodes[0][2];
    assert ColumnWires(3, 1, 0, 1) == [RightWire(0, 0)];
    assert ColumnWires(3, 1, 1, 1) == [RightWire(1, 0)];
    assert ColumnWires(3, 1, 2, 1) == [];
    assert MeshWires(3, 1, 3) == [RightWire(0, 0), RightWire(1, 0)];
    var ls := net.links;
    assert left != middle by { assert left.x == 0 && middle.x == 1; }
    assert IncidentLinks(ls[..1], middle) == [ls[0]];
    assert ls[..2] == ls;
  }

  /** A grid node has a link to each of its grid neighbours: the position of the one `(sx, sy)` away. */
  lemma NeighbourLink(net: Network, node: Node, sx: int, sy: int) returns (j: nat)
    requires net.Built() && InGrid(net, node)
    requires ((sx == 1 || sx == -1) && sy == 0) || (sx == 0 && (sy == 1 || sy == -1))
    requires 0 <= node.x + sx < net.width && 0 <= node.y + sy < net.height
    ensures j < |node.links| && Heads(node.links[j], node, sx, sy)
  {
    if sx == 1 {
      j := LinkFromStart(net, node, RightWire(node.x, node.y), true);
    } else if sx == -1 {
      j := LinkFromEnd(net, node, RightWire(node.x - 1, node.y), true);
    } else if sy == 1 {
      j := LinkFromStart(net, node, DownWire(node.x, node.y), false);
    } else {
      j := LinkFromEnd(net, node, DownWire(node.x, node.y - 1), false);
    }
  }

  /** The link of `w` as seen from its first end: it leads to the wire's other end. */
  lemma LinkFromStart(net: Network, node: Node, w: MeshWire, horizontal: bool) returns (j: nat)
    requires net.Built() && InGrid(net, node) && node.x == w.fx && node.y == w.fy
    requires w == (if horizontal then RightWire(w.fx, w.fy) else DownWire(w.fx, w.fy))
    requires w.tx < net.width && w.ty < net.height
    ensures j < |node.links| && FarEnd(node.links[j], node) == net.nodes[w.ty][w.tx]
    ensures FarEnd(node.links[j], node).x == w.tx && FarEnd(node.links[j], node).y == w.ty
  {
    MeshWiresComplete(net.width, net.height, net.width, w.fx, w.fy, horizontal);
    var b;
    j, b := WireAttached(net, w);
  }

  /** The link of `w` as seen from its second end: it leads to the wire's first end. */
  lemma LinkFromEnd(net: Network, node: Node, w: MeshWire, horizontal: bool) returns (j: nat)
    requires net.Built() && InGrid(net, node) && node.x == w.tx && node.y == w.ty
    requires w == (if horizontal then RightWire(w.fx, w.fy) else DownWire(w.fx, w.fy))
    ensures j < |node.links| && FarEnd(node.links[j], node) == net.nodes[w.fy][w.fx]
    ensures FarEnd(node.links[j], node).x == w.fx && FarEnd(node.links[j], node).y == w.fy
  {
    MeshWiresComplete(net.width, net.height, net.width, w.fx, w.fy, horizontal);
    var a;
    a, j := WireAttached(net, w);
  }

  /** From a grid node other than the destination the deterministic route always exists, and is a link of the mesh. */
  lemma DeterministicRouteExists(net: Network, node: Node, destination: Node)
    requires net.Built() && InGrid(net, node) && InGrid(net, destination) && node != destination
    ensures GetDeterministicRoute(node, destination).Some?
    ensures GetDeterministicRoute(node, destination).value in net.links
  {
    var dx, dy := destination.x - node.x, destination.y - node.y;
    GridLinksResolve(net, node);
    if dx != 0 {
      var j := NeighbourLink(net, node, Step(dx), 0);
    } else {
      assert dy != 0 by {
        assert node == net.nodes[node.y][node.x] && destination == net.nodes[destination.y][destination.x];
      }
      var j := NeighbourLink(net, node, 0, Step(dy));
    }
  }

  /**
   * From a grid node other than the destination a step always finds a link
   * when every adaptive channel, or every deterministic channel, is free.
   */
  lemma StepSucceeds(net: Network, node: Node, destination: Node)
    requires net.Built() && InGrid(net, node) && InGrid(net, destination) && node != destination
    ensures Resolved(node.links, node)
    ensures AdaptiveFree(net) || DeterministicFree(net) ==> StepLink(node, destination).Some?
  {
    GridLinksResolve(net, node);
    DeterministicRouteExists(net, node, destination);
    var det := GetDeterministicRoute(node, destination).value;
    var routes := PossibleRoutes(node.links, node, destination);
    var j :| 0 <= j < |node.links| && node.links[j] == det;
    assert det in routes;
    var i :| 0 <= i < |routes| && routes[i] == det;
    assert Closer(routes, i, node, destination);
    BestIndexIsBest(routes, node, destination, |routes|);
    var k := BestIndex(routes, node, destination, |routes|);
    assert routes[k] in net.links;
  }

  /** What a step of `findPath` from a grid node needs: resolved links, a distance below `INT_MAX`, and with free channels a link to take. */
  lemma ReadyToStep(net: Network, current: Node, destination: Node)
    requires net.Built() && InGrid(net, current) && InGrid(net, destination) && current != destination
    requires net.width + net.height <= IntMax
    ensures Resolved(current.links, current) && ManhattanDistance(current, destination) <= IntMax
    ensures AdaptiveFree(net) || DeterministicFree(net) ==> StepLink(current, destination).Some?
  {
    StepSucceeds(net, current, destination);
  }

  /** A hop along a link of a grid node: the far end is a neighbour, and a strictly closer one is exactly one closer. */
  lemma HopAlong(net: Network, current: Node, link: Link, destination: Node)
    requires net.Built() && InGrid(net, current) && link in current.links
    ensures FarEnd(link, current) != null && InGrid(net, FarEnd(link, current))
    ensures ManhattanDistance(current, FarEnd(link, current)) == 1
    ensures IsMinimalRoute(current, FarEnd(link, current), destination) ==>
              ManhattanDistance(FarEnd(link, current), destination) + 1 == ManhattanDistance(current, destination)
  {
    var j :| 0 <= j < |current.links| && current.links[j] == link;
    AttachedLinkLeadsToNeighbour(net, current, j);
    ManhattanIsMetric(current, FarEnd(link, current), destination);
  }

  /** The invariant of the `findPath` loop: a shortest grid walk of at most 100 nodes from the source to `current`. */
  ghost predicate Searching(net: Network, source: Node, destination: Node, path: seq<Node>, current: Node)
    reads net
    requires net.NodesBuilt()
  {
    && 0 < |path| <= MaxPathNodes && path[0] == source && path[|path| - 1] == current
    && (source == destination ==> |path| == 1)
    && InGrid(net, current) && GridWalk(net, path)
    && |path| - 1 + ManhattanDistance(current, destination) == ManhattanDistance(source, destination)
  }

  lemma SearchStart(net: Network, source: Node, destination: Node)
    requires net.NodesBuilt() && InGrid(net, source)
    ensures Searching(net, source, destination, [source], source)
  {
  }

  /**
   * One hop of the `findPath` loop along the link a step chooses: the walk
   * grows by a neighbour one hop closer, and stays within 100 nodes when the
   * destination is fewer than 100 hops from the source.
   */
  lemma SearchStep(net: Network, source: Node, destination: Node, path: seq<Node>, current: Node, link: Link)
    requires net.Built() && InGrid(net, destination) && Searching(net, source, destination, path, current)
    requires current != destination && Resolved(current.links, current) && StepLink(current, destination) == Some(link)
    ensures FarEnd(link, current) != null
    ensures |path + [FarEnd(link, current)]| <= MaxPathNodes ==>
              Searching(net, source, destination, path + [FarEnd(link, current)], FarEnd(link, current))
    ensures ManhattanDistance(source, destination) < MaxPathNodes ==> |path| + 1 <= MaxPathNodes
  {
    HopAlong(net, current, link, destination);
    var next := FarEnd(link, current);
    var path' := path + [next];
    assert forall i :: 0 <= i < |path| ==> path'[i] == path[i];
    assert ManhattanDistance(current, destination) > 0 by {
      assert current == net.nodes[current.y][current.x] && destination == net.nodes[destination.y][destination.x];
    }
  }

  /** The body of the `findPath` loop: choose a link and cross it, or give up. */
  method Advance(net: Network, current: Node, destination: Node, ghost source: Node, ghost path: seq<Node>) returns (hop: Option<Node>)
    requires net.Built() && InGrid(net, destination) && Searching(net, source, destination, path, current)
    requires current != destination && net.width + net.height <= IntMax
    ensures hop.None? ==> !AdaptiveFree(net) && !DeterministicFree(net)
    ensures hop.Some? ==> |path + [hop.value]| <= MaxPathNodes ==> Searching(net, source, destination, path + [hop.value], hop.value)
    ensures hop.Some? ==> ManhattanDistance(source, destination) < MaxPathNodes ==> |path| + 1 <= MaxPathNodes
  {
    ReadyToStep(net, current, destination);
    var nextLink := ChooseLink(current, destination);
    if nextLink.None? {
      return None;
    }
    var link := nextLink.value;
    SearchStep(net, source, destination, path, current, link);
    var next: Node := if link.source == current then link.destination else link.source;
    hop := Some(next);
  }

  /**
   * `findPath`: on the built mesh, either no path or a shortest walk of at
   * most 100 nodes from the source to the destination, each step to a
   * neighbour. With every adaptive or every deterministic channel free and
   * the destination fewer than 100 hops away, the walk is found.
   */
  method FindPath(net: Network, source: Node, destination: Node) returns (path: seq<Node>)
    requires net.Built() && InGrid(net, source) && InGrid(net, destination)
    requires net.width + net.height <= IntMax
    ensures path != [] ==> && |path| == ManhattanDistance(source, destination) + 1 && |path| <= MaxPathNodes
                           && path[0] == source && path[|path| - 1] == destination
    ensures source == destination ==> path == [source]
    ensures GridWalk(net, path)
    ensures (AdaptiveFree(net) || DeterministicFree(net)) && ManhattanDistance(source, destination) < MaxPathNodes ==> path != []
  {
    path := [source];
    var current: Node := source;
    SearchStart(net, source, destination);
    while current != destination
      invariant Searching(net, source, destination, path, current)
      decreases MaxPathNodes - |path|
    {
      var hop := Advance(net, current, destination, source, path);
      if hop.None? {
        return [];
      }
      var next := hop.value;
      path := path + [next];
      current := next;
      if |path| > MaxPathNodes {
        return [];
      }
    }
  }

  /** `calculatePathDelay`: per hop, the configured link latency (1.0 without a configuration) plus half a unit of queuing. */
  method CalculatePathDelay(path: seq<Node>, config: Option<Config>) returns (totalDelay: real)
    ensures |path| < 2 ==> totalDelay == 0.0
    ensures |path| >= 2 ==> totalDelay == (|path| - 1) as real * ((if config.Some? then config.value.linkLatency else 1.0) + 0.5)
  {
    if |path| < 2 {
      return 0.0;
    }
    var linkLatency := if config.Some? then config.value.linkLatency else 1.0;
    var transmissionDelay := (|path| - 1) as real * linkLatency;
    var queuingDelay := 0.0;
    var i := 0;
    while i < |path| - 1
      invariant 0 <= i <= |path| - 1 && queuingDelay == i as real * 0.5
    {
      queuingDelay := queuingDelay + 0.5;
      i := i + 1;
    }
    totalDelay := transmissionDelay + queuingDelay;
  }

  /**
   * `routeMessageWithStats`: success exactly when a path is found, with one
   * hop per step and the path delay; failure leaves everything at zero.
   */
  method RouteMessageWithStats(net: Network, config: Option<Config>, source: Node, destination: Node) returns (result: RoutingResult)
    requires net.Built() && InGrid(net, source) && InGrid(net, destination)
    requires net.width + net.height <= IntMax
    ensures result.success <==> result.path != []
    ensures !result.success ==> result == EmptyResult()
    ensures result.success ==>
              && result.hopCount == |result.path| - 1 && result.delay == 0.0
              && result.path[0] == source && result.path[|result.path| - 1] == destination
              && result.totalDelay == result.hopCount as real * ((if config.Some? then config.value.linkLatency else 1.0) + 0.5)
    ensures result.success ==> result.hopCount == ManhattanDistance(source, destination)
    ensures GridWalk(net, result.path) && |result.path| <= MaxPathNodes
    ensures (AdaptiveFree(net) || DeterministicFree(net)) && ManhattanDistance(source, destination) < MaxPathNodes ==> result.success
  {
    result := EmptyResult();
    var path := FindPath(net, source, destination);
    if path == [] {
      return;
    }
    var totalDelay := CalculatePathDelay(path, config);
    result := result.(path := path, hopCount := |path| - 1, totalDelay := totalDelay, success := true);
  }
}
