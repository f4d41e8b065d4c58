/**
 * The binary hypercube topology (src/network/hypercube_network.cpp): `2^n`
 * nodes numbered `0 .. 2^n - 1`, node `i` carrying the `n` bits of `i` as its
 * coordinates, and one link between every two ids that differ in one bit.
 */
module Hypercube {
  import opened Bits
  import opened Wrappers
  import opened Graph

  /** The vector `getCoordinates` builds: entry `i` is bit `i` of the id. */
  function Coordinates(n: nat, id: int): (c: seq<int>)
    ensures |c| == n
    ensures forall i :: 0 <= i < n ==> c[i] == Bit(id, i)
  {
    if n == 0 then [] else [Bit(id, 0)] + Coordinates(n - 1, id / 2)
  }

  /** The id `getNodeId` assembles: bit `i` set exactly when coordinate `i` is non-zero. */
  function NodeIdOf(c: seq<int>): (id: nat)
    ensures id < Pow2(|c|)
  {
    if c == [] then 0 else (if c[0] != 0 then 1 else 0) + 2 * NodeIdOf(c[1..])
  }

  lemma {:induction false} NodeIdOfCoordinates(n: nat, id: int)
    requires 0 <= id < Pow2(n)
    ensures NodeIdOf(Coordinates(n, id)) == id
  {
    if n > 0 {
      var c := Coordinates(n, id);
      assert c[1..] == Coordinates(n - 1, id / 2);
      NodeIdOfCoordinates(n - 1, id / 2);
    }
  }

  lemma {:induction false} CoordinatesOfNodeId(c: seq<int>)
    requires forall i :: 0 <= i < |c| ==> c[i] == 0 || c[i] == 1
    ensures Coordinates(|c|, NodeIdOf(c)) == c
  {
    if c != [] {
      CoordinatesOfNodeId(c[1..]);
      var id := NodeIdOf(c);
      assert id % 2 == c[0] && id / 2 == NodeIdOf(c[1..]);
      assert Coordinates(|c|, id) == [c[0]] + c[1..];
    }
  }

  lemma {:induction false} NodeIdSnoc(s: seq<int>, b: int)
    ensures NodeIdOf(s + [b]) == NodeIdOf(s) + (if b != 0 then Pow2(|s|) else 0)
  {
    if s != [] {
      assert (s + [b])[1..] == s[1..] + [b];
      NodeIdSnoc(s[1..], b);
    }
  }

  /** Number of positions at which two vectors of the same length differ. */
  function CountDiff(s: seq<int>, t: seq<int>): nat
    requires |s| == |t|
  {
    if s == [] then 0 else (if s[0] != t[0] then 1 else 0) + CountDiff(s[1..], t[1..])
  }

  lemma {:induction false} CountDiffZero(s: seq<int>, t: seq<int>)
    requires |s| == |t|
    ensures CountDiff(s, t) == 0 <==> s == t
  {
    if s != [] {
      CountDiffZero(s[1..], t[1..]);
      if s[0] == t[0] && s[1..] == t[1..] {
        assert s == [s[0]] + s[1..] && t == [t[0]] + t[1..];
      }
    }
  }

  /** The popcount of `a ^ b` counts the coordinates in which the two nodes differ. */
  lemma {:induction false} HammingCountsDifferences(a: nat, b: nat, n: nat)
    requires a < Pow2(n) && b < Pow2(n)
    ensures Popcount(Xor(a, b)) == CountDiff(Coordinates(n, a), Coordinates(n, b))
  {
    XorStep(a, b);
    if n > 0 {
      HammingCountsDifferences(a / 2, b / 2, n - 1);
      assert Coordinates(n, a)[1..] == Coordinates(n - 1, a / 2);
      assert Coordinates(n, b)[1..] == Coordinates(n - 1, b / 2);
    }
  }

  /** `areNeighbors`: `a ^ b` is non-zero and `x & (x - 1)` clears its only bit. */
  function AreNeighbors(node1: nat, node2: nat): (r: bool)
    ensures r ==> node1 != node2
  {
    XorSelf(node1);
    var x := Xor(node1, node2);
    x != 0 && And(x, x - 1) == 0
  }

  /** Two ids are neighbours exactly when they differ in one bit, that is when their Hamming distance is one. */
  lemma AreNeighborsIffOneBit(node1: nat, node2: nat)
    ensures AreNeighbors(node1, node2) <==> Popcount(Xor(node1, node2)) == 1
    ensures AreNeighbors(node1, node2) <==> exists d: nat :: Xor(node1, node2) == Pow2(d)
  {
    var x := Xor(node1, node2);
    PopcountOne(x);
    if x != 0 { AndPredecessor(x); }
    if IsPow2(x) { IsPow2IsPower(x); }
    if exists d: nat :: x == Pow2(d) {
      var d: nat :| x == Pow2(d);
      PowersOfTwoAreIsPow2(d);
    }
  }

  /** The Hamming distance is a distance: zero exactly on equal ids and symmetric. */
  lemma HammingIsDistance(node1: nat, node2: nat)
    ensures Popcount(Xor(node1, node2)) == 0 <==> node1 == node2
    ensures Popcount(Xor(node1, node2)) == Popcount(Xor(node2, node1))
  {
    PopcountZero(Xor(node1, node2));
    XorCommutes(node1, node2);
    if node1 == node2 { XorSelf(node1); }
    if Xor(node1, node2) == 0 { XorZeroMeansEqual(node1, node2); }
  }

  /** The direction `createHypercubeLinks` tags the link of dimension `dim` with. */
  function DirectionOf(dim: nat): Direction
  {
    if dim % 4 == 0 then PositiveX
    else if dim % 4 == 1 then PositiveY
    else if dim % 4 == 2 then NegativeX
    else NegativeY
  }

  /** A link to be created: from node `low` to node `high`, across dimension `dim`. */
  datatype CubeWire = CubeWire(low: nat, high: nat, dim: nat)

  /** The links `createHypercubeLinks` creates for node `a` over dimensions `0 .. d - 1`: one toward every higher neighbour. */
  function RowWires(a: nat, d: nat): seq<CubeWire>
  {
    if d == 0 then [] else RowWires(a, d - 1) + RowStep(a, d - 1)
  }

  /** The link node `a` makes across dimension `d`: one when the neighbour there is higher, none otherwise. */
  function RowStep(a: nat, d: nat): seq<CubeWire>
  {
    if Xor(a, Pow2(d)) > a then [CubeWire(a, Xor(a, Pow2(d)), d)] else []
  }

  lemma RowWiresSnoc(ws: seq<CubeWire>, a: nat, d: nat)
    ensures ws + RowWires(a, d + 1) == (ws + RowWires(a, d)) + RowStep(a, d)
  {
  }

  /** The links created for nodes `0 .. a - 1` of an `n`-dimensional cube, in creation order. */
  function Wires(n: nat, a: nat): seq<CubeWire>
  {
    if a == 0 then [] else Wires(n, a - 1) + RowWires(a - 1, n)
  }

  /** A wire of an `n`-cube joins two ids below `2^n` that differ exactly in bit `dim`, the smaller one first. */
  predicate WireOk(n: nat, w: CubeWire)
  {
    w.dim < n && w.high == Xor(w.low, Pow2(w.dim)) && w.low < w.high < Pow2(n)
  }

  lemma {:induction false} RowWiresOk(n: nat, a: nat, d: nat)
    requires a < Pow2(n) && d <= n
    ensures forall k :: 0 <= k < |RowWires(a, d)| ==> WireOk(n, RowWires(a, d)[k]) && RowWires(a, d)[k].low == a
  {
    if d > 0 {
      RowWiresOk(n, a, d - 1);
      FlipBelow(a, d - 1, n);
    }
  }

  lemma {:induction false} WiresOk(n: nat, a: nat)
    requires a <= Pow2(n)
    ensures forall k :: 0 <= k < |Wires(n, a)| ==> WireOk(n, Wires(n, a)[k]) && Wires(n, a)[k].low < a
  {
    if a > 0 {
      WiresOk(n, a - 1);
      RowWiresOk(n, a - 1, n);
    }
  }

  lemma {:induction false} RowWiresComplete(a: nat, d: nat, j: nat)
    requires j < d && Xor(a, Pow2(j)) > a
    ensures CubeWire(a, Xor(a, Pow2(j)), j) in RowWires(a, d)
  {
    if j < d - 1 { RowWiresComplete(a, d - 1, j); }
  }

  /** Every pair of ids below `a` that differ in one bit below `n` gets a wire. */
  lemma {:induction false} WiresComplete(n: nat, a: nat, low: nat, j: nat)
    requires low < a && j < n && Xor(low, Pow2(j)) > low
    ensures CubeWire(low, Xor(low, Pow2(j)), j) in Wires(n, a)
  {
    if low < a - 1 {
      WiresComplete(n, a - 1, low, j);
    } else {
      RowWiresComplete(low, n, j);
    }
  }

  /** Ids `a` and `a ^ 2^j`, read as coordinate vectors, differ exactly at `j`. */
  lemma FlipDiffersOnlyAt(n: nat, a: nat, j: nat, i: nat)
    requires i < n
    ensures (Coordinates(n, a)[i] != Coordinates(n, Xor(a, Pow2(j)))[i]) <==> i == j
  {
    FlipBitOf(a, j, i);
  }

  class HypercubeNetwork {
    const dimension: nat
    /** `static_cast<int>(std::pow(2, dimension))` */
    const totalNodes: nat := Pow2(dimension)
    /** `hypercubeNodes`, indexed by node id */
    var nodes: seq<Node>
    /** `Network::links`: every link created so far */
    var links: seq<Link>
    /** The links of the most recent `initializeTopology`. */
    ghost var cubeLinks: seq<Link>
    /** The links that were already there before it. */
    ghost var earlierLinks: seq<Link>

    /** `HypercubeNetwork(dimension)`: `2^dimension` nodes to be created, none yet. */
    constructor (dimension: nat)
      ensures this.dimension == dimension && totalNodes == Pow2(dimension)
      ensures nodes == [] && links == [] && cubeLinks == []
    {
      this.dimension := dimension;
      nodes, links := [], [];
      cubeLinks, earlierLinks := [], [];
    }

    /** Node `i` sits at index `i`, with the coordinates and dimension `createHypercubeNodes` gives it. */
    ghost predicate NodesBuilt()
      reads this
    {
      |nodes| == totalNodes
      && forall i :: 0 <= i < |nodes| ==>
           nodes[i].id == i && nodes[i].isHypercube && nodes[i].dimension == dimension
           && nodes[i].coordinates == Coordinates(dimension, i)
    }

    /** The links `ls` are the wires `ws`, one for one, between the nodes the wires name. */
    ghost predicate Wired(ls: seq<Link>, ws: seq<CubeWire>)
      reads this
    {
      |ls| == |ws|
      && forall k :: 0 <= k < |ls| ==>
           ws[k].low < |nodes| && ws[k].high < |nodes|
           && ls[k].source == nodes[ws[k].low] && ls[k].destination == nodes[ws[k].high]
           && ls[k].direction == DirectionOf(ws[k].dim)
    }

    /** The network after `initializeTopology`. */
    ghost predicate Built()
      reads this, nodes
    {
      NodesBuilt() && Wired(cubeLinks, Wires(dimension, totalNodes)) && Attached()
    }

    /** `getCoordinates` */
    method GetCoordinates(nodeId: int) returns (coordinates: seq<int>)
      ensures |coordinates| == dimension
      ensures forall i :: 0 <= i < dimension ==> coordinates[i] == Bit(nodeId, i)
      ensures coordinates == Coordinates(dimension, nodeId)
    {
      coordinates := [];
      var i := 0;
      while i < dimension
        invariant 0 <= i <= dimension
        invariant |coordinates| == i
        invariant forall j :: 0 <= j < i ==> coordinates[j] == Bit(nodeId, j)
      {
        coordinates := coordinates + [Bit(nodeId, i)];  // (nodeId >> i) & 1
        i := i + 1;
      }
    }

    /** `getNodeId`: reads the first `dimension` coordinates as the bits of the id. */
    method GetNodeId(coordinates: seq<int>) returns (nodeId: int)
      requires dimension <= |coordinates|
      ensures 0 <= nodeId < Pow2(dimension)
      ensures nodeId == NodeIdOf(coordinates[..dimension])
    {
      nodeId := 0;
      var i := 0;
      while i < dimension
        invariant 0 <= i <= dimension
        invariant nodeId == NodeIdOf(coordinates[..i])
      {
        NodeIdSnoc(coordinates[..i], coordinates[i]);
        assert coordinates[..i + 1] == coordinates[..i] + [coordinates[i]];
        if coordinates[i] != 0 {
          OrFreshBit(nodeId, i);
          nodeId := Or(nodeId, Pow2(i));
        }
        i := i + 1;
      }
    }

    /** `getHammingDistance`: the popcount of `node1 ^ node2`, one shifted-out bit at a time. */
    method GetHammingDistance(node1: nat, node2: nat) returns (distance: nat)
      ensures distance == Popcount(Xor(node1, node2))
      ensures node1 < totalNodes && node2 < totalNodes ==>
                distance == CountDiff(Coordinates(dimension, node1), Coordinates(dimension, node2))
    {
      var xorResult := Xor(node1, node2);
      distance := 0;
      while xorResult != 0
        invariant distance + Popcount(xorResult) == Popcount(Xor(node1, node2))
        decreases xorResult
      {
        assert And(xorResult, 1) == xorResult % 2;
        distance := distance + And(xorResult, 1);
        xorResult := xorResult / 2;
      }
      if node1 < totalNodes && node2 < totalNodes {
        HammingCountsDifferences(node1, node2, dimension);
      }
    }

    /** `getHypercubeNode`: the node with that id, or nothing outside `[0, totalNodes)`. */
    function GetHypercubeNode(nodeId: int): (r: Option<Node>)
      reads this
      requires NodesBuilt()
      ensures r.Some? <==> 0 <= nodeId < totalNodes
      ensures r.Some? ==> r.value.id == nodeId && r.value.coordinates == Coordinates(dimension, nodeId)
    {
      if 0 <= nodeId < totalNodes then Some(nodes[nodeId]) else None
    }

    /** `getNode(x, y)` as written: the row-major id is only checked against the upper bound. */
    function GetNodeAsWritten(x: int, y: int): (r: NodeLookup)
      reads this
      requires NodesBuilt()
      ensures r.IndexOutOfRange? <==> dimension >= 2 && x + y * Pow2(dimension / 2) < 0
    {
      if dimension >= 2 then
        var nodeId := x + y * Pow2(dimension / 2);
        if nodeId < totalNodes then
          if 0 <= nodeId then Found(nodes[nodeId]) else IndexOutOfRange(nodeId)
        else NotFound
      else NotFound
    }

    /** `getNode(x, y)` with the evident lower bound: a node exactly when its row-major id is a valid id. */
    function GetNode(x: int, y: int): (r: Option<Node>)
      reads this
      requires NodesBuilt()
      ensures r.Some? <==> dimension >= 2 && 0 <= x + y * Pow2(dimension / 2) < totalNodes
      ensures r.Some? ==> r.value.id == x + y * Pow2(dimension / 2)
    {
      if dimension >= 2 then
        var nodeId := x + y * Pow2(dimension / 2);
        if 0 <= nodeId < totalNodes then Some(nodes[nodeId]) else None
      else None
    }

    /** `createHypercubeNodes` */
    method CreateHypercubeNodes()
      modifies this`nodes
      ensures NodesBuilt()
      ensures forall i :: 0 <= i < |nodes| ==> fresh(nodes[i]) && nodes[i].links == []
    {
      nodes := [];
      var nodeId := 0;
      while nodeId < totalNodes
        invariant 0 <= nodeId <= totalNodes && |nodes| == nodeId
        invariant forall i :: 0 <= i < nodeId ==>
                    nodes[i].id == i && nodes[i].isHypercube && nodes[i].dimension == dimension
                    && nodes[i].coordinates == Coordinates(dimension, i)
                    && fresh(nodes[i]) && nodes[i].links == []
      {
        var coordinates := GetCoordinates(nodeId);
        var node := new Node.Hypercube(nodeId, coordinates, dimension);
        nodes := nodes + [node];
        nodeId := nodeId + 1;
      }
    }

    /** `links` is the earlier links followed by those of the cube. */
    ghost predicate LinksRecorded()
      reads this
    {
      links == earlierLinks + cubeLinks
    }

    /** Each node's link list holds exactly the links of `cubeLinks` that touch it, in creation order. */
    ghost predicate Attached()
      reads this, nodes
    {
      forall i :: 0 <= i < |nodes| ==> nodes[i].links == IncidentLinks(cubeLinks, nodes[i])
    }

    /** One step of `createHypercubeLinks`: a new link from `a` to `b`, recorded and attached to both ends. */
    method AttachLink(a: nat, b: nat, dim: nat, ghost ws: seq<CubeWire>)
      requires NodesBuilt() && a < |nodes| && b < |nodes| && a != b
      requires Wired(cubeLinks, ws) && Attached() && LinksRecorded()
      modifies this`links, this`cubeLinks, nodes[a], nodes[b]
      ensures Wired(cubeLinks, ws + [CubeWire(a, b, dim)]) && Attached() && LinksRecorded()
    {
      var from, to := nodes[a], nodes[b];
      var link := new Link(from, to, DirectionOf(dim));
      ghost var before := cubeLinks;
      label Attach:
      links := links + [link];
      cubeLinks := cubeLinks + [link];
      from.AddLink(link);
      to.AddLink(link);
      forall i | 0 <= i < |nodes|
        ensures nodes[i].links == IncidentLinks(cubeLinks, nodes[i])
      {
        IncidentLinksAppend(before, link, nodes[i]);
        if i != a && i != b {
          assert nodes[i] != from && nodes[i] != to;
          assert nodes[i].links == old@Attach(nodes[i].links);
        }
      }
    }

    /** One pass of the inner loop of `createHypercubeLinks`: link `nodeId` across `dim` when that leads to a higher id. */
    method LinkAcross(nodeId: nat, dim: nat, ghost ws: seq<CubeWire>)
      requires NodesBuilt() && nodeId < totalNodes && dim < dimension
      requires Wired(cubeLinks, ws + RowWires(nodeId, dim)) && Attached() && LinksRecorded()
      modifies this`links, this`cubeLinks, nodes
      ensures Wired(cubeLinks, ws + RowWires(nodeId, dim + 1)) && Attached() && LinksRecorded()
    {
      var neighborId := Xor(nodeId, Pow2(dim));
      RowWiresSnoc(ws, nodeId, dim);
      if neighborId > nodeId {
        FlipBelow(nodeId, dim, dimension);
        AttachLink(nodeId, neighborId, dim, ws + RowWires(nodeId, dim));
      }
    }

    /** The inner loop of `createHypercubeLinks` for one node: a link to each higher neighbour. */
    method LinkToHigherNeighbors(nodeId: nat, ghost ws: seq<CubeWire>)
      requires NodesBuilt() && nodeId < totalNodes
      requires Wired(cubeLinks, ws) && Attached() && LinksRecorded()
      modifies this`links, this`cubeLinks, nodes
      ensures Wired(cubeLinks, ws + RowWires(nodeId, dimension)) && Attached() && LinksRecorded()
    {
      var dim := 0;
      assert ws + RowWires(nodeId, 0) == ws;
      while dim < dimension
        invariant 0 <= dim <= dimension
        invariant Wired(cubeLinks, ws + RowWires(nodeId, dim)) && Attached() && LinksRecorded()
      {
        LinkAcross(nodeId, dim, ws);
        dim := dim + 1;
      }
    }

    /** `createHypercubeLinks`: every node links to each higher neighbour, and each link is attached to both its ends. */
    method CreateHypercubeLinks()
      requires NodesBuilt()
      requires forall i :: 0 <= i < |nodes| ==> nodes[i].links == []
      modifies this`links, this`cubeLinks, this`earlierLinks, nodes
      ensures Built()
      ensures links == old(links) + cubeLinks
    {
      cubeLinks, earlierLinks := [], links;
      var nodeId := 0;
      while nodeId < totalNodes
        invariant 0 <= nodeId <= totalNodes
        invariant earlierLinks == old(links)
        invariant Wired(cubeLinks, Wires(dimension, nodeId)) && Attached() && LinksRecorded()
      {
        LinkToHigherNeighbors(nodeId, Wires(dimension, nodeId));
        nodeId := nodeId + 1;
      }
    }

    /** `initializeTopology` */
    method InitializeTopology()
      modifies this
      ensures Built()
      ensures links == old(links) + cubeLinks
      ensures forall i :: 0 <= i < |nodes| ==> fresh(nodes[i])
    {
      CreateHypercubeNodes();
      CreateHypercubeLinks();
    }

    /** Every link attached to node `m` of a built cube leads to `m ^ 2^j` for some dimension `j`. */
    lemma AttachedLinkLeadsToFlip(m: nat, k: nat) returns (j: nat)
      requires Built() && m < totalNodes && k < |nodes[m].links|
      ensures j < dimension && Xor(m, Pow2(j)) < totalNodes
      ensures nodes[m].links[k] != null && nodes[m].OtherEnd(nodes[m].links[k]) == nodes[Xor(m, Pow2(j))]
    {
      var l := nodes[m].links[k];
      IncidentLinksMembers(cubeLinks, nodes[m]);
      assert l in cubeLinks;
      var p :| 0 <= p < |cubeLinks| && cubeLinks[p] == l;
      WiresOk(dimension, totalNodes);
      var w := Wires(dimension, totalNodes)[p];
      j := w.dim;
      assert Touches(l, nodes[m]);
      if l.source == nodes[m] {
        assert nodes[w.low].id == w.low;
        assert w.low == m;
      } else {
        assert nodes[w.high].id == w.high;
        assert w.high == m;
        FlipTwice(w.low, w.dim);
        assert nodes[w.low].id != m;
      }
    }

    /** In a built cube the link between `m` and `m ^ 2^d` is attached to `m` and leads to a neighbour in `d`. */
    lemma FlipLinkAttached(m: nat, d: nat) returns (k: nat)
      requires Built() && m < totalNodes && d < dimension
      ensures Xor(m, Pow2(d)) < totalNodes
      ensures nodes[m].LeadsToNeighbor(nodes[m].links, k, d)
      ensures nodes[m].OtherEnd(nodes[m].links[k]) == nodes[Xor(m, Pow2(d))]
    {
      var node := nodes[m];
      var nb := Xor(m, Pow2(d));
      FlipBelow(m, d, dimension);
      FlipValue(m, d);
      FlipTwice(m, d);
      var ws := Wires(dimension, totalNodes);
      var w := if nb > m then CubeWire(m, nb, d) else CubeWire(nb, m, d);
      WiresComplete(dimension, totalNodes, w.low, d);
      var p :| 0 <= p < |ws| && ws[p] == w;
      var l := cubeLinks[p];
      IncidentLinksMembers(cubeLinks, node);
      assert Touches(l, node);
      assert l in node.links;
      k :| 0 <= k < |node.links| && node.links[k] == l;
      assert nodes[nb].id == nb;
      assert node.OtherEnd(l) == nodes[nb];
      forall i | 0 <= i < dimension
        ensures (node.coordinates[i] != nodes[nb].coordinates[i]) <==> i == d
      {
        FlipDiffersOnlyAt(dimension, m, d, i);
      }
    }

    /** In a built cube, `getNeighborInDimension(d)` of node `m` is node `m ^ 2^d`. */
    lemma NeighborIsFlippedBit(m: nat, d: nat)
      requires Built() && m < totalNodes && d < dimension
      ensures Xor(m, Pow2(d)) < totalNodes
      ensures nodes[m].NeighborInDimension(d) == Some(nodes[Xor(m, Pow2(d))])
    {
      var node := nodes[m];
      var k := FlipLinkAttached(m, d);
      var r := node.NeighborInDimension(d);
      assert r.Some?;
      var k' :| node.LeadsToNeighbor(node.links, k', d) && r.value == node.OtherEnd(node.links[k']);
      var j := AttachedLinkLeadsToFlip(m, k');
      FlipDiffersOnlyAt(dimension, m, j, j);
      assert j == d;
    }
  }

  /** What `getNode(x, y)` as written may produce: a node, null, or an index before the start of the node vector. */
  datatype NodeLookup = Found(node: Node) | NotFound | IndexOutOfRange(index: int)

  /** `getNode(-1, 0)` reaches `hypercubeNodes[-1]`: the bound check lets negative ids through. */
  lemma GetNodeLetsNegativeIdThrough(net: HypercubeNetwork)
    requires net.NodesBuilt() && net.dimension >= 2
    ensures net.GetNodeAsWritten(-1, 0) == IndexOutOfRange(-1)
    ensures net.GetNode(-1, 0) == None
  {
  }
}
