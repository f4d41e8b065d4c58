/**
 * The 2D mesh (src/network/network.cpp): a `width` x `height` grid of nodes,
 * node `(x, y)` stored at `nodes[y][x]`, each joined to its right neighbour by
 * a `PositiveX` link and to the one below by a `PositiveY` link, with no
 * wrap-around. Every link is added to the lists of both its ends.
 */
module Mesh {
  import opened Wrappers
  import opened Graph

  /** A link to be created, from cell `(fx, fy)` to cell `(tx, ty)`. */
  datatype MeshWire = MeshWire(fx: nat, fy: nat, tx: nat, ty: nat, direction: Direction)

  /** The links `createLinks` makes at cell `(i, j)`: to the right when there is a column to the right, then down when there is a row below. */
  function CellWires(width: nat, height: nat, i: nat, j: nat): seq<MeshWire>
  {
    (if i + 1 < width then [RightWire(i, j)] else []) + (if j + 1 < height then [DownWire(i, j)] else [])
  }

  /** The `PositiveX` link from `(i, j)` to `(i + 1, j)`. */
  function RightWire(i: nat, j: nat): MeshWire
  {
    MeshWire(i, j, i + 1, j, PositiveX)
  }

  /** The `PositiveY` link from `(i, j)` to `(i, j + 1)`. */
  function DownWire(i: nat, j: nat): MeshWire
  {
    MeshWire(i, j, i, j + 1, PositiveY)
  }

  /** The links made for cells `(i, 0) .. (i, h - 1)` of column `i`. */
  function ColumnWires(width: nat, height: nat, i: nat, h: nat): seq<MeshWire>
  {
    if h == 0 then [] else ColumnWires(width, height, i, h - 1) + CellWires(width, height, i, h - 1)
  }

  /** The links made for columns `0 .. w - 1`, in creation order. */
  function MeshWires(width: nat, height: nat, w: nat): seq<MeshWire>
  {
    if w == 0 then [] else MeshWires(width, height, w - 1) + ColumnWires(width, height, w - 1, height)
  }

  /** A mesh link joins two cells of the grid, one step right tagged `PositiveX` or one step down tagged `PositiveY`. */
  predicate MeshWireOk(width: nat, height: nat, w: MeshWire)
  {
    w.fx < width && w.fy < height && w.tx < width && w.ty < height
    && ((w.direction == PositiveX && w.tx == w.fx + 1 && w.ty == w.fy)
        || (w.direction == PositiveY && w.tx == w.fx && w.ty == w.fy + 1))
  }

  /** The wire has cell `(x, y)` at one end. */
  predicate MeshHits(w: MeshWire, x: nat, y: nat)
  {
    (w.fx == x && w.fy == y) || (w.tx == x && w.ty == y)
  }

  /** Number of wires of `ws` with cell `(x, y)` at one end. */
  function MeshTouchCount(ws: seq<MeshWire>, x: nat, y: nat): nat
  {
    if ws == [] then 0
    else MeshTouchCount(ws[..|ws| - 1], x, y) + (if MeshHits(ws[|ws| - 1], x, y) then 1 else 0)
  }

  /** Number of grid cells orthogonally next to `(x, y)`. */
  function GridDegree(width: nat, height: nat, x: nat, y: nat): nat
  {
    (if x > 0 then 1 else 0) + (if x + 1 < width then 1 else 0)
    + (if y > 0 then 1 else 0) + (if y + 1 < height then 1 else 0)
  }

  // ------------------------------------------------------------ wire lemmas

  lemma {:induction false} ColumnWiresOk(width: nat, height: nat, i: nat, h: nat)
    requires i < width && h <= height
    ensures forall k :: 0 <= k < |ColumnWires(width, height, i, h)| ==>
              MeshWireOk(width, height, ColumnWires(width, height, i, h)[k])
  {
    if h > 0 { ColumnWiresOk(width, height, i, h - 1); }
  }

  /** Every link `createLinks` makes joins neighbouring cells, rightward or downward; no negative tag is ever made. */
  lemma {:induction false} MeshWiresOk(width: nat, height: nat, w: nat)
    requires w <= width
    ensures forall k :: 0 <= k < |MeshWires(width, height, w)| ==>
              MeshWireOk(width, height, MeshWires(width, height, w)[k])
  {
    if w > 0 {
      MeshWiresOk(width, height, w - 1);
      ColumnWiresOk(width, height, w - 1, height);
    }
  }

  lemma {:induction false} ColumnWiresComplete(width: nat, height: nat, i: nat, h: nat, j: nat, right: bool)
    requires j < h
    requires if right then i + 1 < width else j + 1 < height
    ensures (if right then RightWire(i, j) else DownWire(i, j)) in ColumnWires(width, height, i, h)
  {
    if j < h - 1 { ColumnWiresComplete(width, height, i, h - 1, j, right); }
  }

  /** Every pair of cells one step apart, rightward or downward, gets a link. */
  lemma MeshWiresComplete(width: nat, height: nat, w: nat, i: nat, j: nat, right: bool)
    requires i < w && j < height
    requires if right then i + 1 < width else j + 1 < height
    ensures (if right then RightWire(i, j) else DownWire(i, j)) in MeshWires(width, height, w)
  {
    if right {
      RightWireMade(width, height, w, i, j);
    } else {
      DownWireMade(width, height, w, i, j);
    }
  }

  /** Every cell with a column to its right gets its `PositiveX` link. */
  lemma {:induction false} RightWireMade(width: nat, height: nat, w: nat, i: nat, j: nat)
    requires i < w && j < height && i + 1 < width
    ensures RightWire(i, j) in MeshWires(width, height, w)
  {
    if i < w - 1 {
      RightWireMade(width, height, w - 1, i, j);
    } else {
      ColumnWiresComplete(width, height, i, height, j, true);
    }
    InConcat(RightWire(i, j), MeshWires(width, height, w - 1), ColumnWires(width, height, w - 1, height));
  }

  /** Every cell with a row below it gets its `PositiveY` link. */
  lemma {:induction false} DownWireMade(width: nat, height: nat, w: nat, i: nat, j: nat)
    requires i < w && j + 1 < height
    ensures DownWire(i, j) in MeshWires(width, height, w)
  {
    if i < w - 1 {
      DownWireMade(width, height, w - 1, i, j);
    } else {
      ColumnWiresComplete(width, height, i, height, j, false);
    }
    InConcat(DownWire(i, j), MeshWires(width, height, w - 1), ColumnWires(width, height, w - 1, height));
  }

  /** A link made in the earlier columns or in this one is among the links made so far. */
  lemma InConcat(wire: MeshWire, front: seq<MeshWire>, column: seq<MeshWire>)
    requires wire in front || wire in column
    ensures wire in front + column
  {
  }

  lemma ColumnWiresStep(width: nat, height: nat, i: nat, j: nat, ws: seq<MeshWire>)
    ensures ws + ColumnWires(width, height, i, j + 1) == ws + ColumnWires(width, height, i, j) + CellWires(width, height, i, j)
  {
    assert ColumnWires(width, height, i, j + 1) == ColumnWires(width, height, i, j) + CellWires(width, height, i, j);
  }

  lemma {:induction false} ColumnWiresCount(width: nat, height: nat, i: nat, h: nat)
    requires h <= height
    ensures |ColumnWires(width, height, i, h)| == (if i + 1 < width then h else 0) + (if h == height && h > 0 then h - 1 else h)
  {
    if h > 0 { ColumnWiresCount(width, height, i, h - 1); }
  }

  lemma {:induction false} MeshWiresCountUpTo(width: nat, height: nat, w: nat)
    requires 0 < w <= width && 0 < height
    ensures |MeshWires(width, height, w)| == (if w == width then w - 1 else w) * height + w * (height - 1)
  {
    ColumnWiresCount(width, height, w - 1, height);
    if w > 1 { MeshWiresCountUpTo(width, height, w - 1); }
  }

  /** `createLinks` makes `(width - 1) * height` horizontal and `width * (height - 1)` vertical links. */
  lemma MeshWiresCount(width: nat, height: nat)
    ensures width > 0 && height > 0 ==> |MeshWires(width, height, width)| == (width - 1) * height + width * (height - 1)
    ensures width == 0 || height == 0 ==> MeshWires(width, height, width) == []
  {
    if width > 0 && height > 0 {
      MeshWiresCountUpTo(width, height, width);
    } else if width > 0 {
      EmptyColumns(width, width);
    }
  }

  lemma {:induction false} EmptyColumns(width: nat, w: nat)
    ensures MeshWires(width, 0, w) == []
  {
    if w > 0 { EmptyColumns(width, w - 1); }
  }

  lemma {:induction false} MeshTouchCountAppend(a: seq<MeshWire>, b: seq<MeshWire>, x: nat, y: nat)
    ensures MeshTouchCount(a + b, x, y) == MeshTouchCount(a, x, y) + MeshTouchCount(b, x, y)
    decreases |b|
  {
    if b != [] {
      assert (a + b)[..|a + b| - 1] == a + b[..|b| - 1];
      assert (a + b)[|a + b| - 1] == b[|b| - 1];
      MeshTouchCountAppend(a, b[..|b| - 1], x, y);
    } else {
      assert a + b == a;
    }
  }

  lemma MeshTouchCountSingle(w: MeshWire, x: nat, y: nat)
    ensures MeshTouchCount([w], x, y) == if MeshHits(w, x, y) then 1 else 0
  {
    assert [w][..0] == [];
  }

  /** How many of the links made at cell `(i, j)` touch `(x, y)`. */
  lemma CellTouches(width: nat, height: nat, i: nat, j: nat, x: nat, y: nat)
    ensures MeshTouchCount(CellWires(width, height, i, j), x, y)
         == (if i + 1 < width && MeshHits(RightWire(i, j), x, y) then 1 else 0)
            + (if j + 1 < height && MeshHits(DownWire(i, j), x, y) then 1 else 0)
  {
    var r := if i + 1 < width then [RightWire(i, j)] else [];
    var d := if j + 1 < height then [DownWire(i, j)] else [];
    MeshTouchCountAppend(r, d, x, y);
    MeshTouchCountSingle(RightWire(i, j), x, y);
    MeshTouchCountSingle(DownWire(i, j), x, y);
  }

  /** How many links of column `i`'s first `h` cells touch `(x, y)`, by where `(x, y)` lies. */
  function ColumnTouchValue(width: nat, height: nat, i: nat, h: nat, x: nat, y: nat): nat
  {
    if i == x then
      (if y < h && x + 1 < width then 1 else 0) + (if y < h && y + 1 < height then 1 else 0)
      + (if 0 < y <= h then 1 else 0)
    else if i + 1 == x then (if y < h then 1 else 0)
    else 0
  }

  /** How many links made at cell `(i, j)` touch `(x, y)`, by where `(x, y)` lies. */
  function CellTouchValue(width: nat, height: nat, i: nat, j: nat, x: nat, y: nat): nat
  {
    if i == x then
      (if y == j && x + 1 < width then 1 else 0) + (if y == j && y + 1 < height then 1 else 0)
      + (if y == j + 1 then 1 else 0)
    else if i + 1 == x then (if y == j then 1 else 0)
    else 0
  }

  lemma CellTouchesAt(width: nat, height: nat, i: nat, j: nat, x: nat, y: nat)
    requires x < width && y < height
    ensures MeshTouchCount(CellWires(width, height, i, j), x, y) == CellTouchValue(width, height, i, j, x, y)
  {
    CellTouches(width, height, i, j, x, y);
  }

  /** The links of column `i`'s first `h` cells that touch `(x, y)`, cell by cell. */
  function ColumnTouchSum(width: nat, height: nat, i: nat, h: nat, x: nat, y: nat): nat
  {
    if h == 0 then 0 else ColumnTouchSum(width, height, i, h - 1, x, y) + CellTouchValue(width, height, i, h - 1, x, y)
  }

  lemma {:induction false} ColumnTouchSumClosed(width: nat, height: nat, i: nat, h: nat, x: nat, y: nat)
    requires y < height
    ensures ColumnTouchSum(width, height, i, h, x, y) == ColumnTouchValue(width, height, i, h, x, y)
  {
    if h > 0 { ColumnTouchSumClosed(width, height, i, h - 1, x, y); }
  }

  lemma {:induction false} ColumnTouchesSum(width: nat, height: nat, i: nat, h: nat, x: nat, y: nat)
    requires x < width && y < height
    ensures MeshTouchCount(ColumnWires(width, height, i, h), x, y) == ColumnTouchSum(width, height, i, h, x, y)
  {
    if h > 0 {
      ColumnTouchesSum(width, height, i, h - 1, x, y);
      ColumnTouchSplit(width, height, i, h, x, y);
      CellTouchesAt(width, height, i, h - 1, x, y);
    }
  }

  lemma ColumnTouches(width: nat, height: nat, i: nat, h: nat, x: nat, y: nat)
    requires x < width && y < height
    ensures MeshTouchCount(ColumnWires(width, height, i, h), x, y) == ColumnTouchValue(width, height, i, h, x, y)
  {
    ColumnTouchesSum(width, height, i, h, x, y);
    ColumnTouchSumClosed(width, height, i, h, x, y);
  }

  lemma ColumnTouchSplit(width: nat, height: nat, i: nat, h: nat, x: nat, y: nat)
    requires h > 0
    ensures MeshTouchCount(ColumnWires(width, height, i, h), x, y)
            == MeshTouchCount(ColumnWires(width, height, i, h - 1), x, y) + MeshTouchCount(CellWires(width, height, i, h - 1), x, y)
  {
    MeshTouchCountAppend(ColumnWires(width, height, i, h - 1), CellWires(width, height, i, h - 1), x, y);
  }

  /** How many links of columns `0 .. w - 1` touch `(x, y)`. */
  function MeshTouchValue(width: nat, height: nat, w: nat, x: nat, y: nat): nat
  {
    (if 0 < x < w + 1 then 1 else 0)
    + (if x < w then (if x + 1 < width then 1 else 0) + (if y + 1 < height then 1 else 0) + (if y > 0 then 1 else 0) else 0)
  }

  lemma MeshTouchSplit(width: nat, height: nat, w: nat, x: nat, y: nat)
    requires w > 0
    ensures MeshTouchCount(MeshWires(width, height, w), x, y)
            == MeshTouchCount(MeshWires(width, height, w - 1), x, y) + MeshTouchCount(ColumnWires(width, height, w - 1, height), x, y)
  {
    MeshTouchCountAppend(MeshWires(width, height, w - 1), ColumnWires(width, height, w - 1, height), x, y);
  }

  lemma MeshTouchValueStep(width: nat, height: nat, w: nat, x: nat, y: nat)
    requires 0 < w && y < height
    ensures MeshTouchValue(width, height, w, x, y)
            == MeshTouchValue(width, height, w - 1, x, y) + ColumnTouchValue(width, height, w - 1, height, x, y)
  {
  }

  lemma {:induction false} MeshTouchesUpTo(width: nat, height: nat, w: nat, x: nat, y: nat)
    requires x < width && y < height && w <= width
    ensures MeshTouchCount(MeshWires(width, height, w), x, y) == MeshTouchValue(width, height, w, x, y)
  {
    if w > 0 {
      MeshTouchesUpTo(width, height, w - 1, x, y);
      MeshTouchSplit(width, height, w, x, y);
      ColumnTouches(width, height, w - 1, height, x, y);
      MeshTouchValueStep(width, height, w, x, y);
    }
  }

  /** Each node of the mesh ends up with one link per orthogonal neighbour inside the grid. */
  lemma MeshWireDegree(width: nat, height: nat, x: nat, y: nat)
    requires x < width && y < height
    ensures MeshTouchCount(MeshWires(width, height, width), x, y) == GridDegree(width, height, x, y)
  {
    MeshTouchesUpTo(width, height, width, x, y);
  }

  lemma {:induction false} MeshIncidentCount(ls: seq<Link>, ws: seq<MeshWire>, node: Node, x: nat, y: nat)
    requires |ls| == |ws|
    requires forall k :: 0 <= k < |ls| ==> (Touches(ls[k], node) <==> MeshHits(ws[k], x, y))
    ensures |IncidentLinks(ls, node)| == MeshTouchCount(ws, x, y)
  {
    if ls != [] {
      MeshIncidentCount(ls[..|ls| - 1], ws[..|ws| - 1], node, x, y);
    }
  }

  // ------------------------------------------------------------ the network

  class Network {
    const width: nat
    const height: nat
    /** `nodes[y][x]` is the node at `(x, y)` */
    var nodes: seq<seq<Node>>
    var links: seq<Link>

    /** Every node of the grid, the objects `createLinks` updates. */
    ghost function Cells(): set<Node>
      reads this
    {
      set y, x | 0 <= y < |nodes| && 0 <= x < |nodes[y]| :: nodes[y][x]
    }

    /** `nodes` is a `height` x `width` grid whose entry `[y][x]` is a plain node at `(x, y)`. */
    ghost predicate NodesBuilt()
      reads this
    {
      |nodes| == height
      && forall y :: 0 <= y < height ==>
           |nodes[y]| == width
           && forall x :: 0 <= x < width ==> nodes[y][x].x == x && nodes[y][x].y == y && !nodes[y][x].isHypercube
    }

    /** The links `ls` are the wires `ws`, one for one, between the cells the wires name. */
    ghost predicate Wired(ls: seq<Link>, ws: seq<MeshWire>)
      reads this
      requires NodesBuilt()
    {
      |ls| == |ws|
      && forall k :: 0 <= k < |ls| ==>
           MeshWireOk(width, height, ws[k])
           && ls[k].source == nodes[ws[k].fy][ws[k].fx] && ls[k].destination == nodes[ws[k].ty][ws[k].tx]
           && ls[k].direction == ws[k].direction
    }

    /** Each node's link list holds exactly the links of `links` that touch it, in creation order. */
    ghost predicate Attached()
      reads this, Cells()
      requires NodesBuilt()
    {
      forall y, x :: 0 <= y < height && 0 <= x < width ==> nodes[y][x].links == IncidentLinks(links, nodes[y][x])
    }

    /** The network after its constructor: the grid, its links, each attached to both ends. */
    ghost predicate Built()
      reads this, Cells()
    {
      NodesBuilt() && Wired(links, MeshWires(width, height, width)) && Attached()
    }

    /** `Network(width, height)`: builds the grid and its links. */
    constructor (width: nat, height: nat)
      ensures this.width == width && this.height == height
      ensures Built()
    {
      this.width, this.height := width, height;
      nodes, links := [], [];
      new;
      CreateNodes();
      CreateLinks();
    }

    /** The inner loop of `createNodes`: `Node(x, y)` for every column `x` of row `y`. */
    method CreateRow(y: nat) returns (row: seq<Node>)
      ensures |row| == width
      ensures forall x :: 0 <= x < width ==>
                fresh(row[x]) && row[x].links == [] && row[x].x == x && row[x].y == y && !row[x].isHypercube
    {
      row := [];
      var x := 0;
      while x < width
        invariant 0 <= x <= width && |row| == x
        invariant forall c :: 0 <= c < x ==>
                    fresh(row[c]) && row[c].links == [] && row[c].x == c && row[c].y == y && !row[c].isHypercube
      {
        var node := new Node.At(x, y);
        row := row + [node];
        x := x + 1;
      }
    }

    /** `createNodes`: row `y` holds `Node(x, y)` for every column `x`. */
    method CreateNodes()
      modifies this`nodes
      ensures NodesBuilt()
      ensures forall y, x :: 0 <= y < height && 0 <= x < width ==> fresh(nodes[y][x]) && nodes[y][x].links == []
    {
      nodes := [];
      var y := 0;
      while y < height
        invariant 0 <= y <= height && |nodes| == y
        invariant forall r :: 0 <= r < y ==>
                    |nodes[r]| == width
                    && forall x :: 0 <= x < width ==>
                         fresh(nodes[r][x]) && nodes[r][x].links == []
                         && nodes[r][x].x == x && nodes[r][x].y == r && !nodes[r][x].isHypercube
      {
        var row := CreateRow(y);
        nodes := nodes + [row];
        y := y + 1;
      }
    }

    /** `getNode(x, y)`: the node at `(x, y)`, or nothing outside the grid. */
    function GetNode(x: int, y: int): (r: Option<Node>)
      reads this
      requires NodesBuilt()
      ensures r.Some? <==> 0 <= x < width && 0 <= y < height
      ensures r.Some? ==> r.value == nodes[y][x] && r.value.x == x && r.value.y == y
    {
      if 0 <= x < width && 0 <= y < height then Some(nodes[y][x]) else None
    }

    /** One link of `createLinks`: from `(fx, fy)` to `(tx, ty)`, recorded and added to both ends. */
    method AttachLink(fx: nat, fy: nat, tx: nat, ty: nat, direction: Direction, ghost ws: seq<MeshWire>)
      requires NodesBuilt() && MeshWireOk(width, height, MeshWire(fx, fy, tx, ty, direction))
      requires Wired(links, ws) && Attached()
      modifies this`links, nodes[fy][fx], nodes[ty][tx]
      ensures NodesBuilt() && Wired(links, ws + [MeshWire(fx, fy, tx, ty, direction)]) && Attached()
    {
      var from, to := GetNode(fx, fy).value, GetNode(tx, ty).value;
      var link := new Link(from, to, direction);
      ghost var before := links;
      label Attach:
      links := links + [link];
      from.AddLink(link);
      to.AddLink(link);
      forall y, x | 0 <= y < height && 0 <= x < width
        ensures nodes[y][x].links == IncidentLinks(links, nodes[y][x])
      {
        IncidentLinksAppend(before, link, nodes[y][x]);
        if (x, y) != (fx, fy) && (x, y) != (tx, ty) {
          assert nodes[y][x] != from && nodes[y][x] != to;
          assert nodes[y][x].links == old@Attach(nodes[y][x].links);
        }
      }
    }

    /** The body of the inner loop of `createLinks` for cell `(i, j)`. */
    method LinkCell(i: nat, j: nat, ghost ws: seq<MeshWire>)
      requires NodesBuilt() && i < width && j < height
      requires Wired(links, ws) && Attached()
      modifies this`links, Cells()
      ensures NodesBuilt() && Wired(links, ws + CellWires(width, height, i, j)) && Attached()
    {
      ghost var ws' := ws;
      if i < width - 1 {
        AttachLink(i, j, i + 1, j, PositiveX, ws');
        ws' := ws' + [MeshWire(i, j, i + 1, j, PositiveX)];
      }
      if j < height - 1 {
        AttachLink(i, j, i, j + 1, PositiveY, ws');
        ws' := ws' + [MeshWire(i, j, i, j + 1, PositiveY)];
      }
      assert ws' == ws + CellWires(width, height, i, j);
    }

    /** The inner loop of `createLinks` for column `i`. */
    method LinkColumn(i: nat, ghost ws: seq<MeshWire>)
      requires NodesBuilt() && i < width
      requires Wired(links, ws) && Attached()
      modifies this`links, Cells()
      ensures NodesBuilt() && Wired(links, ws + ColumnWires(width, height, i, height)) && Attached()
    {
      var j := 0;
      while j < height
        invariant 0 <= j <= height
        invariant NodesBuilt() && Wired(links, ws + ColumnWires(width, height, i, j)) && Attached()
      {
        ghost var sofar := ws + ColumnWires(width, height, i, j);
        LinkCell(i, j, sofar);
        ColumnWiresStep(width, height, i, j, ws);
        j := j + 1;
      }
    }

    /** `createLinks`: for each column `i` and row `j`, a link right and a link down where the grid continues. */
    method CreateLinks()
      requires NodesBuilt() && links == []
      requires forall y, x :: 0 <= y < height && 0 <= x < width ==> nodes[y][x].links == []
      modifies this`links, Cells()
      ensures Built()
    {
      var i := 0;
      while i < width
        invariant 0 <= i <= width
        invariant NodesBuilt() && Wired(links, MeshWires(width, height, i)) && Attached()
      {
        LinkColumn(i, MeshWires(width, height, i));
        i := i + 1;
      }
    }

    /** A link touches the node at `(x, y)` exactly when its wire names that cell: distinct cells hold distinct nodes. */
    lemma TouchesIffHits(ws: seq<MeshWire>, k: nat, x: nat, y: nat)
      requires NodesBuilt() && Wired(links, ws) && k < |links| && x < width && y < height
      ensures Touches(links[k], nodes[y][x]) <==> MeshHits(ws[k], x, y)
    {
      var w := ws[k];
      assert nodes[w.fy][w.fx].x == w.fx && nodes[w.fy][w.fx].y == w.fy;
      assert nodes[w.ty][w.tx].x == w.tx && nodes[w.ty][w.tx].y == w.ty;
      assert nodes[y][x].x == x && nodes[y][x].y == y;
    }

    /** The links incident to node `(x, y)` are as many as the wires that name that cell. */
    lemma IncidentTouchCount(ws: seq<MeshWire>, x: nat, y: nat)
      requires NodesBuilt() && Wired(links, ws) && x < width && y < height
      ensures |IncidentLinks(links, nodes[y][x])| == MeshTouchCount(ws, x, y)
    {
      forall k | 0 <= k < |links|
        ensures Touches(links[k], nodes[y][x]) <==> MeshHits(ws[k], x, y)
      {
        TouchesIffHits(ws, k, x, y);
      }
      MeshIncidentCount(links, ws, nodes[y][x], x, y);
    }

    /** In the built mesh, node `(x, y)` has one link per in-grid orthogonal neighbour, and the links number `(w-1)h + w(h-1)`. */
    lemma NodeDegree(x: nat, y: nat)
      requires Built() && x < width && y < height
      ensures |nodes[y][x].links| == GridDegree(width, height, x, y)
      ensures |links| == (width - 1) * height + width * (height - 1)
    {
      DegreeAt(x, y);
      LinkCount();
    }

    lemma DegreeAt(x: nat, y: nat)
      requires Built() && x < width && y < height
      ensures |nodes[y][x].links| == GridDegree(width, height, x, y)
    {
      IncidentTouchCount(MeshWires(width, height, width), x, y);
      MeshWireDegree(width, height, x, y);
    }

    lemma LinkCount()
      requires Built() && 0 < width && 0 < height
      ensures |links| == (width - 1) * height + width * (height - 1)
    {
      MeshWiresCount(width, height);
    }
  }

  /** The distance along one axis of the grid: `abs` of a coordinate difference. */
  function Abs(v: int): (r: nat)
    ensures r == v || r == -v
  {
    if v < 0 then -v else v
  }
}
