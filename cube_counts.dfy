/**
 * How many links `createHypercubeLinks` makes (src/network/hypercube_network.cpp):
 * one per unordered pair of ids differing in one bit, never two for the same
 * pair, `dimension` at every node and `dimension * 2^(dimension - 1)` in all.
 */
module HypercubeCounts {
  import opened Bits
  import opened Graph
  import opened Hypercube

  /** The wire has node `m` at one end. */
  predicate Hits(w: CubeWire, m: nat)
  {
    w.low == m || w.high == m
  }

  /** Number of wires of `ws` with node `m` at one end. */
  function TouchCount(ws: seq<CubeWire>, m: nat): nat
  {
    if ws == [] then 0
    else TouchCount(ws[..|ws| - 1], m) + (if Hits(ws[|ws| - 1], m) then 1 else 0)
  }

  /** Number of wires of `ws` across dimension `j` with node `m` at one end. */
  function DimCount(ws: seq<CubeWire>, m: nat, j: nat): nat
  {
    if ws == [] then 0
    else DimCount(ws[..|ws| - 1], m, j) + (if Hits(ws[|ws| - 1], m) && ws[|ws| - 1].dim == j then 1 else 0)
  }

  /** `DimCount` summed over dimensions `0 .. k - 1`. */
  function SumDims(ws: seq<CubeWire>, m: nat, k: nat): nat
  {
    if k == 0 then 0 else SumDims(ws, m, k - 1) + DimCount(ws, m, k - 1)
  }

  /** Number of clear bits of `a` among bits `0 .. d - 1`. */
  function ZeroBits(a: nat, d: nat): nat
  {
    if d == 0 then 0 else ZeroBits(a, d - 1) + (if Bit(a, d - 1) == 0 then 1 else 0)
  }

  /** `ZeroBits(b, n)` summed over the ids `lo .. hi - 1`. */
  function SumZeros(n: nat, lo: nat, hi: nat): nat
    decreases hi
  {
    if hi <= lo then 0 else SumZeros(n, lo, hi - 1) + ZeroBits(hi - 1, n)
  }

  /** `v` comes before `w` in creation order: lower node first, then lower dimension. */
  predicate Precedes(v: CubeWire, w: CubeWire)
  {
    v.low < w.low || (v.low == w.low && v.dim < w.dim)
  }

  // ---------------------------------------------------------------- shapes

  lemma {:induction false} RowWiresShape(a: nat, d: nat)
    ensures forall k :: 0 <= k < |RowWires(a, d)| ==>
              RowWires(a, d)[k].low == a && RowWires(a, d)[k].dim < d
    ensures forall p, q :: 0 <= p < q < |RowWires(a, d)| ==> RowWires(a, d)[p].dim < RowWires(a, d)[q].dim
  {
    if d > 0 { RowWiresShape(a, d - 1); }
  }

  /** The wires come in strictly increasing creation order, so none is made twice. */
  lemma {:induction false} WiresSorted(n: nat, a: nat)
    ensures forall k :: 0 <= k < |Wires(n, a)| ==> Wires(n, a)[k].low < a
    ensures forall p, q :: 0 <= p < q < |Wires(n, a)| ==> Precedes(Wires(n, a)[p], Wires(n, a)[q])
  {
    if a > 0 {
      WiresSorted(n, a - 1);
      RowWiresShape(a - 1, n);
      var front, row := Wires(n, a - 1), RowWires(a - 1, n);
      assert Wires(n, a) == front + row;
      forall p, q | 0 <= p < q < |front + row|
        ensures Precedes((front + row)[p], (front + row)[q])
      {
        if q >= |front| && p < |front| {
          assert (front + row)[p] == front[p] && (front + row)[q] == row[q - |front|];
        }
      }
    }
  }

  /** `createHypercubeLinks` produces no duplicate link. */
  lemma WiresDistinct(n: nat, a: nat)
    ensures forall p, q :: 0 <= p < |Wires(n, a)| && 0 <= q < |Wires(n, a)| && Wires(n, a)[p] == Wires(n, a)[q] ==> p == q
  {
    WiresSorted(n, a);
  }

  // ------------------------------------------------------------ link total

  lemma {:induction false} RowWiresCount(a: nat, d: nat)
    ensures |RowWires(a, d)| == ZeroBits(a, d)
  {
    if d > 0 {
      RowWiresCount(a, d - 1);
      FlipValue(a, d - 1);
    }
  }

  lemma {:induction false} WiresCount(n: nat, a: nat)
    ensures |Wires(n, a)| == SumZeros(n, 0, a)
  {
    if a > 0 {
      WiresCount(n, a - 1);
      RowWiresCount(a - 1, n);
    }
  }

  lemma {:induction false} ZeroBitsSameBits(a: nat, b: nat, d: nat)
    requires forall i :: 0 <= i < d ==> Bit(a, i) == Bit(b, i)
    ensures ZeroBits(a, d) == ZeroBits(b, d)
  {
    if d > 0 { ZeroBitsSameBits(a, b, d - 1); }
  }

  lemma {:induction false} SumZerosSplit(n: nat, lo: nat, mid: nat, hi: nat)
    requires lo <= mid <= hi
    ensures SumZeros(n, lo, hi) == SumZeros(n, lo, mid) + SumZeros(n, mid, hi)
    decreases hi
  {
    if hi > mid { SumZerosSplit(n, lo, mid, hi - 1); }
  }

  /** Below `2^(n-1)` every id also has bit `n - 1` clear. */
  lemma {:induction false} SumZerosLowerHalf(n: nat, a: nat)
    requires n > 0 && a <= Pow2(n - 1)
    ensures SumZeros(n, 0, a) == SumZeros(n - 1, 0, a) + a
  {
    if a > 0 {
      SumZerosLowerHalf(n, a - 1);
      BitAboveWidth(a - 1, n - 1, n - 1);
    }
  }

  /** From `2^(n-1)` on, ids repeat the lower half with bit `n - 1` set. */
  lemma {:induction false} SumZerosUpperHalf(n: nat, a: nat)
    requires n > 0 && a <= Pow2(n - 1)
    ensures SumZeros(n, Pow2(n - 1), Pow2(n - 1) + a) == SumZeros(n - 1, 0, a)
  {
    if a > 0 {
      SumZerosUpperHalf(n, a - 1);
      var b, top := a - 1, Pow2(n - 1) + a - 1;
      BitAboveWidth(b, n - 1, n - 1);
      FlipValue(b, n - 1);
      assert Xor(b, Pow2(n - 1)) == top;
      forall i | 0 <= i < n - 1 ensures Bit(top, i) == Bit(b, i) { FlipBitOf(b, n - 1, i); }
      FlipBitOf(b, n - 1, n - 1);
      ZeroBitsSameBits(top, b, n - 1);
    }
  }

  lemma {:induction false} SumZerosCube(n: nat)
    ensures 2 * SumZeros(n, 0, Pow2(n)) == n * Pow2(n)
  {
    if n > 0 {
      var half := Pow2(n - 1);
      assert Pow2(n) == half + half;
      SumZerosCube(n - 1);
      SumZerosSplit(n, 0, half, half + half);
      SumZerosLowerHalf(n, half);
      SumZerosUpperHalf(n, half);
      DoubledCube(n, half, SumZeros(n - 1, 0, half));
    }
  }

  lemma DoubledCube(n: int, half: int, s: int)
    requires 2 * s == (n - 1) * half
    ensures 2 * ((s + half) + s) == n * (half + half)
  {
  }

  /** An `n`-cube gets `n * 2^(n-1)` links. */
  lemma WireTotal(n: nat)
    ensures 2 * |Wires(n, Pow2(n))| == n * Pow2(n)
  {
    WiresCount(n, Pow2(n));
    SumZerosCube(n);
  }

  // ------------------------------------------------------------ node degree

  lemma {:induction false} SumDimsSnoc(ws: seq<CubeWire>, w: CubeWire, m: nat, k: nat)
    ensures SumDims(ws + [w], m, k) == SumDims(ws, m, k) + (if Hits(w, m) && w.dim < k then 1 else 0)
  {
    assert (ws + [w])[..|ws|] == ws;
    if k > 0 { SumDimsSnoc(ws, w, m, k - 1); }
  }

  /** A wire below `n` touching `m` is counted once, under its own dimension. */
  lemma {:induction false} TouchCountByDim(ws: seq<CubeWire>, m: nat, n: nat)
    requires forall k :: 0 <= k < |ws| ==> ws[k].dim < n
    ensures TouchCount(ws, m) == SumDims(ws, m, n)
  {
    if ws != [] {
      var front := ws[..|ws| - 1];
      assert forall k :: 0 <= k < |front| ==> front[k] == ws[k];
      TouchCountByDim(front, m, n);
      var last := ws[|ws| - 1];
      SumDimsSnoc(front, last, m, n);
      assert front + [last] == ws;
      assert last.dim < n;
    } else {
      SumDimsEmpty(m, n);
    }
  }

  lemma {:induction false} SumDimsEmpty(m: nat, k: nat)
    ensures SumDims([], m, k) == 0
  {
    if k > 0 { SumDimsEmpty(m, k - 1); }
  }

  lemma {:induction false} DimCountNone(ws: seq<CubeWire>, m: nat, j: nat)
    requires forall k :: 0 <= k < |ws| ==> !(Hits(ws[k], m) && ws[k].dim == j)
    ensures DimCount(ws, m, j) == 0
  {
    if ws != [] { DimCountNone(ws[..|ws| - 1], m, j); }
  }

  lemma {:induction false} DimCountUnique(ws: seq<CubeWire>, m: nat, j: nat, p: nat)
    requires p < |ws| && Hits(ws[p], m) && ws[p].dim == j
    requires forall q :: 0 <= q < |ws| && Hits(ws[q], m) && ws[q].dim == j ==> q == p
    ensures DimCount(ws, m, j) == 1
  {
    var front := ws[..|ws| - 1];
    if p == |ws| - 1 {
      DimCountNone(front, m, j);
    } else {
      DimCountUnique(front, m, j, p);
    }
  }

  lemma {:induction false} SumDimsOnes(ws: seq<CubeWire>, m: nat, k: nat)
    requires forall j :: 0 <= j < k ==> DimCount(ws, m, j) == 1
    ensures SumDims(ws, m, k) == k
  {
    if k > 0 { SumDimsOnes(ws, m, k - 1); }
  }

  /** The one wire across `j` at node `m`, lower end first. */
  function WireAt(m: nat, j: nat): CubeWire
  {
    var nb := Xor(m, Pow2(j));
    if nb > m then CubeWire(m, nb, j) else CubeWire(nb, m, j)
  }

  /** In an `n`-cube exactly one wire across each dimension touches a node. */
  lemma OneWirePerDimension(n: nat, m: nat, j: nat)
    requires m < Pow2(n) && j < n
    ensures DimCount(Wires(n, Pow2(n)), m, j) == 1
  {
    var ws := Wires(n, Pow2(n));
    var w := WireAt(m, j);
    FlipTwice(m, j);
    FlipValue(m, j);
    FlipBelow(m, j, n);
    WiresComplete(n, Pow2(n), w.low, j);
    var p :| 0 <= p < |ws| && ws[p] == w;
    WiresOk(n, Pow2(n));
    WiresDistinct(n, Pow2(n));
    forall q | 0 <= q < |ws| && Hits(ws[q], m) && ws[q].dim == j
      ensures q == p
    {
      if ws[q].high == m { FlipTwice(ws[q].low, j); }
      assert ws[q] == w;
    }
    DimCountUnique(ws, m, j, p);
  }

  /** Every node of an `n`-cube is an end of exactly `n` wires. */
  lemma WireDegree(n: nat, m: nat)
    requires m < Pow2(n)
    ensures TouchCount(Wires(n, Pow2(n)), m) == n
  {
    var ws := Wires(n, Pow2(n));
    WiresOk(n, Pow2(n));
    TouchCountByDim(ws, m, n);
    forall j | 0 <= j < n ensures DimCount(ws, m, j) == 1 { OneWirePerDimension(n, m, j); }
    SumDimsOnes(ws, m, n);
  }

  lemma {:induction false} IncidentCount(ls: seq<Link>, ws: seq<CubeWire>, node: Node, m: nat)
    requires |ls| == |ws|
    requires forall k :: 0 <= k < |ls| ==> (Touches(ls[k], node) <==> Hits(ws[k], m))
    ensures |IncidentLinks(ls, node)| == TouchCount(ws, m)
  {
    if ls != [] {
      IncidentCount(ls[..|ls| - 1], ws[..|ws| - 1], node, m);
    }
  }

  /** After `initializeTopology` every node has `dimension` links, and there are `dimension * 2^(dimension-1)` links. */
  lemma NodeDegree(net: HypercubeNetwork, m: nat)
    requires net.Built() && m < net.totalNodes
    ensures |net.nodes[m].links| == net.dimension
    ensures 2 * |net.cubeLinks| == net.dimension * net.totalNodes
  {
    var ws := Wires(net.dimension, net.totalNodes);
    forall k | 0 <= k < |net.cubeLinks|
      ensures Touches(net.cubeLinks[k], net.nodes[m]) <==> Hits(ws[k], m)
    {
      assert net.nodes[ws[k].low].id == ws[k].low && net.nodes[ws[k].high].id == ws[k].high;
      assert net.nodes[m].id == m;
    }
    IncidentCount(net.cubeLinks, ws, net.nodes[m], m);
    WireDegree(net.dimension, m);
    WireTotal(net.dimension);
  }
}
