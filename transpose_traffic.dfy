/**
 * The transpose traffic pattern (src/traffic/transpose_traffic.cpp and its
 * base class in src/traffic/traffic_pattern.h): node `s` of an `n`-node
 * network always sends to node `n - 1 - s`.
 */
module Transpose {

  class TransposeTraffic {
    /** `networkSize_` */
    const networkSize: int
    var injectionRate: real

    constructor (networkSize: int)
      ensures this.networkSize == networkSize && injectionRate == 0.0
    {
      this.networkSize := networkSize;
      injectionRate := 0.0;
    }

    /** `generateDestination`: the mirror image of the source; a node of the network maps to a node of the network. */
    function GenerateDestination(sourceNode: int): (d: int)
      ensures 0 <= sourceNode < networkSize ==> 0 <= d < networkSize
      ensures d + sourceNode == networkSize - 1
    {
      networkSize - 1 - sourceNode
    }

    /** Sending to the destination's destination comes back to the source. */
    lemma DestinationIsInvolution(sourceNode: int)
      ensures GenerateDestination(GenerateDestination(sourceNode)) == sourceNode
    {
    }

    /** Different sources have different destinations. */
    lemma DestinationIsInjective(s: int, t: int)
      ensures GenerateDestination(s) == GenerateDestination(t) ==> s == t
    {
    }

    /** `generateTrafficVector`: entry `i` is the destination of node `i`. */
    method GenerateTrafficVector() returns (traffic: seq<int>)
      requires networkSize >= 0
      ensures |traffic| == networkSize
      ensures forall i :: 0 <= i < networkSize ==> traffic[i] == GenerateDestination(i)
    {
      var a := new int[networkSize];
      var i := 0;
      while i < networkSize
        invariant 0 <= i <= networkSize
        invariant forall j :: 0 <= j < i ==> a[j] == networkSize - 1 - j
      {
        a[i] := networkSize - 1 - i;
        i := i + 1;
      }
      traffic := a[..];
    }

    /** `getInjectionRate` */
    function GetInjectionRate(): (r: real)
      reads this
      ensures r == injectionRate
    {
      injectionRate
    }

    /** `setInjectionRate`: the rate read back afterwards is the one set. */
    method SetInjectionRate(rate: real)
      modifies this
      ensures injectionRate == rate && GetInjectionRate() == rate
    {
      injectionRate := rate;
    }
  }

  /**
   * The traffic vector is a permutation of the nodes: every entry is a node,
   * no two entries are equal, and every node is the entry at its mirror image.
   */
  lemma {:induction false} TrafficVectorIsPermutation(t: TransposeTraffic, traffic: seq<int>)
    requires |traffic| == t.networkSize
    requires forall i :: 0 <= i < t.networkSize ==> traffic[i] == t.GenerateDestination(i)
    ensures forall i :: 0 <= i < |traffic| ==> 0 <= traffic[i] < |traffic|
    ensures forall i, j :: 0 <= i < j < |traffic| ==> traffic[i] != traffic[j]
    ensures forall v :: 0 <= v < |traffic| ==> traffic[t.GenerateDestination(v)] == v
  {
    forall v | 0 <= v < |traffic|
      ensures traffic[t.GenerateDestination(v)] == v
    {
      t.DestinationIsInvolution(v);
    }
  }
}
