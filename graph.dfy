/**
 * Nodes and links of an interconnection network (src/network/link.cpp,
 * src/network/node.cpp, src/network/hypercube_node.cpp).
 *
 * A link joins two nodes and carries two virtual channels, each with its own
 * occupancy flag. A node keeps the links attached to it, two message FIFOs
 * (one per virtual channel) and a FIFO of arrived packets. A hypercube node is
 * a node with a coordinate vector and a dimension; the tag `isHypercube`
 * stands for the run-time type test the source performs.
 */
module Graph {
  import opened Wrappers
  import opened Messages

  datatype VirtualChannel = Adaptive | Deterministic

  /**
   * The integer value of a virtual channel as `static_cast<int>` gives it.
   * The enumeration's header is not part of this model; only the fact that the
   * two values differ is used.
   */
  function Ordinal(vc: VirtualChannel): int
  {
    match vc
    case Adaptive => 0
    case Deterministic => 1
  }

  datatype Direction = PositiveX | NegativeX | PositiveY | NegativeY | PositiveZ | NegativeZ

  class Link {
    /** `getSourceNode()`, also returned by `getNodeA()` */
    const source: Node?
    /** `getDestinationNode()`, also returned by `getNodeB()` */
    const destination: Node?
    const direction: Direction
    var adaptiveChannelOccupied: bool
    var deterministicChannelOccupied: bool

    constructor (source: Node?, destination: Node?, direction: Direction)
      ensures this.source == source && this.destination == destination && this.direction == direction
      ensures !adaptiveChannelOccupied && !deterministicChannelOccupied
    {
      this.source := source;
      this.destination := destination;
      this.direction := direction;
      adaptiveChannelOccupied := false;
      deterministicChannelOccupied := false;
    }

    /** `canTransmit`: the channel's occupancy flag is clear; the other channel's flag is not consulted. */
    function CanTransmit(vc: VirtualChannel): (free: bool)
      reads this
      ensures vc == Adaptive ==> (free <==> !adaptiveChannelOccupied)
      ensures vc == Deterministic ==> (free <==> !deterministicChannelOccupied)
    {
      match vc
      case Adaptive => !adaptiveChannelOccupied
      case Deterministic => !deterministicChannelOccupied
    }

    /** `transmit`: occupies the given channel and leaves the other one alone. */
    method Transmit(vc: VirtualChannel)
      modifies this`adaptiveChannelOccupied, this`deterministicChannelOccupied
      ensures !CanTransmit(vc)
      ensures forall other :: other != vc ==> CanTransmit(other) == old(CanTransmit(other))
    {
      match vc
      case Adaptive => adaptiveChannelOccupied := true;
      case Deterministic => deterministicChannelOccupied := true;
    }

    /** `isOccupied`: a channel is occupied exactly when it cannot transmit. */
    function IsOccupied(vc: VirtualChannel): (busy: bool)
      reads this
      ensures busy <==> !CanTransmit(vc)
    {
      !CanTransmit(vc)
    }

    /** `isVirtualChannelFree(int)`: a channel given by its integer value; any other integer is never free. */
    function IsVirtualChannelFree(vc: int): (free: bool)
      reads this
      ensures free <==> exists c :: Ordinal(c) == vc && CanTransmit(c)
    {
      if vc == Ordinal(Adaptive) then CanTransmit(Adaptive)
      else if vc == Ordinal(Deterministic) then CanTransmit(Deterministic)
      else false
    }
  }

  class Node {
    const id: int
    const x: int
    const y: int
    /** The node was built as a hypercube node. */
    const isHypercube: bool
    /** Hypercube coordinates (empty for a plain node). */
    const coordinates: seq<int>
    /** Hypercube dimension (0 for a plain node). */
    const dimension: int
    var links: seq<Link?>
    var arrivedPackets: seq<Packet<Node>>
    var adaptiveChannel: seq<Message<Node>>
    var deterministicChannel: seq<Message<Node>>

    /** `Node(int id)`: placed at (0, 0). */
    constructor FromId(id: int)
      ensures this.id == id && x == 0 && y == 0 && !isHypercube && coordinates == [] && dimension == 0
      ensures links == [] && arrivedPackets == [] && adaptiveChannel == [] && deterministicChannel == []
    {
      this.id := id;
      x, y := 0, 0;
      isHypercube := false;
      coordinates, dimension := [], 0;
      links, arrivedPackets, adaptiveChannel, deterministicChannel := [], [], [], [];
    }

    /** `Node(int x, int y)`: the id packs the coordinates as `x * 100 + y`. */
    constructor At(x: int, y: int)
      ensures this.x == x && this.y == y && id == x * 100 + y
      ensures !isHypercube && coordinates == [] && dimension == 0
      ensures links == [] && arrivedPackets == [] && adaptiveChannel == [] && deterministicChannel == []
    {
      id := x * 100 + y;
      this.x, this.y := x, y;
      isHypercube := false;
      coordinates, dimension := [], 0;
      links, arrivedPackets, adaptiveChannel, deterministicChannel := [], [], [], [];
    }

    /** `HypercubeNode(id, coords, dim)`: a node built by `Node(id)` with coordinates and dimension. */
    constructor Hypercube(id: int, coords: seq<int>, dim: int)
      ensures this.id == id && x == 0 && y == 0 && isHypercube && coordinates == coords && dimension == dim
      ensures links == [] && arrivedPackets == [] && adaptiveChannel == [] && deterministicChannel == []
    {
      this.id := id;
      x, y := 0, 0;
      isHypercube := true;
      coordinates, dimension := coords, dim;
      links, arrivedPackets, adaptiveChannel, deterministicChannel := [], [], [], [];
    }

    /** `addLink` */
    method AddLink(link: Link?)
      modifies this`links
      ensures links == old(links) + [link]
    {
      links := links + [link];
    }

    /** `receiveMessage`: the adaptive FIFO for the adaptive channel, the deterministic one otherwise. */
    method ReceiveMessage(message: Message<Node>, vc: VirtualChannel)
      modifies this`adaptiveChannel, this`deterministicChannel
      ensures vc == Adaptive ==> adaptiveChannel == old(adaptiveChannel) + [message]
                                 && deterministicChannel == old(deterministicChannel)
      ensures vc == Deterministic ==> deterministicChannel == old(deterministicChannel) + [message]
                                      && adaptiveChannel == old(adaptiveChannel)
    {
      if vc == Adaptive {
        adaptiveChannel := adaptiveChannel + [message];
      } else {
        deterministicChannel := deterministicChannel + [message];
      }
    }

    /** The FIFO a virtual channel names. */
    function Channel(vc: VirtualChannel): seq<Message<Node>>
      reads this
    {
      if vc == Adaptive then adaptiveChannel else deterministicChannel
    }

    /** `sendMessage`: takes the oldest message of the channel's FIFO, or nothing when it is empty. */
    method SendMessage(vc: VirtualChannel) returns (message: Option<Message<Node>>)
      modifies this`adaptiveChannel, this`deterministicChannel
      ensures old(Channel(vc)) == [] ==> message == None && Channel(vc) == []
      ensures old(Channel(vc)) != [] ==> message == Some(old(Channel(vc))[0]) && Channel(vc) == old(Channel(vc))[1..]
      ensures forall other :: other != vc ==> Channel(other) == old(Channel(other))
    {
      message := None;
      if vc == Adaptive && adaptiveChannel != [] {
        message := Some(adaptiveChannel[0]);
        adaptiveChannel := adaptiveChannel[1..];
      } else if vc == Deterministic && deterministicChannel != [] {
        message := Some(deterministicChannel[0]);
        deterministicChannel := deterministicChannel[1..];
      }
    }

    /** `hasMessage`: the queue of the given channel is not empty. */
    function HasMessage(vc: VirtualChannel): (r: bool)
      reads this
      ensures vc == Adaptive ==> (r <==> |adaptiveChannel| > 0)
      ensures vc == Deterministic ==> (r <==> |deterministicChannel| > 0)
    {
      Channel(vc) != []
    }

    /** `canRoute`: some attached link can transmit on the channel (the destination is not consulted). */
    method CanRoute(destination: Node?, vc: VirtualChannel) returns (r: bool)
      ensures r <==> exists i :: 0 <= i < |links| && links[i] != null && links[i].CanTransmit(vc)
    {
      var i := 0;
      while i < |links|
        invariant 0 <= i <= |links|
        invariant forall j :: 0 <= j < i ==> !(links[j] != null && links[j].CanTransmit(vc))
      {
        if links[i] != null && links[i].CanTransmit(vc) {
          return true;
        }
        i := i + 1;
      }
      return false;
    }

    /** `hasArrivedPacket`: some delivered packet is waiting to be collected. */
    function HasArrivedPacket(): (r: bool)
      reads this
      ensures r <==> |arrivedPackets| > 0
    {
      arrivedPackets != []
    }

    /** `getArrivedPacket`: dequeues the oldest arrived packet, or nothing. */
    method GetArrivedPacket() returns (packet: Option<Packet<Node>>)
      modifies this`arrivedPackets
      ensures old(arrivedPackets) == [] ==> packet == None && arrivedPackets == []
      ensures old(arrivedPackets) != [] ==> packet == Some(old(arrivedPackets)[0]) && arrivedPackets == old(arrivedPackets)[1..]
    {
      if arrivedPackets == [] {
        return None;
      }
      packet := Some(arrivedPackets[0]);
      arrivedPackets := arrivedPackets[1..];
    }

    /** `addArrivedPacket` */
    method AddArrivedPacket(packet: Packet<Node>)
      modifies this`arrivedPackets
      ensures arrivedPackets == old(arrivedPackets) + [packet]
    {
      arrivedPackets := arrivedPackets + [packet];
    }

    // ---- hypercube node queries (hypercube_node.cpp) ----

    /**
     * `isNeighborInDimension`: `other` is a node whose coordinate vector has the
     * same length and differs from this one, among the first `dimension`
     * entries, exactly at `dim`.
     */
    function IsNeighborInDimension(other: Node?, dim: int): (r: bool)
      requires dimension <= |coordinates|
      ensures r ==> other != null && 0 <= dim < |coordinates| == |other.coordinates| && coordinates[dim] != other.coordinates[dim] && other != this
      ensures (other != null && 0 <= dim < dimension && |coordinates| == |other.coordinates| && coordinates[dim] != other.coordinates[dim]
               && forall i :: 0 <= i < dimension && i != dim ==> coordinates[i] == other.coordinates[i]) ==> r
    {
      other != null && 0 <= dim < dimension
      && |coordinates| == |other.coordinates|
      && forall i :: 0 <= i < dimension ==> (coordinates[i] != other.coordinates[i] <==> i == dim)
    }

    /** The far end of a link seen from this node, or null when the link does not touch it. */
    function OtherEnd(link: Link): (far: Node?)
      ensures far != null ==> far == link.source || far == link.destination
      ensures link.source != this && link.destination != this ==> far == null
      ensures link.source == this ==> far == link.destination
    {
      if link.source == this then link.destination
      else if link.destination == this then link.source
      else null
    }

    /** A link of `ls` leads, from this node, to a hypercube node that is its neighbour in `dim`. */
    predicate LeadsToNeighbor(ls: seq<Link?>, k: int, dim: int)
      requires dimension <= |coordinates|
    {
      0 <= k < |ls| && ls[k] != null && OtherEnd(ls[k]) != null
      && OtherEnd(ls[k]).isHypercube && IsNeighborInDimension(OtherEnd(ls[k]), dim)
    }

    /**
     * The scan of `getNeighborInDimension` over the links `ls[from..]`: the
     * first one that leads to a neighbour in `dim`.
     */
    function FirstNeighbor(ls: seq<Link?>, from: nat, dim: int): (r: Option<Node>)
      requires dimension <= |coordinates|
      ensures r.Some? <==> exists k :: from <= k && LeadsToNeighbor(ls, k, dim)
      ensures r.Some? ==> exists k :: (from <= k && LeadsToNeighbor(ls, k, dim) && r.value == OtherEnd(ls[k])
                                       && forall j :: from <= j < k ==> !LeadsToNeighbor(ls, j, dim))
      decreases |ls| - from
    {
      if from >= |ls| then None
      else if LeadsToNeighbor(ls, from, dim) then
        var other: Node := OtherEnd(ls[from]);
        Some(other)
      else FirstNeighbor(ls, from + 1, dim)
    }

    /** `getNeighborInDimension`: no neighbour outside `[0, dimension)`, otherwise the first attached link that leads to one. */
    function NeighborInDimension(dim: int): (r: Option<Node>)
      reads this
      requires dimension <= |coordinates|
      ensures r.Some? ==> r.value.isHypercube && IsNeighborInDimension(r.value, dim)
                          && exists k :: 0 <= k < |links| && links[k] != null && OtherEnd(links[k]) == r.value
      ensures r.None? <==> (dim < 0 || dim >= dimension || forall k :: !LeadsToNeighbor(links, k, dim))
    {
      if dim < 0 || dim >= dimension then None else FirstNeighbor(links, 0, dim)
    }
  }

  /** The link touches node `n` at one of its ends. */
  predicate Touches(l: Link, n: Node)
  {
    l.source == n || l.destination == n
  }

  /** The links of `ls` that touch `n`, in order: what `addLink` leaves in a node's list when every link is added to both ends. */
  function IncidentLinks(ls: seq<Link>, n: Node): seq<Link>
  {
    if ls == [] then []
    else
      var last := ls[|ls| - 1];
      IncidentLinks(ls[..|ls| - 1], n) + (if Touches(last, n) then [last] else [])
  }

  /** A link is attached to `n` exactly when it is one of `ls` and touches `n`. */
  lemma {:induction false} IncidentLinksMembers(ls: seq<Link>, n: Node)
    ensures forall i :: 0 <= i < |IncidentLinks(ls, n)| ==> IncidentLinks(ls, n)[i] in ls && Touches(IncidentLinks(ls, n)[i], n)
    ensures forall j :: 0 <= j < |ls| && Touches(ls[j], n) ==> ls[j] in IncidentLinks(ls, n)
  {
    if ls != [] {
      IncidentLinksMembers(ls[..|ls| - 1], n);
      forall j | 0 <= j < |ls| - 1 ensures ls[j] == ls[..|ls| - 1][j] { }
    }
  }

  lemma IncidentLinksAppend(ls: seq<Link>, l: Link, n: Node)
    ensures IncidentLinks(ls + [l], n) == IncidentLinks(ls, n) + (if Touches(l, n) then [l] else [])
  {
    assert (ls + [l])[..|ls|] == ls;
  }
}
