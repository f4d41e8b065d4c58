# omni_simulator routing core in Dafny

This project models the core of omni_simulator, a cycle-driven simulator of interconnection networks, and proves properties of that model. It covers:

- the two topologies: a binary hypercube and a 2D mesh;
- nodes, links with two virtual channels each, messages and packets;
- three routing algorithms: E-cube, Duato-style hypercube routing and Duato-style mesh routing;
- the name-keyed routing registry;
- the transpose traffic pattern;
- the statistics a run keeps;
- the simulation engine. Each cycle it injects packets into per-node FIFO buffers and forwards them hop by hop, under a buffer limit, a per-link budget and a global budget. At the end of a run it decides whether the network saturated.

There is one module per source file. The exceptions are listed here:

| module | file | models |
|---|---|---|
| `Graph` | `graph.dfy` | `Link` and `Node` as classes. They refer to each other, so they share a module. |
| `Messages` | `messages.dfy` | `Message` and `Packet`, generic in how they refer to nodes. |
| `Routing` | `routing.dfy` | `RoutingResult`. |
| `Hypercube` | `hypercube.dfy` | the hypercube network. |
| `HypercubeCounts` | `cube_counts.dfy` | the link counts of the hypercube network. |
| `Bits` | `bits.dfy` | the bit arithmetic the hypercube relies on. |
| `Mesh` | `mesh.dfy` | the mesh network. |
| `ECube` | `ecube.dfy` | E-cube routing. |
| `DuatoHypercube` | `duato_hypercube.dfy` | Duato-style hypercube routing. |
| `DuatoMesh` | `duato_mesh.dfy` | Duato-style mesh routing. |
| `Factory` | `routing_factory.dfy` | the routing registry. |
| `Statistics` | `metrics.dfy` | the state the `Metrics` class keeps, as a record, with each of its operations as a function on that record. |
| `MetricsObject` | `metrics.dfy` | the `Metrics` class itself, whose methods update its fields as the functions of `Statistics` say. |
| `Transpose` | `transpose_traffic.dfy` | the transpose traffic pattern. |
| `Settings` | `config.dfy` | the configuration values the core reads, as a record. |
| `Wrappers` | `wrappers.dfy` | `Option`, for null references, and `Result`, for the thrown exceptions of `Factory.Lookup` and `Factory.Instantiate`. |
| `EngineRules` | `engine_rules.dfy` | the engine's side-effect-free rules. |
| `Engine` | `simulator.dfy` | the `Simulator` class. |

Objects the source updates in place are Dafny classes with those fields, `modifies` clauses and loops that carry invariants. These are links, nodes, the two networks, the registry, the metrics and the simulator.

Values with a single owner are datatypes, and their setters return the updated value. These are messages, packets and routing results.

The engine follows the source's own layout:

- nodes are numbered: a hypercube node by its id, a mesh node `(x, y)` by `x * sizeY + y`;
- the buffers are a map from node number to a sequence of packets;
- the per-link counters are a map from node pairs to counts;
- the draws of the random generators are an input: one coin and a list of candidate destinations per node and cycle;
- doubles are `real`. The proofs compare computed quantities with bounds. They never claim bit-exact floating-point results.

## Model

| member | source | states |
|---|---|---|
| Graph.Link.constructor | src/network/link.cpp:12-15 | a new link joins the two given nodes in the given direction with both virtual channels free |
| Graph.Link.Transmit | src/network/link.cpp:51-62 | after `transmit(vc)` channel `vc` can no longer transmit and the other channel's state is unchanged |
| Graph.Link.CanTransmit | src/network/link.cpp:40-49 | the adaptive channel can transmit exactly when its own occupancy flag is clear, and likewise the deterministic channel; neither consults the other flag |
| Graph.Link.IsOccupied | src/network/link.cpp:64-66 | a channel is occupied exactly when it cannot transmit, so every channel is either free or occupied |
| Graph.Link.IsVirtualChannelFree | src/network/link.cpp:68-75 | an integer channel number is free exactly when it is the number of a channel that can transmit; every other number is never free |
| Graph.Node.FromId | src/network/node.cpp:16-17 | `Node(id)` is placed at (0, 0) with no links, no queued messages and no arrived packets |
| Graph.Node.At | src/network/node.cpp:19-20 | `Node(x, y)` gets the id `x * 100 + y` and starts empty |
| Graph.Node.Hypercube | src/network/hypercube_node.cpp:13-15 | a hypercube node keeps its id, coordinates and dimension and starts empty |
| Graph.Node.IsNeighborInDimension | src/network/hypercube_node.cpp:53-77 | a neighbour in a dimension is a present node below the dimension count, with a coordinate vector of the same length that differs at that dimension, so it is never the node itself; conversely a node whose vector differs from this one at `dim` and agrees at every other dimension below the count is a neighbour |
| Graph.Node.OtherEnd | src/network/hypercube_node.cpp:30-38 | the far end of a link is one of its two ends: the destination when the node is the source, nothing when the link does not touch the node |
| Graph.Node.AddLink | src/network/node.cpp:39-41 | the link is appended to the node's links |
| Graph.Node.ReceiveMessage | src/network/node.cpp:59-65 | the message joins the back of the adaptive FIFO for the adaptive channel and of the deterministic FIFO otherwise; the other FIFO is unchanged |
| Graph.Node.SendMessage | src/network/node.cpp:67-79 | an empty FIFO yields nothing and stays empty; otherwise the oldest message is returned and removed; the other channel's FIFO is unchanged |
| Graph.Node.HasMessage | src/network/node.cpp:81-87 | true exactly when the queue of the given channel holds a message |
| Graph.Node.CanRoute | src/network/node.cpp:89-96 | true exactly when some non-null attached link can transmit on the channel; the destination plays no part |
| Graph.Node.HasArrivedPacket | src/network/node.cpp:98-100 | true exactly when some delivered packet is waiting to be collected |
| Graph.Node.GetArrivedPacket | src/network/node.cpp:102-110 | an empty queue yields nothing; otherwise the oldest arrived packet is returned and removed |
| Graph.Node.AddArrivedPacket | src/network/node.cpp:112-114 | the packet joins the back of the arrived queue |
| Graph.Node.FirstNeighbor | src/network/hypercube_node.cpp:30-50 | the scan from position `from` finds a node exactly when some later link leads to a neighbour in the dimension, and then it is the first such link's far end |
| Graph.Node.NeighborInDimension | src/network/hypercube_node.cpp:25-51 | nothing for a dimension outside `[0, dimension)` or when no attached link leads to a hypercube neighbour in it; otherwise the far end of an attached link, a hypercube node that differs from this one in exactly that coordinate |
| Graph.IncidentLinksMembers | src/network/node.cpp:39-45 | the links attached to a node are exactly the network's links that touch it |
| Routing.EmptyResult | src/routing/routing_algorithm.h:27-27 | `RoutingResult()`: no success, an empty path, zero hops and zero delays |
| Messages.NewMessage | src/message/message.cpp:11-14 | a new message carries the given ids and timestamp and is attached to no node |
| Messages.Message.SetCurrentNode | src/message/message.cpp:32-34 | the current node reads back as the one set and every other field is kept |
| Messages.Message.SetDestinationNode | src/message/message.cpp:36-38 | the destination node reads back as the one set and every other field is kept |
| Messages.PacketOf | src/message/packet.cpp:12-16 | a packet built from a message copies its ids, takes its timestamp as injection time, has no hops and no nodes |
| Messages.Packet.SetHopCount | src/message/packet.cpp:37-39 | the hop count reads back as the one set and every other field is kept |
| Messages.Packet.SetSourceNode | src/message/packet.cpp:45-47 | the source node reads back as the one set and every other field is kept |
| Messages.Packet.SetDestinationNode | src/message/packet.cpp:53-55 | the destination node reads back as the one set and every other field is kept |
| Messages.Packet.SetCurrentNode | src/message/packet.cpp:61-63 | the current node reads back as the one set and every other field is kept |
| Messages.Packet.ToString | src/message/packet.cpp:65-68 | the text starts with `Packet[` and ends with `]` |
| Messages.NatToString | src/message/packet.cpp:66-67 | the decimal form of a natural number is a non-empty digit string without a leading zero |
| Messages.IntToString | src/message/packet.cpp:66-67 | `std::to_string` of an int: digits, preceded by `-` exactly for a negative number |
| Messages.ParseIntToString | src/message/packet.cpp:66-67 | reading the decimal text back gives the number, so distinct ids render differently |
| Bits.AndPredecessor | src/network/hypercube_network.cpp:87-90 | for a positive `x`, `x & (x - 1) == 0` holds exactly when `x` is a power of two |
| Bits.PopcountOne | src/network/hypercube_network.cpp:87-100 | a number has exactly one bit set exactly when it is a power of two |
| Bits.BitOfXor | src/network/hypercube_network.cpp:40 | bit `i` of `a ^ b` is set exactly when `a` and `b` differ in bit `i` |
| Bits.FlipTwice | src/network/hypercube_network.cpp:40 | flipping the same bit twice gives the id back |
| Hypercube.Coordinates | src/network/hypercube_network.cpp:62-68 | the coordinate vector has one entry per dimension, entry `i` being bit `i` of the id |
| Hypercube.NodeIdOf | src/network/hypercube_network.cpp:70-78 | the id assembled from a coordinate vector is below `2^length` |
| Hypercube.NodeIdOfCoordinates | src/network/hypercube_network.cpp:62-78 | for a node id of the cube, `getNodeId(getCoordinates(id)) == id` |
| Hypercube.CoordinatesOfNodeId | src/network/hypercube_network.cpp:62-78 | for a 0/1 vector, `getCoordinates(getNodeId(c)) == c` |
| Hypercube.CountDiffZero | src/network/hypercube_network.cpp:92-100 | two coordinate vectors of equal length differ in no position exactly when they are equal |
| Hypercube.HammingCountsDifferences | src/network/hypercube_network.cpp:92-100 | the popcount of `a ^ b` is the number of coordinates in which the two nodes differ |
| Hypercube.AreNeighborsIffOneBit | src/network/hypercube_network.cpp:87-90 | `areNeighbors` holds exactly when the ids differ in one bit, that is when `a ^ b` is a power of two |
| Hypercube.AreNeighbors | src/network/hypercube_network.cpp:87-90 | two neighbouring ids are never equal; `AreNeighborsIffOneBit` characterises the test exactly |
| Hypercube.HammingIsDistance | src/network/hypercube_network.cpp:92-100 | the Hamming distance is zero exactly on equal ids and is symmetric |
| Hypercube.WiresOk | src/network/hypercube_network.cpp:35-60 | every link the creation loops make joins an id of the cube to the higher id that differs from it in exactly one bit below the dimension |
| Hypercube.WiresComplete | src/network/hypercube_network.cpp:35-60 | every pair of ids differing in one bit below the dimension gets a link, made when the loop is at the lower id |
| Hypercube.FlipDiffersOnlyAt | src/network/hypercube_network.cpp:40 | an id and the id with bit `j` flipped have coordinate vectors that differ exactly at `j` |
| Hypercube.HypercubeNetwork.constructor | src/network/hypercube_network.cpp:15-17 | a network of dimension `d` is to have `2^d` nodes and has no node and no link yet |
| Hypercube.HypercubeNetwork.GetCoordinates | src/network/hypercube_network.cpp:62-68 | the loop returns the coordinate vector of the id: one entry per dimension, entry `i` being `(id >> i) & 1` |
| Hypercube.HypercubeNetwork.GetNodeId | src/network/hypercube_network.cpp:70-78 | the loop returns an id of the cube, with bit `i` set exactly when coordinate `i` is non-zero |
| Hypercube.HypercubeNetwork.GetHammingDistance | src/network/hypercube_network.cpp:92-100 | the shifting loop returns the popcount of `node1 ^ node2`, which for nodes of the cube is the number of coordinates in which they differ |
| Hypercube.HypercubeNetwork.GetHypercubeNode | src/network/hypercube_network.cpp:80-85 | a node exactly for ids in `[0, totalNodes)`, and then the node with that id and its coordinates |
| Hypercube.HypercubeNetwork.GetNodeAsWritten | src/network/hypercube_network.cpp:102-111 | as written, the lookup indexes the node vector out of range exactly when the dimension is at least 2 and the packed id is negative |
| Hypercube.GetNodeLetsNegativeIdThrough | src/network/hypercube_network.cpp:102-111 | `getNode(-1, 0)` as written reaches index -1, while the corrected lookup returns nothing |
| Hypercube.HypercubeNetwork.GetNode | src/network/hypercube_network.cpp:102-111 | corrected: a node exactly when the dimension is at least 2 and `x + y * 2^(dimension/2)` is a valid id, and then the node with that id |
| Hypercube.HypercubeNetwork.CreateHypercubeNodes | src/network/hypercube_network.cpp:24-33 | afterwards node `i` is a fresh hypercube node with id `i`, the coordinates of `i` and no links, for every `i < 2^dimension` |
| Hypercube.HypercubeNetwork.AttachLink | src/network/hypercube_network.cpp:53-56 | a new link from `a` to `b` is recorded in the network's links and attached to both ends, keeping the link bookkeeping invariant |
| Hypercube.HypercubeNetwork.LinkAcross | src/network/hypercube_network.cpp:39-57 | one pass of the inner loop adds exactly the link across `dim` when it leads to a higher id |
| Hypercube.HypercubeNetwork.LinkToHigherNeighbors | src/network/hypercube_network.cpp:36-58 | one pass of the outer loop adds exactly the links from the node to its higher neighbours, in dimension order |
| Hypercube.HypercubeNetwork.CreateHypercubeLinks | src/network/hypercube_network.cpp:35-60 | afterwards the network is built: its new links are exactly the cube's wires in creation order, each attached to both its ends, and every node's links are exactly the links that touch it |
| Hypercube.HypercubeNetwork.InitializeTopology | src/network/hypercube_network.cpp:19-22 | nodes then links: afterwards the cube is built from fresh nodes |
| Hypercube.HypercubeNetwork.AttachedLinkLeadsToFlip | src/network/hypercube_network.cpp:35-60 | in a built cube every link attached to node `m` leads to `m ^ 2^j` for some dimension `j` |
| Hypercube.HypercubeNetwork.FlipLinkAttached | src/network/hypercube_network.cpp:35-60 | in a built cube node `m` has an attached link that leads to `m ^ 2^d`, its neighbour in dimension `d` |
| Hypercube.HypercubeNetwork.NeighborIsFlippedBit | src/network/hypercube_node.cpp:25-51 | in a built cube `getNeighborInDimension(d)` of node `m` is node `m ^ 2^d` for every `d` below the dimension |
| HypercubeCounts.WiresSorted | src/network/hypercube_network.cpp:36-41 | the links come in strictly increasing creation order |
| HypercubeCounts.WiresDistinct | src/network/hypercube_network.cpp:41 | the `neighborId > nodeId` test keeps any link from being made twice |
| HypercubeCounts.WiresCount | src/network/hypercube_network.cpp:36-41 | the loops make one link per clear bit below the dimension of each id visited |
| HypercubeCounts.SumZerosCube | src/network/hypercube_network.cpp:36-41 | over all ids of an `n`-cube the clear bits below `n` number `n * 2^(n-1)` |
| HypercubeCounts.WireTotal | src/network/hypercube_network.cpp:35-60 | an `n`-cube gets `n * 2^(n-1)` links |
| HypercubeCounts.OneWirePerDimension | src/network/hypercube_network.cpp:35-60 | exactly one link across each dimension touches each node |
| HypercubeCounts.WireDegree | src/network/hypercube_network.cpp:35-60 | every node is an end of exactly `n` links |
| HypercubeCounts.NodeDegree | src/network/hypercube_network.cpp:19-60 | after `initializeTopology` every node has `dimension` attached links and the network holds `dimension * 2^(dimension-1)` links |
| Mesh.MeshWiresOk | src/network/network.cpp:25-47 | every link `createLinks` makes joins two cells of the grid, one step right tagged `POSITIVE_X` or one step down tagged `POSITIVE_Y` |
| Mesh.MeshWiresComplete | src/network/network.cpp:25-47 | every pair of cells one step apart, rightward or downward, gets its link |
| Mesh.RightWireMade | src/network/network.cpp:25-47 | every cell with a column to its right gets its `PositiveX` link among the links of the first `w` columns |
| Mesh.DownWireMade | src/network/network.cpp:25-47 | every cell with a row below gets its `PositiveY` link among the links of the first `w` columns |
| Mesh.MeshWiresCount | src/network/network.cpp:25-47 | a non-empty grid gets `(width - 1) * height + width * (height - 1)` links, an empty one none |
| Mesh.MeshWireDegree | src/network/network.cpp:25-47 | each cell is an end of one link per orthogonal neighbour inside the grid |
| Mesh.Network.constructor | src/network/network.cpp:6-9 | `Network(width, height)` creates the nodes and then the links: afterwards the mesh is built |
| Mesh.Network.CreateRow | src/network/network.cpp:17-21 | the inner loop of `createNodes` returns one fresh `Node(x, y)` for each column `x` of the row, with no links |
| Mesh.Network.CreateNodes | src/network/network.cpp:14-23 | afterwards `nodes[y][x]` is a fresh `Node(x, y)` with no links for every cell of the grid |
| Mesh.Network.GetNode | src/network/network.cpp:49-54 | a node exactly inside the grid, and then the node with those coordinates |
| Mesh.Network.AttachLink | src/network/network.cpp:31-35 | one new link between neighbouring cells is recorded and attached to both its ends |
| Mesh.Network.LinkCell | src/network/network.cpp:28-44 | the body of the inner loop adds the link right when there is a column to the right and then the link down when there is a row below |
| Mesh.Network.LinkColumn | src/network/network.cpp:27-45 | the inner loop adds the links of every cell of the column, in row order |
| Mesh.Network.CreateLinks | src/network/network.cpp:25-47 | afterwards the network's links are exactly the mesh wires in creation order, each attached to both its ends, and every node's links are exactly those that touch it |
| Mesh.Network.TouchesIffHits | src/network/network.cpp:19-20 | a link touches the node at `(x, y)` exactly when its wire names that cell, since distinct cells hold distinct nodes |
| Mesh.Network.IncidentTouchCount | src/network/network.cpp:25-47 | the links attached to node `(x, y)` are as many as the wires that name that cell |
| Mesh.Network.NodeDegree | src/network/network.cpp:6-47 | in the built mesh node `(x, y)` has one link per in-grid orthogonal neighbour, and the network holds `(width - 1) * height + width * (height - 1)` links |
| Mesh.Network.DegreeAt | src/network/network.cpp:25-47 | in the built mesh the node at `(x, y)` has as many links as it has in-grid orthogonal neighbours |
| Mesh.Network.LinkCount | src/network/network.cpp:25-47 | the built mesh holds `(width - 1) * height + width * (height - 1)` links |
| ECube.LowestDifference | src/routing/ecube_routing.cpp:101-116 | the first index within both vectors where they differ, or -1 exactly when they agree on every shared index |
| ECube.StepCloser | src/routing/ecube_routing.cpp:77-95 | distinct ids of a cube differ in some dimension, and flipping the lowest differing bit stays in the cube and brings the id one bit closer to the destination |
| ECube.EcubeRoute | src/routing/ecube_routing.cpp:60-99 | the E-cube route starts at the source, ends at the destination and stays in the cube |
| ECube.EcubeRouteLength | src/routing/ecube_routing.cpp:60-99 | the route has one node more than the Hamming distance of its ends, so it is a shortest path |
| ECube.EcubeRouteSteps | src/routing/ecube_routing.cpp:84-94 | every hop of the route flips the lowest coordinate still differing from the destination and goes to a neighbour |
| ECube.EcubeRouteIsDimensionOrdered | src/routing/ecube_routing.cpp:84-94 | E-cube corrects dimensions in strictly increasing order along the route |
| ECube.TargetOnlyLast | src/routing/ecube_routing.cpp:77 | the destination appears only at the end of the route, so the `while` loop stops exactly there |
| ECube.NodesAt | src/routing/ecube_routing.cpp:60-99 | the nodes of the network with the given ids, position by position |
| ECube.CalculateDimensionDifferences | src/routing/ecube_routing.cpp:118-133 | empty unless both ends are hypercube nodes; otherwise one entry `dest[i] - src[i]` per index both coordinate vectors have |
| ECube.SelectNextDimension | src/routing/ecube_routing.cpp:101-116 | -1 unless both ends are hypercube nodes; otherwise the lowest dimension where the coordinates differ, or -1 when none does |
| ECube.NextHop | src/routing/ecube_routing.cpp:84-89 | on a built cube, before the destination is reached, the inner loop returns the neighbour across the lowest differing dimension, another node |
| ECube.HopAcross | src/routing/ecube_routing.cpp:85-87 | the neighbour across the chosen dimension is the node with that bit of the id flipped |
| ECube.FollowRoute | src/routing/ecube_routing.cpp:76-95 | between two nodes of a built cube the `while` loop produces exactly the nodes of the E-cube route |
| ECube.CalculatePath | src/routing/ecube_routing.cpp:60-99 | empty unless both ends are hypercube nodes; otherwise the nodes of the E-cube route from source to destination |
| ECube.CalculateRouteDelay | src/routing/ecube_routing.cpp:139-148 | no delay for a path of fewer than two nodes; otherwise 1.5 per hop (link latency 1.0 plus half a unit), never negative |
| ECube.RouteMessage | src/routing/ecube_routing.cpp:21-35 | a message between two hypercube nodes gets the source as current node and the destination as destination node; otherwise it is unchanged |
| ECube.RouteMessageWithStats | src/routing/ecube_routing.cpp:37-49 | success exactly for a non-empty path, hop count one less than the path length, delay the hop count; between hypercube nodes the path is the E-cube route, it succeeds and its hop count is the Hamming distance |
| DuatoHypercube.WouldCreateCycle | src/routing/duato_hypercube_protocol.cpp:124-130 | a deterministic hop never closes a cycle, and under the shipped stubs no hop does |
| DuatoHypercube.IsVirtualChannelAvailable | src/routing/duato_hypercube_protocol.cpp:174-176 | under the shipped stub every channel is available |
| DuatoHypercube.NeedsRoutingInDimension | src/routing/duato_hypercube_protocol.cpp:148-158 | a dimension needs routing only when it lies within both coordinate vectors and they differ there |
| DuatoHypercube.NeedsRoutingIffBitDiffers | src/routing/duato_hypercube_protocol.cpp:148-158 | on cube coordinates a dimension needs routing exactly when it is below the cube's dimension and the two ids differ in that bit |
| DuatoHypercube.CanUseAdaptiveChannel | src/routing/duato_hypercube_protocol.cpp:108-117 | the adaptive channel may be used exactly when the target dimension, if one is given, needs routing and the adaptive hop closes no cycle |
| DuatoHypercube.SelectVirtualChannel | src/routing/duato_hypercube_protocol.cpp:101-106 | adaptive exactly when the adaptive channel may be used for the dimension; under the shipped stubs, exactly when no dimension is given or it needs routing |
| DuatoHypercube.MustUseDeterministicChannel | src/routing/duato_hypercube_protocol.cpp:119-122 | the Hamming distance is at most one exactly when the destination is the node itself or one of its neighbours |
| DuatoHypercube.Dimensions | src/routing/duato_hypercube_protocol.cpp:139-143 | the fallback order `0, 1, .., n - 1` |
| DuatoHypercube.DimensionOrder | src/routing/duato_hypercube_protocol.cpp:132-146 | the configured priorities when there is a configuration with a non-empty list, otherwise `0 .. n - 1` |
| DuatoHypercube.FirstNeedingIndex | src/routing/duato_hypercube_protocol.cpp:92-96 | the scan over the priority list stops at the first entry that needs routing, and no earlier entry does |
| DuatoHypercube.FirstNeedingIsLowestDifference | src/routing/duato_hypercube_protocol.cpp:160-172 | over `0 .. n - 1` the first dimension needing routing is the lowest coordinate difference, the one E-cube corrects |
| DuatoHypercube.AdaptiveChoiceIsEcube | src/routing/duato_hypercube_protocol.cpp:80-99 | when the adaptive channel closes no cycle the protocol picks the same dimension as E-cube |
| DuatoHypercube.ChosenNeedsRouting | src/routing/duato_hypercube_protocol.cpp:80-99 | a dimension the protocol picks is one that still needs routing |
| DuatoHypercube.GetDeterministicDimensionOrder | src/routing/duato_hypercube_protocol.cpp:132-146 | the loop returns the configured priority order, or `0 .. n - 1` when there is none |
| DuatoHypercube.SelectAdaptiveDimension | src/routing/duato_hypercube_protocol.cpp:160-172 | -1 exactly when no dimension below `n` needs routing; otherwise the lowest one that does |
| DuatoHypercube.LowestIsFirstNeeding | src/routing/duato_hypercube_protocol.cpp:160-172 | the result of `selectAdaptiveDimension` is the first of `0 .. n - 1` that needs routing |
| DuatoHypercube.SelectNextDimension | src/routing/duato_hypercube_protocol.cpp:80-99 | -1 for a missing end; otherwise the lowest dimension needing routing when the adaptive channel is usable, else the first in the priority order that needs it, or -1 |
| DuatoHypercube.FlipCloser | src/routing/duato_hypercube_protocol.cpp:47 | flipping a bit in which the current node and the destination differ stays in the cube and brings the node one bit closer |
| DuatoHypercube.WalkStep | src/routing/duato_hypercube_protocol.cpp:42-47 | on a built cube the neighbour across a chosen dimension is the node with that bit flipped, one bit closer to the destination |
| DuatoHypercube.TakeHop | src/routing/duato_hypercube_protocol.cpp:45-61 | no hop exactly when neither the selected channel nor the deterministic fallback is available; otherwise the hop goes to the node across the chosen dimension, one bit closer |
| DuatoHypercube.PolicyPathIds | src/routing/duato_hypercube_protocol.cpp:41-70 | on a built cube a walk over nodes where each hop follows the policy is the same walk over ids |
| DuatoHypercube.AdaptiveWalkIsEcube | src/routing/duato_hypercube_protocol.cpp:41-70 | a walk under a policy whose adaptive hops close no cycle that reaches the destination is exactly the E-cube route |
| DuatoHypercube.WalkingStart | src/routing/duato_hypercube_protocol.cpp:39 | the walk starts at the source with no hops, and the distance to cover is at most the dimension |
| DuatoHypercube.WalkingSnoc | src/routing/duato_hypercube_protocol.cpp:63-65 | a hop across the chosen dimension to the node one bit closer keeps the walk's invariant with one more hop |
| DuatoHypercube.WalkingArrived | src/routing/duato_hypercube_protocol.cpp:72-75 | a walk that has reached the destination took as many hops as the Hamming distance, and with no adaptive cycle it is the E-cube route |
| DuatoHypercube.WalkingDone | src/routing/duato_hypercube_protocol.cpp:41-75 | wherever the walk stopped, its path starts at the source and stays in the cube; if it ends at the destination it is a shortest path, and the E-cube route when no adaptive hop closes a cycle |
| DuatoHypercube.ChooseHop | src/routing/duato_hypercube_protocol.cpp:42-61 | a hop, when there is one, crosses the chosen dimension to the node one bit closer; under the shipped stubs there is always a hop before the destination |
| DuatoHypercube.WalkTo | src/routing/duato_hypercube_protocol.cpp:39-70 | the path the loop builds starts at the source, stays in the cube and follows the policy at every hop; a path ending at the destination is a shortest one, the E-cube route when no adaptive hop closes a cycle; under the shipped stubs it always ends at the destination |
| DuatoHypercube.Hops | src/routing/duato_hypercube_protocol.cpp:41-70 | the loop keeps the walk invariant (every hop a policy hop one bit closer to the destination, hops counted) and, under the shipped stubs, stops only at the destination |
| DuatoHypercube.Walk | src/routing/duato_hypercube_protocol.cpp:27-77 | between two nodes of the cube: success exactly when the path ends at the destination, then with the Hamming distance as hop count and the route delay, otherwise no delay |
| DuatoHypercube.RouteMessageWithStats | src/routing/duato_hypercube_protocol.cpp:26-78 | the empty result for a missing end; otherwise as `Walk`, and under the shipped stubs it always succeeds along the E-cube route |
| Mesh.Abs | src/routing/duato_protocol.cpp:216-218 | `abs` of an int, its value or its negation and never negative |
| DuatoMesh.ManhattanDistance | src/routing/duato_protocol.cpp:216-218 | the Manhattan distance of two nodes is zero exactly when they sit at the same coordinates |
| DuatoMesh.ManhattanIsMetric | src/routing/duato_protocol.cpp:216-218 | the Manhattan distance is symmetric and obeys the triangle inequality |
| DuatoMesh.IsMinimalRoute | src/routing/duato_protocol.cpp:220-224 | a minimal hop starts away from the destination and actually moves to another grid position; conversely a move along one axis toward the destination, not past it, is minimal |
| DuatoMesh.CanUseAdaptiveChannel | src/routing/duato_protocol.cpp:132-135 | always without a next node; with one, exactly when it is strictly closer to the destination |
| DuatoMesh.MustUseDeterministicChannel | src/routing/duato_protocol.cpp:137-139 | exactly when the destination is at most two hops away, so within two in each axis |
| DuatoMesh.WouldCreateDeadlock | src/routing/duato_protocol.cpp:186-196 | never reports a deadlock, whatever the channel |
| DuatoMesh.IsChannelFree | src/routing/duato_protocol.cpp:198-200 | the channel looked up by its integer value is free exactly when the link can transmit on it |
| DuatoMesh.PossibleRoutes | src/routing/duato_protocol.cpp:202-214 | the links kept are links of the node that do not lead farther from the destination, and every such link is kept |
| DuatoMesh.GetPossibleRoutes | src/routing/duato_protocol.cpp:202-214 | the loop returns exactly those links, in order |
| DuatoMesh.BestIndex | src/routing/duato_protocol.cpp:147-156 | the position chosen, when there is one, is of a route whose far end is strictly closer |
| DuatoMesh.BestIndexIsBest | src/routing/duato_protocol.cpp:141-159 | no position exactly when no route is strictly closer; otherwise the chosen far end is the closest of the strictly closer ones and strictly closer than every earlier one, so ties go to the first |
| DuatoMesh.ScannedStep | src/routing/duato_protocol.cpp:148-155 | one pass of the loop replaces the best link exactly when the route is strictly closer and improves on the minimum so far |
| DuatoMesh.SelectAdaptiveRoute | src/routing/duato_protocol.cpp:141-159 | the loop returns the first of the closest strictly-closer routes, or none when no route brings the message closer |
| DuatoMesh.FirstTagged | src/routing/duato_protocol.cpp:167-171 | the scan stops at the first link tagged with the direction, and no earlier link is |
| DuatoMesh.GetDeterministicRouteAsWritten | src/routing/duato_protocol.cpp:161-184 | as written: toward another column the first link tagged with that X direction, failing that toward another row the first link tagged with that Y direction, otherwise none |
| DuatoMesh.DeterministicRouteAsWrittenTurnsBack | src/routing/duato_protocol.cpp:161-184 | in a 3 x 1 mesh the lookup as written sends the middle node toward the right neighbour along the link back to the left one, and finds no link at all toward the left |
| DuatoMesh.Step | src/routing/duato_protocol.cpp:162-166 | the unit step along a non-zero offset reduces its absolute value by one |
| DuatoMesh.FirstHeading | src/routing/duato_protocol.cpp:167-180 | the scan stops at the first link that leads one step in the given direction, and no earlier link does |
| DuatoMesh.FirstLinkHeading | src/routing/duato_protocol.cpp:167-180 | a link found is one of the node's links and leads one step in the given direction |
| DuatoMesh.GetDeterministicRoute | src/routing/duato_protocol.cpp:161-184 | corrected, X first: toward another column the first link leading one column closer, failing that toward another row the first link leading one row closer, otherwise none; any link returned is a minimal hop |
| DuatoMesh.StepLink | src/routing/duato_protocol.cpp:52-70 | with the corrected deterministic fallback: the link a step of `findPath` leaves by is a link of the node and a minimal hop |
| DuatoMesh.ChooseLink | src/routing/duato_protocol.cpp:52-66 | with the corrected deterministic fallback: the adaptive choice when its adaptive channel is free, otherwise the deterministic route when its deterministic channel is free |
| DuatoMesh.AttachedLinkLeadsToNeighbour | src/network/network.cpp:25-47 | every link attached to a grid node of the built mesh is a network link leading to an orthogonal neighbour in the grid |
| DuatoMesh.WireAttached | src/network/network.cpp:25-47 | the link of each mesh wire is attached to both of its ends and leads from each to the other |
| DuatoMesh.NeighbourLink | src/network/network.cpp:25-47 | a grid node has a link to each of its grid neighbours |
| DuatoMesh.DeterministicRouteExists | src/routing/duato_protocol.cpp:161-184 | from a grid node other than the destination the corrected deterministic route always exists and is a link of the mesh |
| DuatoMesh.StepSucceeds | src/routing/duato_protocol.cpp:52-70 | with the corrected deterministic fallback: from a grid node other than the destination a step always finds a link when every adaptive channel, or every deterministic channel, is free |
| DuatoMesh.HopAlong | src/routing/duato_protocol.cpp:72-76 | a hop along a link of a grid node goes to a neighbour, and a strictly closer neighbour is exactly one hop closer |
| DuatoMesh.SearchStep | src/routing/duato_protocol.cpp:72-81 | with the corrected deterministic fallback: one hop grows the walk by a neighbour one hop closer, within 100 nodes when the destination is fewer than 100 hops from the source |
| DuatoMesh.Advance | src/routing/duato_protocol.cpp:52-76 | with the corrected deterministic fallback: the loop body gives up only when neither every adaptive nor every deterministic channel is free, and otherwise extends the walk by one hop closer |
| DuatoMesh.FindPath | src/routing/duato_protocol.cpp:46-85 | with the corrected deterministic fallback: either no path, or a walk of neighbours from the source to the destination with exactly Manhattan distance plus one nodes and at most 100; with every adaptive or every deterministic channel free and the destination fewer than 100 hops away, the walk is found |
| DuatoMesh.CalculatePathDelay | src/routing/duato_protocol.cpp:87-105 | no delay for a path of fewer than two nodes; otherwise per hop the configured link latency (1.0 without a configuration) plus 0.5 of queuing |
| DuatoMesh.RouteMessageWithStats | src/routing/duato_protocol.cpp:22-44 | with the corrected deterministic fallback: success exactly when a path is found, then with one hop per step, Manhattan distance as hop count and the path delay; failure leaves the empty result |
| Factory.MakeKey | src/routing/routing_factory.cpp:100-102 | the key is the algorithm name, one `_`, then the topology name |
| Factory.FirstUnderscore | src/routing/routing_factory.cpp:77 | `find('_')`: the position of the first `_`, or the length when there is none |
| Factory.MakeKeySplits | src/routing/routing_factory.cpp:72-102 | a key made from an algorithm name without `_` splits back, at its first `_`, into the algorithm and the topology |
| Factory.MakeKeyCollides | src/routing/routing_factory.cpp:100-102 | keys are not unique: `("duato", "2D_mesh")` and `("duato_2D", "mesh")` give the same key, which splits as the former |
| Factory.Lookup | src/routing/routing_factory.cpp:41-66 | the configured pair when registered; otherwise the topology's non-empty default when registered; failure exactly when neither is, naming the topology and the algorithm last tried |
| Factory.Instantiate | src/routing/routing_factory.cpp:127-145 | a failed lookup stays failed; a found creator succeeds unless it is a hypercube protocol and the network is not a hypercube |
| Factory.JoinEnds | src/routing/routing_factory.cpp:104-116 | the joined string starts with the first part and ends with the last: no leading or trailing separator |
| Factory.JoinLength | src/routing/routing_factory.cpp:104-116 | the joined string is as long as the parts plus one separator between each two |
| Factory.BuiltinCreators | src/routing/routing_factory.cpp:118-153 | the registered keys are exactly `duato_2D_mesh`, `ecube_hypercube`, `duato_hypercube` and `duato_3D_mesh` |
| Factory.BuiltinsByRegistration | src/routing/routing_factory.cpp:120-153 | the four registrations in order add exactly those creators |
| Factory.BuiltinDefaults | src/routing/routing_factory.cpp:156-158 | defaults are set for exactly `2D_mesh`, `hypercube` and `3D_mesh` |
| Factory.BuiltinLookups | src/routing/routing_factory.cpp:41-158 | with the built-in registrations the default configuration builds the mesh protocol, an unknown algorithm on a hypercube falls back to E-cube, `duato` on a hypercube builds the hypercube protocol, and an unknown topology fails |
| Factory.SupportedIffRegistered | src/routing/routing_factory.cpp:72-93 | for an algorithm name without `_`, being registered for a topology is the same as being listed as supported for it |
| Factory.RoutingFactory.constructor | src/routing/routing_factory.h:82-89 | a new registry has no creators and no defaults |
| Factory.RoutingFactory.RegisterRoutingAlgorithm | src/routing/routing_factory.cpp:33-39 | the creator is stored under the pair's key, replacing any earlier one; the defaults are kept |
| Factory.RoutingFactory.InitializeBuiltinAlgorithms | src/routing/routing_factory.cpp:118-159 | adds exactly the built-in creators and the built-in defaults |
| Factory.RoutingFactory.Instance | src/routing/routing_factory.cpp:21-31 | the singleton holds exactly the built-in creators and defaults |
| Factory.RoutingFactory.IsAlgorithmSupported | src/routing/routing_factory.cpp:90-93 | true exactly when the pair's key is registered, and then, for a name without `_`, exactly when the name is listed as supported |
| Factory.RoutingFactory.GetDefaultAlgorithm | src/routing/routing_factory.cpp:95-98 | the topology's default, or the empty string when it has none |
| Factory.RoutingFactory.CreateRoutingAlgorithm | src/routing/routing_factory.cpp:41-70 | the result of the lookup with fallback, then the creator run on the network |
| Factory.RoutingFactory.GetSupportedAlgorithms | src/routing/routing_factory.cpp:72-88 | one entry for each algorithm part of a key whose topology part is the topology, and no entry twice |
| Factory.RoutingFactory.GetSupportedAlgorithmsString | src/routing/routing_factory.cpp:104-116 | the supported algorithms, each exactly once and in some order, joined by `, ` |
| Factory.CollectStep | src/routing/routing_factory.cpp:75-85 | one more key visited adds its algorithm part when it is for the topology, and keeps the names distinct |
| Factory.SupportedInsert | src/routing/routing_factory.cpp:75-85 | the supported set of one more key grows by its algorithm part exactly when the key is for the topology |
| Factory.NewAlgorithm | src/routing/routing_factory.cpp:75-85 | a key not yet visited brings an algorithm name not yet collected |
| Factory.SameSplitSameKey | src/routing/routing_factory.cpp:77-81 | two keys with the same algorithm part and the same topology part are the same key |
| Statistics.SumBetween | src/metrics/metrics.cpp:50-59 | a series whose values lie in `[lo, hi]` sums to between `length * lo` and `length * hi` |
| Statistics.MeanBetween | src/metrics/metrics.cpp:50-59 | the mean of a non-empty series lies between its bounds |
| Statistics.Initial | src/metrics/metrics.cpp:7-11 | `Metrics()` records nothing, is in no phase, is not saturated, and its totals agree with its series |
| Statistics.RecordLatency | src/metrics/metrics.cpp:16-20 | one more latency and one more counted, packet latencies and samples kept, totals still agreeing with the series |
| Statistics.RecordThroughput | src/metrics/metrics.cpp:22-26 | one more throughput that is also one more saturation sample, latencies and flit series kept, totals still agreeing |
| Statistics.RecordPacketLatency | src/metrics/metrics.cpp:28-31 | one more packet latency, recorded as a latency too, totals still agreeing |
| Statistics.RecordFlitThroughput | src/metrics/metrics.cpp:33-38 | one more flit throughput and one more throughput, and the value pushed twice onto the saturation samples |
| Statistics.RecordInjectionRate | src/metrics/metrics.cpp:40-43 | the rate is appended and becomes the current one |
| Statistics.RecordHopCount | src/metrics/metrics.cpp:45-48 | the hop count is appended and added to the total |
| Statistics.RecordNetworkUtilization | src/metrics/metrics.cpp:256-258 | the utilisation is appended |
| Statistics.RecordCongestionEvent | src/metrics/metrics.cpp:252-254 | one more congestion event and nothing else changes |
| Statistics.StartWarmup | src/metrics/metrics.cpp:105-109 | warm-up phase, not measurement, cycle 0, and nothing else changes |
| Statistics.StartMeasurement | src/metrics/metrics.cpp:111-117 | measurement phase, not warm-up; the packet latencies, flit throughputs and saturation samples of the warm-up are forgotten, while the latencies, throughputs, hop counts and congestion events stay |
| Statistics.EndMeasurement | src/metrics/metrics.cpp:119-121 | leaves the measurement phase and nothing else changes |
| Statistics.SetSaturated | src/metrics/metrics.cpp:160-162 | the flag reads back as the one set and nothing else changes |
| Statistics.Reset | src/metrics/metrics.cpp:221-246 | every series, total, counter and flag is back at its value after `Metrics()` |
| Statistics.AverageLatency | src/metrics/metrics.cpp:50-52 | with totals agreeing, the mean recorded latency, or 0 when there is none |
| Statistics.CalculateThroughput | src/metrics/metrics.cpp:54-59 | with totals agreeing, the mean recorded throughput, or 0 when there is none |
| Statistics.Throughput | src/metrics/metrics.cpp:65-75 | the mean flit throughput when there is one, else the mean of all throughputs |
| Statistics.AveragePacketDelay | src/metrics/metrics.cpp:77-94 | the mean packet latency when there is one; with none, -1 during measurement, else the mean latency or 0 |
| Statistics.AverageHopCount | src/metrics/metrics.cpp:100-103 | the total hops over the number of hop counts, 0 when there is none |
| Statistics.AverageNetworkUtilization | src/metrics/metrics.cpp:260-267 | the mean utilisation, 0 when there is none |
| Statistics.IsSaturatedWith | src/metrics/metrics.cpp:130-158 | saturated when the flag is set or the mean latency exceeds the threshold; otherwise, with fewer than two samples never, and with two or more exactly when the last sample is 0 or its drop relative to the one before exceeds the threshold |
| Statistics.IsSaturated | src/metrics/metrics.cpp:123-128 | the two-threshold test with 50 cycles and a 0.1 drop: saturated whenever the flag is set or the mean latency exceeds 50 cycles, or the last of at least two samples is 0; never saturated otherwise with fewer than two samples |
| Statistics.RecordPacketLatenciesAppends | src/metrics/metrics.cpp:28-31 | recording packets one after another appends their latencies, in order, to those of the phase |
| Statistics.PacketCountSinceMeasurement | src/metrics/metrics.cpp:273-275 | after `startMeasurement`, the latencies `getPacketCount` counts are exactly the packets recorded since, whatever the warm-up recorded |
| Statistics.CongestionEventsCount | src/metrics/metrics.cpp:248-254 | `k` congestion events add `k` to the count that `getCongestionEvents` returns and change nothing else; after `reset` the count is `k`; the phase changes keep it |
| Statistics.CongestionEventsFromReset | src/metrics/metrics.cpp:221-254 | from the state `reset` leaves, `k` congestion events give a count of `k` |
| Statistics.FlitSampleHidesDrop | src/metrics/metrics.cpp:33-38 | right after a non-zero flit throughput, with a non-negative drop threshold, the drop test never fires: only the flag and the latency can report saturation |
| Statistics.MeasurementDelay | src/metrics/metrics.cpp:77-117 | right after `startMeasurement` the packet delay is -1, and after one packet latency it is that latency |
| Statistics.AverageLatencyBetween | src/metrics/metrics.cpp:50-52 | latencies recorded in `[lo, hi]` give a mean latency in `[lo, hi]` |
| Statistics.ThroughputBetween | src/metrics/metrics.cpp:54-75 | throughput samples in `[0, hi]` give a throughput in `[0, hi]` |
| MetricsObject.Metrics.constructor | src/metrics/metrics.cpp:7-11 | the fields hold the initial state |
| MetricsObject.Metrics.RecordLatency | src/metrics/metrics.cpp:16-20 | the fields move as `Statistics.RecordLatency` says |
| MetricsObject.Metrics.RecordThroughput | src/metrics/metrics.cpp:22-26 | the fields move as `Statistics.RecordThroughput` says |
| MetricsObject.Metrics.PushThroughputSample | src/metrics/metrics.cpp:24 | one more saturation sample and nothing else changes |
| MetricsObject.Metrics.RecordPacketLatency | src/metrics/metrics.cpp:28-31 | the fields move as `Statistics.RecordPacketLatency` says |
| MetricsObject.Metrics.RecordFlitThroughput | src/metrics/metrics.cpp:33-38 | the fields move as `Statistics.RecordFlitThroughput` says |
| MetricsObject.Metrics.RecordInjectionRate | src/metrics/metrics.cpp:40-43 | the fields move as `Statistics.RecordInjectionRate` says |
| MetricsObject.Metrics.RecordHopCount | src/metrics/metrics.cpp:45-48 | the fields move as `Statistics.RecordHopCount` says |
| MetricsObject.Metrics.RecordNetworkUtilization | src/metrics/metrics.cpp:256-258 | the fields move as `Statistics.RecordNetworkUtilization` says |
| MetricsObject.Metrics.RecordCongestionEvent | src/metrics/metrics.cpp:252-254 | the fields move as `Statistics.RecordCongestionEvent` says |
| MetricsObject.Metrics.StartWarmup | src/metrics/metrics.cpp:105-109 | the fields move as `Statistics.StartWarmup` says |
| MetricsObject.Metrics.StartMeasurement | src/metrics/metrics.cpp:111-117 | the fields move as `Statistics.StartMeasurement` says |
| MetricsObject.Metrics.ClearPhaseSeries | src/metrics/metrics.cpp:114-116 | the packet latencies, flit throughputs and saturation samples are emptied and nothing else changes |
| MetricsObject.Metrics.EndMeasurement | src/metrics/metrics.cpp:119-121 | the fields move as `Statistics.EndMeasurement` says |
| MetricsObject.Metrics.SetSaturated | src/metrics/metrics.cpp:160-162 | the fields move as `Statistics.SetSaturated` says |
| MetricsObject.Metrics.Reset | src/metrics/metrics.cpp:221-246 | the fields are back at the initial state |
| MetricsObject.Metrics.ClearLatencies | src/metrics/metrics.cpp:222-237 | the latencies with their total and count are cleared and nothing else changes |
| MetricsObject.Metrics.ClearThroughputs | src/metrics/metrics.cpp:223-233 | the throughputs with their total and the saturation samples are cleared and nothing else changes |
| MetricsObject.Metrics.ClearFlits | src/metrics/metrics.cpp:225-235 | the flit throughputs, the flit total and the packet total are cleared and nothing else changes |
| MetricsObject.Metrics.ClearPacketHistory | src/metrics/metrics.cpp:224-227 | the packet latencies and the latency/throughput history are cleared and nothing else changes |
| MetricsObject.Metrics.ClearHops | src/metrics/metrics.cpp:229-241 | the hop counts with their total and the congestion events are cleared and nothing else changes |
| MetricsObject.Metrics.ClearInjection | src/metrics/metrics.cpp:226-239 | the injection rates, the current rate and the utilisations are cleared and nothing else changes |
| MetricsObject.Metrics.ClearPhase | src/metrics/metrics.cpp:240-244 | no phase and cycle 0, nothing else changes |
| MetricsObject.Metrics.ClearSaturation | src/metrics/metrics.cpp:238-245 | not saturated and no measurement cycles, nothing else changes |
| MetricsObject.Metrics.SumLoop | src/metrics/metrics.cpp:67-70 | the getters' summing loop adds up exactly the series |
| MetricsObject.Metrics.GetThroughput | src/metrics/metrics.cpp:65-75 | returns `Statistics.Throughput` of the current state |
| MetricsObject.Metrics.GetAveragePacketDelay | src/metrics/metrics.cpp:77-94 | returns `Statistics.AveragePacketDelay` of the current state |
| MetricsObject.Metrics.GetAverageNetworkUtilization | src/metrics/metrics.cpp:260-267 | returns `Statistics.AverageNetworkUtilization` of the current state |
| EngineRules.MeshNumberingIsInjective | src/simulator/simulator.cpp:311-321 | a grid position `(x, y)` numbered `x * sizeY + y` gets a node number below `sizeX * sizeY`, and dividing that number by `sizeY` gives the position back |
| EngineRules.MeshNumberingIsSurjective | src/simulator/simulator.cpp:311-321 | every node number below `sizeX * sizeY` is the number of exactly the grid position its quotient and remainder by `sizeY` name |
| EngineRules.NextHopMeshStep | src/simulator/simulator.cpp:598-625 | between grid positions, `calculateNextHop` gives no hop exactly at the destination; otherwise it gives a grid position one step closer (Manhattan distance), moving along `x` while `x` differs and then along `y` |
| EngineRules.MeshRoute | src/simulator/simulator.cpp:598-625 | the positions visited by repeated next hops: Manhattan distance plus one of them, starting at the current position, ending at the destination, all in the grid |
| EngineRules.MeshRouteFollowsRule | src/simulator/simulator.cpp:598-625 | each position of the route is the next hop of the one before it |
| EngineRules.NextHopMeshIdStep | src/simulator/simulator.cpp:598-625 | on node numbers: no hop exactly at the destination, otherwise another node of the grid one step closer to the destination |
| EngineRules.NextHopHypercubeIsEcube | src/simulator/simulator.cpp:571-596 | between nodes of an `n`-cube, `calculateNextHopHypercube` gives no hop exactly at the destination, otherwise the second node of the e-cube route, which differs from the destination in one bit fewer |
| EngineRules.Truncate | src/simulator/simulator.cpp:356-359 | `static_cast<int>` of a double: truncation toward zero, within one of the value on the side of zero |
| EngineRules.DynamicLinkCapacity | src/simulator/simulator.cpp:353-359 | the per-link budget of a cycle is between 1 and 3, is 3 up to rate 0.15 and at most 2 above it |
| EngineRules.DynamicLinkCapacityFalls | src/simulator/simulator.cpp:353-359 | a higher injection rate never raises the link budget |
| EngineRules.MaxGlobalPackets | src/simulator/simulator.cpp:361-372 | the global budget lies between a sixth of the base capacity and the base capacity, and is the base capacity up to rate 0.16 |
| EngineRules.RoutingRounds | src/simulator/simulator.cpp:377-383 | between 1 and 3 rounds; 3 exactly up to rate 0.15 and 1 exactly above 0.18 |
| EngineRules.BufferDelay | src/simulator/simulator.cpp:686-707 | `calculateBufferDelay` of a utilisation: not negative for a non-negative utilisation, at most 27 for a utilisation between 0 and 1 |
| EngineRules.SystemDelay | src/simulator/simulator.cpp:633-656 | the injection-pressure delay is not negative for a non-negative rate |
| EngineRules.CongestionDelay | src/simulator/simulator.cpp:658-671 | the congestion delay of a utilisation is never negative |
| EngineRules.ThresholdEffect | src/simulator/simulator.cpp:677-681 | the threshold delay above rate 0.10 is never negative |
| EngineRules.QueuingDelay | src/simulator/simulator.cpp:627-684 | `calculateQueuingDelay` with non-negative hops, utilisation, rate and buffer delay is at least `4 + 5 * hops` |
| EngineRules.HypercubeRetireLatency | src/simulator/simulator.cpp:401-423 | the latency recorded for a hypercube packet is at least `18 + 3 * hops` |
| EngineRules.MeshRetireLatency | src/simulator/simulator.cpp:477-484 | the latency recorded for a mesh packet is at least 15 when its hop count is not negative, and otherwise was raised to `15 + 5 * hops` |
| EngineRules.BufferUtilizationSum | src/simulator/simulator.cpp:527-553 | the sum of the buffer fill ratios of the nodes is not negative |
| EngineRules.LinkLoad | src/simulator/simulator.cpp:555-558 | the sum over links of their loads divided by 3 is not negative |
| EngineRules.LinkLoadRemove | src/simulator/simulator.cpp:555-558 | that sum is one link's load over 3 plus the sum over the other links, whichever link is taken first |
| EngineRules.Utilization | src/simulator/simulator.cpp:560-568 | the combined utilisation is at most 1, and not negative when its parts and the rate are not |
| EngineRules.NetworkUtilization | src/simulator/simulator.cpp:521-569 | `calculateNetworkUtilization` of a state is at most 1, and not negative for a non-negative rate |
| EngineRules.ClampThroughput | src/simulator/simulator.cpp:190-190 | the throughput is clamped to `[0, cap]` (a NaN division gives 0), and a finite value already in range is kept |
| EngineRules.MaxNetworkCapacity | src/simulator/simulator.cpp:183-188 | the network capacity is at most 0.75 and exactly 0.75 up to rate 0.16 |
| EngineRules.ReportedThroughput | src/simulator/simulator.cpp:177-190 | the recorded throughput is not negative and stays within the network capacity (or is 0) |
| EngineRules.RunSaturated | src/simulator/simulator.cpp:197-218 | a run is saturated if it received nothing or its mean latency exceeds 300; otherwise exactly when throughput is low with latency above 60, or the final run of consecutive low-throughput cycles exceeds 20%, or the final run of consecutive zero-receive cycles exceeds 15% of the measurement |
| EngineRules.ZeroRunTo | src/simulator/simulator.cpp:147-151 | the zero run after the first `n` cycles: that many cycles at the end received nothing and the cycle before them, if any, received something |
| EngineRules.ZeroRun | src/simulator/simulator.cpp:147-151 | `consecutiveZeroReceived` as a function of the counts received: the final cycles that received nothing, bounded by the preceding cycle that did not |
| EngineRules.ZeroRunToAppend | src/simulator/simulator.cpp:147-151 | a later cycle does not change the zero run at an earlier point |
| EngineRules.ExpectedPackets | src/simulator/simulator.cpp:153-154 | the expected packets per cycle, the rate times the node count, not negative for a non-negative rate |
| EngineRules.LowRun | src/simulator/simulator.cpp:153-159 | `lowThroughputCycles` as a function of the counts received: the final cycles below 60% of the expected packets, bounded by the preceding cycle that was not |
| EngineRules.RunsStep | src/simulator/simulator.cpp:147-159 | one more cycle extends the zero run by one when it received nothing and restarts it at 0 otherwise, and likewise the low run on a low cycle |
| EngineRules.RanOnStep | src/simulator/simulator.cpp:161-164 | a cycle that did not trigger the early stop leaves every earlier cycle clear of it too |
| EngineRules.CountersStep | src/simulator/simulator.cpp:147-164 | the source's counter updates for one more cycle keep the counters equal to the runs over the received counts, and the counts non-negative and adding up to the packets recorded |
| Engine.FirstOther | src/simulator/simulator.cpp:276-280 | the destination the drawing loop settles on: none exactly when every draw is the node itself, and never the node itself |
| Engine.FirstOtherIsFirst | src/simulator/simulator.cpp:276-280 | the destination chosen is one of the draws, and every draw before it was the node itself |
| Engine.MeshDestinationExistsIsRange | src/simulator/simulator.cpp:315-324 | the mesh test of a destination number, with C++ truncating `/` and `%`, accepts exactly the numbers `0 .. sizeX * sizeY - 1` |
| Engine.NewPacket | src/simulator/simulator.cpp:285-292 | the injected packet carries source, destination and cycle, has no hops, and starts at its source heading for its destination node |
| Engine.CountSome | src/simulator/simulator.cpp:259-295 | the number of injecting nodes is at most the number of nodes |
| Engine.CountSomeZero | src/simulator/simulator.cpp:259-295 | no packet is counted exactly when no node injects |
| Engine.CountSomeFull | src/simulator/simulator.cpp:259-295 | every node is counted exactly when every node injects |
| Engine.EmptyBuffers | src/simulator/simulator.cpp:242-248 | the buffers after construction or `reset`: one empty queue per node of the network and none other |
| Engine.EmptyBuffersHoldNothing | src/simulator/simulator.cpp:242-248 | such buffers hold no packet |
| Engine.BufferDelayOf | src/simulator/simulator.cpp:686-707 | the buffer delay of a packet is never negative, including the packet with no node or whose node has no buffer |
| Engine.Bump | src/simulator/simulator.cpp:455-456 | `links[key]++`: that key one more, every other key unchanged, the key now present |
| Engine.Forwarded | src/simulator/simulator.cpp:453-454 | a forwarded packet has one hop more and is at the next node; its source, destination and injection time are kept |
| Engine.DrawDestination | src/simulator/simulator.cpp:316-318 | the drawing loop ends on the first draw that is not the node itself, or on none |
| Engine.Appended | src/simulator/simulator.cpp:294-294 | after nodes `0 .. n - 1` had their turn, exactly those queues gained their own packet, if any, at the back |
| Engine.AppendedCount | src/simulator/simulator.cpp:294-295 | the turns add to the buffers exactly the packets counted |
| Engine.AppendedPlaced | src/simulator/simulator.cpp:289-294 | packets queued at their source keep every queued packet at the node whose queue holds it |
| Engine.RetireGrows | src/simulator/simulator.cpp:425-426 | recording a retired packet of latency at least 15 adds one latency, one hop count, and keeps the latency floor |
| Engine.CongestionGrowsNothing | src/simulator/simulator.cpp:440-440 | a congestion event adds no packet latency |
| Engine.WellPlacedPop | src/simulator/simulator.cpp:398-398 | popping the front packet keeps the other packets in place and leaves one packet fewer in the network |
| Engine.MovedToKeeps | src/simulator/simulator.cpp:451-454 | forwarding to another node keeps every packet at the node that queues it and the number of waiting packets the same, and changes only the two queues involved |
| Engine.MetricsGrewKeepsFloor | src/simulator/simulator.cpp:425-426 | latencies of at least 15 remain so as more are recorded |
| Engine.Simulator.Hypercube | src/simulator/simulator.cpp:31-48 | the hypercube simulator: one empty queue per node of the cube, no link load, cycle 0, fresh metrics |
| Engine.Simulator.Mesh | src/simulator/simulator.cpp:50-69 | the mesh simulator: one empty queue per node of the grid, no link load, cycle 0, fresh metrics |
| Engine.Simulator.Reset | src/simulator/simulator.cpp:231-255 | `reset`: cycle 0, every queue empty, no link load, metrics as new, the rate kept |
| Engine.Simulator.UpdateCurrentCycle | src/simulator/simulator.cpp:517-519 | the cycle is set and nothing else changes |
| Engine.Simulator.Injected | src/simulator/simulator.cpp:268-300 | a node injects exactly when its coin is below the rate and the drawing loop finds another node of the network; the packet starts at its source without hops, stamped with the current cycle |
| Engine.Simulator.Injections | src/simulator/simulator.cpp:268-301 | the packets of all nodes, entry `k` that of node `k` |
| Engine.Simulator.NothingInjectedBelowCoins | src/simulator/simulator.cpp:273-274 | when the rate is at most every coin, no packet is injected |
| Engine.Simulator.InjectionsPlaced | src/simulator/simulator.cpp:289-294 | every injected packet sits at its source and heads for another node of the network |
| Engine.Simulator.InjectPackets | src/simulator/simulator.cpp:258-345 | `injectPackets`: each queue gains exactly its node's injected packet at the back, the count returned is the number injected and the buffered total rises by it; links, cycle and rate unchanged |
| Engine.Simulator.InjectionLoop | src/simulator/simulator.cpp:304-341 | the node loop yields exactly the appended queues and the count of injections |
| Engine.Simulator.InjectAt | src/simulator/simulator.cpp:306-339 | one node's turn yields exactly the packet the coin, the drawing loop and the existence test give |
| Engine.Simulator.CalculateNetworkUtilization | src/simulator/simulator.cpp:521-569 | the loops over nodes and over links compute the utilisation of the current state |
| Engine.Simulator.CalculateQueuingDelay | src/simulator/simulator.cpp:627-684 | the queuing delay of a packet from the utilisation and buffer delay of the current state |
| Engine.Simulator.Retire | src/simulator/simulator.cpp:397-429 | an arrived front packet leaves its queue, and its hops and its latency, computed after it left, are recorded |
| Engine.Simulator.Account | src/simulator/simulator.cpp:401-426 | the latency of the mode's formula and the hop count are appended to the metrics, which grow by one retired packet |
| Engine.Simulator.PopFront | src/simulator/simulator.cpp:398-398 | the front packet is returned and removed, one packet fewer buffered, nothing else changes |
| Engine.Simulator.RetireLatency | src/simulator/simulator.cpp:401-423 | the latency by the mode's formula, at least 15 |
| Engine.Simulator.RecordRetired | src/simulator/simulator.cpp:425-426 | `recordPacketLatency` then `recordHopCount`: one more latency of at least 15 |
| Engine.Simulator.Forward | src/simulator/simulator.cpp:451-457 | the front packet moves to the back of the next node's queue with one hop more, the link carries one more, the buffered total is the same |
| Engine.Simulator.VisitHypercube | src/simulator/simulator.cpp:386-458 | a hypercube visit: an empty queue is passed over; an arrived packet retires; another goes to its e-cube next hop unless that queue is full or the link budget is spent, which records a congestion event and changes nothing else |
| Engine.Simulator.RecordCongestion | src/simulator/simulator.cpp:440-440 | one more congestion event, no latency recorded |
| Engine.Simulator.VisitMesh | src/simulator/simulator.cpp:462-511 | a mesh visit: an empty queue is passed over; an arrived packet retires; another moves one step, `x` first, toward its destination unless that queue is full or the link already carried two packets, which changes nothing |
| Engine.Simulator.HypercubeRound | src/simulator/simulator.cpp:386-458 | one round over the nodes while the global budget lasts: every link within its budget; the packets retired plus the packets forwarded one hop add exactly their number to the global count, which stays within the budget, and to at most one per node; packets retired plus still buffered equal those buffered before |
| Engine.Simulator.RouteHypercube | src/simulator/simulator.cpp:385-459 | the hypercube rounds: every link within budget; the packets retired plus the hops forwarded stay within the global budget and within one per node and round; every packet retired or still buffered |
| Engine.Simulator.MeshRound | src/simulator/simulator.cpp:462-512 | one mesh round: every link within two packets, at most one packet retired or forwarded per node, every packet retired or still buffered |
| Engine.Simulator.RouteMesh | src/simulator/simulator.cpp:461-513 | two mesh rounds with the same guarantees, so at most two packets retired or forwarded per node |
| Engine.Simulator.RoutePackets | src/simulator/simulator.cpp:347-515 | `routePackets`: no packet lost (retired ones recorded, each latency at least 15, the rest still queued), every link within the cycle's capacity; in the hypercube the packets retired plus the hops forwarded stay within the global budget and within one per node and round; in the mesh within two per node |
| Engine.Simulator.WarmUp | src/simulator/simulator.cpp:128-132 | the warm-up cycles: every packet injected is still queued or has retired |
| Engine.Simulator.MeasureCycle | src/simulator/simulator.cpp:137-145 | one measured cycle: the packet count grows by exactly the non-negative count received, packets received plus still queued equal those queued before plus those injected, every latency at least 15 |
| Engine.Tally | src/simulator/simulator.cpp:147-164 | the counter updates of one cycle keep the counters equal to the final runs over the cycles so far, and the stop flag is exactly the early-stop test on them |
| Engine.Simulator.Measure | src/simulator/simulator.cpp:136-165 | the measurement cycles: still measuring, every recorded latency at least 15, packets received plus still queued equal those queued before plus those injected; at most the configured cycles ran, each receiving a non-negative count that adds up to the packets recorded; the counters are the final runs of consecutive cycles that received nothing and that received under 60% of the expected packets; the loop stops before the last cycle exactly when the zero run exceeds a fifth of the measurement cycles, and no earlier cycle met that test |
| Engine.Simulator.Conclude | src/simulator/simulator.cpp:167-221 | the measured latencies are kept, the reported throughput is appended, the verdict is that of the saturation rule on the received count and mean latency, and measurement ends |
| Engine.Simulator.RunSimulation | src/simulator/simulator.cpp:117-222 | `runSimulation`: measurement over, every latency at least 15, one flit throughput recorded, the verdict that of the saturation rule on counters that are the final runs of consecutive measured cycles that received nothing or under 60% of the expected packets, over cycles that stopped early only on a zero run above a fifth of the measurement; a run that received nothing, or whose mean latency exceeds 300, is saturated |
| Transpose.TransposeTraffic.constructor | src/traffic/transpose_traffic.cpp:3-3 | a pattern over `networkSize` nodes, rate 0 |
| Transpose.TransposeTraffic.GenerateDestination | src/traffic/transpose_traffic.cpp:18-20 | the destination is the mirror image of the source (they sum to `networkSize - 1`) and a node of the network for a node of the network |
| Transpose.TransposeTraffic.DestinationIsInvolution | src/traffic/transpose_traffic.cpp:18-20 | the destination of the destination is the source |
| Transpose.TransposeTraffic.DestinationIsInjective | src/traffic/transpose_traffic.cpp:18-20 | distinct sources have distinct destinations |
| Transpose.TransposeTraffic.GenerateTrafficVector | src/traffic/transpose_traffic.cpp:8-16 | one entry per node, entry `i` the destination of node `i` |
| Transpose.TrafficVectorIsPermutation | src/traffic/transpose_traffic.cpp:8-16 | the traffic vector is a permutation of the nodes: entries in range, pairwise distinct, each node the entry at its mirror image |
| Transpose.TransposeTraffic.SetInjectionRate | src/traffic/transpose_traffic.cpp:26-28 | the rate `getInjectionRate` reads back afterwards is the one set |

## Left out

- Driver and configuration parsing: `src/main.cpp`, `src/utils/config.cpp` and `Config`'s file reading are not part of this model. `Settings.Config` holds the values the core reads, with the defaults of `Config::Config()`.
- Console output, logging, `Metrics::exportToCSV` and `print*`, the Duato debug printers, the engine's "stopping early" message and the `getDescription` strings: output only.
- Simulator `initializeNetwork`, `setNetwork`, `setRoutingAlgorithm`, `collectMetrics` (empty) and `getMetrics`: wiring that `routePackets` never consults. The `routingAlgorithm` and `trafficPattern` fields are not modelled.
- Destructors, `new`/`delete` and `inTransitPackets`, which is never filled: memory management only. As a result, `reset` has nothing to free in transit.
- Random numbers: `std::mt19937` and `rand()` in `injectPackets` become one coin and a list of candidate destinations per node and cycle. The seed formula is not modelled. The drawing loop ends at the first candidate that is not the node itself. When no candidate qualifies, the model injects nothing, whereas the source would keep drawing.
- Floating point: doubles are modelled as `real`, so rounding is not. Only a NaN or infinite division in the throughput clamp is modelled, as the `Double` value of `EngineRules.ClampThroughput`.
- Integer width: counts, ids and grid sizes are unbounded. No 32-bit overflow is modelled.
- `totalPacketsInjected` of `runSimulation` is computed and returned by `Engine.Simulator.Measure`, but the source never uses it.
- Aliasing of messages and packets: the setters are functional updates, because every packet has exactly one holder at a time.
- `HypercubeNode` is folded into `Graph.Node` with an `isHypercube` tag, which stands for the `dynamic_cast` checks.
- Mesh `initializeTopology` and the transpose `generateTraffic` are empty in the source and have no member.
- Uniform, hotspot and hypercube-uniform traffic, `simulation_context`, `network_factory` and `hypercube_virtual_channel.h` are outside the core. `virtual_channel.h` is not part of this model; `VirtualChannel` is a two-value datatype.
- Factory.RoutingFactory.GetSupportedAlgorithms: the source's order is that of `std::unordered_map` iteration, which is unspecified. The model states the set of names and that none repeats, not their order.
- Transpose.TransposeTraffic.GenerateTrafficVector requires a non-negative network size, which a `std::vector` of that size needs anyway.
- Messages.Packet.ToString states only that the text starts with `Packet[` and ends with `]`. The decimal conversions are proved separately by `Messages.IntToString` and `Messages.ParseIntToString`.
- DuatoHypercube: configured dimension priorities are natural numbers. A negative priority, which would index out of range in the source, is not modelled.
- ECube.CalculatePath requires both endpoints to be nodes of the built cube. On other nodes, the source's walk over neighbours is not covered.
- DuatoMesh.FindPath requires grid nodes and `width + height <= INT_MAX`, because `selectAdaptiveRoute` starts its minimum at `INT_MAX`.
- DuatoMesh.StepLink searches with the corrected deterministic fallback `DuatoMesh.GetDeterministicRoute`, not with the lookup as written at `src/routing/duato_protocol.cpp:161-184` (`DuatoMesh.GetDeterministicRouteAsWritten`; see Findings). With the lookup as written, a hop whose adaptive channel is busy can turn back or find no link. On a 3 x 1 mesh, from the middle node toward the right-hand node with the adaptive channel of the right-hand link busy, the walk bounces between the first two nodes until it passes 100 nodes and returns no path. Toward the left-hand node, with the adaptive channel of the left-hand link busy, the step finds no link. No caller of `Link::transmit` exists in the source, so in the shipped program every channel is free and the deterministic fallback is reached only when no incident link leads closer.
- DuatoMesh.ChooseLink builds on `DuatoMesh.StepLink` and, like it, uses the corrected deterministic fallback instead of the lookup as written.
- DuatoMesh.StepSucceeds builds on `DuatoMesh.StepLink` and, like it, uses the corrected deterministic fallback instead of the lookup as written.
- DuatoMesh.SearchStep builds on `DuatoMesh.StepLink` and, like it, uses the corrected deterministic fallback instead of the lookup as written.
- DuatoMesh.Advance builds on `DuatoMesh.StepLink` and, like it, uses the corrected deterministic fallback instead of the lookup as written.
- DuatoMesh.FindPath builds on `DuatoMesh.StepLink` and, like it, uses the corrected deterministic fallback instead of the lookup as written.
- DuatoMesh.RouteMessageWithStats builds on `DuatoMesh.StepLink` and, like it, uses the corrected deterministic fallback instead of the lookup as written.
- `isDestinationReached` compares node identity and is written inline at its uses, so it has no member of its own.
- `routeMessage` of both Duato protocols discards the result of `routeMessageWithStats` and has no separate member.

## Findings

| source | as written | input that shows it | evidently intended | confidence | as-written member | corrected member |
|---|---|---|---|---|---|---|
| src/network/hypercube_network.cpp:102-111 | `getNode(x, y)` checks only that `x + y * 2^(dimension/2)` is below `totalNodes` | `getNode(-1, 0)` on a cube of dimension at least 2 indexes `nodes[-1]` | a negative id is rejected like one past the end | not executed | Hypercube.HypercubeNetwork.GetNodeAsWritten, Hypercube.GetNodeLetsNegativeIdThrough | Hypercube.HypercubeNetwork.GetNode |
| src/routing/duato_protocol.cpp:161-184 | `getDeterministicRoute` returns the first link tagged with the direction toward the destination, whichever end of it the current node is | on a 3x1 mesh, from the middle node toward the right-hand node, the first `POSITIVE_X` link is the one arriving from the left, so the route turns back; toward the left no link is tagged `NEGATIVE_X`, so there is no route at all | the link whose far end is one step closer to the destination | not executed | DuatoMesh.GetDeterministicRouteAsWritten, DuatoMesh.DeterministicRouteAsWrittenTurnsBack | DuatoMesh.GetDeterministicRoute, DuatoMesh.StepLink, DuatoMesh.ChooseLink, DuatoMesh.StepSucceeds, DuatoMesh.SearchStep, DuatoMesh.Advance, DuatoMesh.FindPath, DuatoMesh.RouteMessageWithStats |
| src/simulator/simulator.cpp:276-280 | the destination is drawn again while it equals the injecting node, with no bound on the draws | a hypercube of dimension 0, or a 1 x 1 mesh (`rand() % 1` at `src/simulator/simulator.cpp:316-318`), with a coin below the injection rate: every draw is node 0, so the loop never ends | a node with no other node to send to injects nothing | not executed | Engine.FirstOther, Engine.SingleNodeDrawsNeverEnd | Engine.Simulator.Injected, Engine.Simulator.SingleNodeInjectsNothing |
