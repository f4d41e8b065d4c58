/**
 * What a routing algorithm reports for one message
 * (src/routing/routing_algorithm.h): whether it got through, the nodes it
 * visited, the hop count and two delay figures.
 */
module Routing {
  import opened Graph

  datatype RoutingResult = RoutingResult(
    success: bool,
    path: seq<Node>,
    hopCount: int,
    delay: real,
    totalDelay: real)

  /** `RoutingResult()`: failure, no path, zero hops and zero delays. */
  function EmptyResult(): (r: RoutingResult)
    ensures !r.success && r.path == [] && r.hopCount == 0 && r.delay == 0.0 && r.totalDelay == 0.0
  {
    RoutingResult(false, [], 0, 0.0, 0.0)
  }
}
