/**
 * `encontrar_ruta_mas_rapida` end to end: look the two names up in the
 * index, search, then compose the answer; and the planner that first
 * builds the graph from the network, the closed stations and the closed
 * segments.
 */
module Router {
  import opened Names
  import opened Graphs
  import Builder
  import Closures
  import opened Solver
  import opened Composer

  /** The outcome of a query: the two lookup errors, no route, or a route. */
  datatype Answer =
    | OriginNotFound
    | DestinationNotFound
    | NoRoute
    | Route(time: nat, segments: seq<Segment>, path: seq<Node>, fare: nat)

  /** The nodes the index lists under a name's key; none when the key is missing. */
  function Lookup(index: map<string, set<Node>>, name: string): set<Node> {
    var k := Key(name);
    if k in index then index[k] else {}
  }

  /** No walk from an origin ends at a destination. */
  ghost predicate Unreachable(g: Graph, origins: set<Node>, dests: set<Node>) {
    forall o, w :: o in origins && IsWalk(g, o, w) ==> End(o, w) !in dests
  }

  /**
   * A route is a fastest walk from an origin to a destination, charged
   * one fare per boarding and grouped into maximal runs.
   */
  ghost predicate Answers(g: Graph, origins: set<Node>, dests: set<Node>, a: Answer) {
    && a.Route?
    && |a.path| >= 1
    && Realizes(g, a.path, a.time)
    && a.path[0] in origins
    && a.path[|a.path| - 1] in dests
    && Optimal(g, origins, dests, a.time)
    && a.fare == TripFare(a.path, Fares)
    && Groups(a.segments, a.path)
  }

  /** `encontrar_ruta_mas_rapida` on a built graph and index. */
  method FindFastestRoute(g: Graph, index: map<string, set<Node>>, origin: string, destination: string)
    returns (a: Answer)
    requires WellFormed(g)
    ensures a.OriginNotFound? <==> Lookup(index, origin) == {}
    ensures a.DestinationNotFound? <==> Lookup(index, origin) != {} && Lookup(index, destination) == {}
    ensures a.NoRoute? ==> Unreachable(g, Lookup(index, origin), Lookup(index, destination))
    ensures a.Route? ==> Answers(g, Lookup(index, origin), Lookup(index, destination), a)
    ensures Lookup(index, origin) != {} && Key(origin) == Key(destination) ==> a.Route? && a.time == 0 && |a.path| == 1
  {
    var origins := Lookup(index, origin);
    var dests := Lookup(index, destination);
    if origins == {} {
      return OriginNotFound;
    }
    if dests == {} {
      return DestinationNotFound;
    }
    var trip := FastestTrip(g, origins, dests);
    if trip.None? {
      return NoRoute;
    }
    var path := trip.value.path;
    var fare := ChargeFare(path, Fares);
    var segments := GroupSegments(path);
    a := Route(trip.value.time, segments, path, fare);
  }

  /** The open nodes that carry the key of `name`. */
  function Named(b: Builder.Built, name: string): set<Node> {
    set n | n in b.graph.nodes && Key(n.name) == Key(name)
  }

  /**
   * Build the graph, then answer the query on it: the origin is not found
   * exactly when no open node carries its key.
   */
  method PlanTrip(net: Builder.Network, closedNames: seq<string>, closures: seq<Closures.ClosureInput>,
                  origin: string, destination: string)
    returns (a: Answer)
    ensures a.OriginNotFound? <==> Named(Builder.Build(net, closedNames, closures), origin) == {}
    ensures a.DestinationNotFound? <==> Named(Builder.Build(net, closedNames, closures), origin) != {}
                                        && Named(Builder.Build(net, closedNames, closures), destination) == {}
    ensures a.NoRoute? ==> Unreachable(Builder.Build(net, closedNames, closures).graph,
                                       Named(Builder.Build(net, closedNames, closures), origin),
                                       Named(Builder.Build(net, closedNames, closures), destination))
    ensures a.Route? ==> Answers(Builder.Build(net, closedNames, closures).graph,
                                 Named(Builder.Build(net, closedNames, closures), origin),
                                 Named(Builder.Build(net, closedNames, closures), destination), a)
    ensures Named(Builder.Build(net, closedNames, closures), origin) != {} && Key(origin) == Key(destination)
            ==> a.Route? && a.time == 0 && |a.path| == 1
    ensures Key(origin) in Builder.ClosedStations(closedNames) ==> a.OriginNotFound?
    ensures Key(destination) in Builder.ClosedStations(closedNames) ==> a.OriginNotFound? || a.DestinationNotFound?
    ensures a.Route? ==> forall i :: 0 <= i < |a.path| ==> Key(a.path[i].name) !in Builder.ClosedStations(closedNames)
  {
    var b := Builder.Build(net, closedNames, closures);
    Builder.BuildWellFormed(net, closedNames, closures);
    Builder.IndexExact(net, closedNames, closures);
    Builder.NodesNotClosed(net, closedNames, closures);
    LookupIsNamed(b, origin);
    LookupIsNamed(b, destination);
    a := FindFastestRoute(b.graph, b.index, origin, destination);
    if a.Route? {
      RouteIsOpen(net, closedNames, closures, a.path, a.time);
    }
  }

  /** A walk of the built graph from one of its nodes passes only open stations. */
  lemma RouteIsOpen(net: Builder.Network, closedNames: seq<string>, closures: seq<Closures.ClosureInput>,
                    path: seq<Node>, time: nat)
    requires Realizes(Builder.Build(net, closedNames, closures).graph, path, time)
    requires path[0] in Builder.Build(net, closedNames, closures).graph.nodes
    ensures forall i :: 0 <= i < |path| ==> Key(path[i].name) !in Builder.ClosedStations(closedNames)
  {
    var g := Builder.Build(net, closedNames, closures).graph;
    Builder.ArcsJoinNodes(net, closedNames, closures);
    Builder.NodesNotClosed(net, closedNames, closures);
    var w :| IsWalk(g, path[0], w) && Trace(path[0], w) == path && Cost(w) == time;
    TraceInNodes(g, path[0], w);
  }

  /** On a built index, looking a name up finds exactly the open nodes carrying its key. */
  lemma LookupIsNamed(b: Builder.Built, name: string)
    requires forall n :: n in b.graph.nodes ==> Key(n.name) in b.index && n in b.index[Key(n.name)]
    requires forall k, n :: k in b.index && n in b.index[k] ==> n in b.graph.nodes && Key(n.name) == k
    ensures Lookup(b.index, name) == Named(b, name)
  {
  }
}
