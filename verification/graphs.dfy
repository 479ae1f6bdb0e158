/**
 * The transit graph: nodes are (station, system, line) triples, arcs carry
 * a time in whole minutes and a mode (a ride on a system, or a transfer on
 * foot).  Walks over arcs give paths their meaning and cost.
 */
module Graphs {

  /** A station as served by one line of one system. */
  datatype Node = Node(name: string, system: string, line: string)

  /** The mode label of an arc: the system ridden, or the `TRANSFER` sentinel. */
  datatype Mode = Ride(system: string) | Transfer

  /** A directed arc of the adjacency lists. */
  datatype Arc = Arc(from: Node, to: Node, time: nat, mode: Mode)

  /**
   * The graph: its nodes and its arcs.  The order of an adjacency list only
   * decides ties between equally fast routes, so arcs form a set.
   */
  datatype Graph = Graph(nodes: set<Node>, arcs: set<Arc>)

  /**
   * Ride arcs are labelled with the system of the node they reach, so the
   * search's "last system" after any arc is the system of its target.
   */
  predicate WellFormed(g: Graph) {
    forall e :: e in g.arcs && e.mode.Ride? ==> e.mode.system == e.to.system
  }

  /** Arcs leaving `n`, the adjacency list `grafo[n]`. */
  function Out(g: Graph, n: Node): set<Arc> {
    set e | e in g.arcs && e.from == n
  }

  /**
   * A walk from `start`: arcs of `g`, the first leaving `start`, each
   * leaving where the previous one arrived.
   */
  ghost predicate IsWalk(g: Graph, start: Node, w: seq<Arc>) {
    && (forall i :: 0 <= i < |w| ==> w[i] in g.arcs)
    && (|w| > 0 ==> w[0].from == start)
    && (forall i :: 0 <= i < |w| - 1 ==> w[i].to == w[i + 1].from)
  }

  /** Where a walk from `start` ends. */
  function End(start: Node, w: seq<Arc>): Node {
    if w == [] then start else w[|w| - 1].to
  }

  /** Total time of a walk. */
  function Cost(w: seq<Arc>): nat {
    if w == [] then 0 else Cost(w[..|w| - 1]) + w[|w| - 1].time
  }

  /** The nodes a walk from `start` visits, `start` included. */
  function Trace(start: Node, w: seq<Arc>): (p: seq<Node>)
    ensures |p| == |w| + 1 && p[0] == start && p[|w|] == End(start, w)
  {
    if w == [] then [start] else Trace(start, w[..|w| - 1]) + [w[|w| - 1].to]
  }

  lemma {:induction false} TraceIndex(start: Node, w: seq<Arc>, i: int)
    requires 0 <= i < |w|
    ensures Trace(start, w)[i + 1] == w[i].to
  {
    if i < |w| - 1 {
      TraceIndex(start, w[..|w| - 1], i);
    }
  }

  /** `path` is the sequence of nodes of a walk of `g` that takes `time` minutes. */
  ghost predicate Realizes(g: Graph, path: seq<Node>, time: nat) {
    |path| >= 1 && exists w :: IsWalk(g, path[0], w) && Trace(path[0], w) == path && Cost(w) == time
  }

  /** A walk from a node, along arcs that join nodes, visits only nodes. */
  lemma TraceInNodes(g: Graph, start: Node, w: seq<Arc>)
    requires IsWalk(g, start, w) && start in g.nodes
    requires forall e :: e in g.arcs ==> e.from in g.nodes && e.to in g.nodes
    ensures forall i :: 0 <= i < |Trace(start, w)| ==> Trace(start, w)[i] in g.nodes
  {
    forall i | 0 <= i < |Trace(start, w)|
      ensures Trace(start, w)[i] in g.nodes
    {
      if i > 0 {
        TraceIndex(start, w, i - 1);
      }
    }
  }

  /** Prefixes of walks are walks and cost no more. */
  lemma PrefixWalk(g: Graph, start: Node, w: seq<Arc>, k: nat)
    requires IsWalk(g, start, w) && k <= |w|
    ensures IsWalk(g, start, w[..k]) && Cost(w[..k]) <= Cost(w)
  {
    if k < |w| {
      assert w[..|w| - 1][..k] == w[..k];
      PrefixWalk(g, start, w[..|w| - 1], k);
    } else {
      assert w[..k] == w;
    }
  }

  /** A walk with one more arc in front. */
  lemma {:induction false} PrependWalk(g: Graph, e: Arc, w: seq<Arc>)
    requires e in g.arcs && IsWalk(g, e.to, w)
    ensures IsWalk(g, e.from, [e] + w)
    ensures End(e.from, [e] + w) == End(e.to, w)
    ensures Cost([e] + w) == e.time + Cost(w)
    ensures Trace(e.from, [e] + w) == [e.from] + Trace(e.to, w)
    decreases |w|
  {
    if w != [] {
      var v := w[..|w| - 1];
      var last := w[|w| - 1];
      PrefixWalk(g, e.to, w, |w| - 1);
      assert w[..|w| - 1] == v;
      PrependWalk(g, e, v);
      assert ([e] + w)[..|w|] == [e] + v;
      assert ([e] + w)[|w|] == last;
    }
  }
}
