/**
 * The graph builder (`construir_grafo`): one node per station of every line
 * of every system unless the station is closed, ride arcs both ways between
 * consecutive stations unless either is closed or the segment is closed for
 * that system or for every system, and transfer arcs both ways between
 * every two distinct nodes sharing a key.
 */
module Builder {
  import opened Text
  import opened Names
  import opened Closures
  import opened Graphs

  /** A line: its identifier and its stations in order. */
  datatype Line = Line(id: string, stations: seq<string>)

  /** A system: its name, its lines and its time per hop in minutes. */
  datatype System = System(name: string, lines: seq<Line>, hopTime: nat)

  /** The static network: the systems in build order and the transfer penalty. */
  datatype Network = Network(systems: seq<System>, transferPenalty: nat)

  /** A normalised closed segment: the two station keys and the system tag. */
  datatype Cut = Cut(a: string, b: string, tag: string)

  /** The builder's result: the graph and the key-to-nodes index. */
  datatype Built = Built(graph: Graph, index: map<string, set<Node>>)

  function NodeKey(n: Node): string {
    Key(n.name)
  }

  /** The keys of the closed stations; blank names are ignored. */
  function ClosedStations(names: seq<string>): set<string> {
    set i | 0 <= i < |names| && Strip(names[i]) != [] :: Key(names[i])
  }

  /** The two directions of one closed segment. */
  function BothWays(a: string, b: string, tag: string): set<Cut> {
    {Cut(Key(a), Key(b), tag), Cut(Key(b), Key(a), tag)}
  }

  /** The cuts one closure input contributes; text without '-' contributes none. */
  function CutsOf(c: ClosureInput): set<Cut> {
    match c
    case Tagged(Closure(a, b, tag)) => BothWays(a, b, tag)
    case Untagged(a, b) => BothWays(a, b, Wildcard)
    case Hyphenated(s) =>
      if '-' in s then
        var i := IndexOf(s, '-');
        BothWays(s[..i], s[i + 1..], Wildcard)
      else {}
  }

  /** All closed segments, stored in both directions. */
  function ClosedSegments(cs: seq<ClosureInput>): set<Cut> {
    set i, k | 0 <= i < |cs| && k in CutsOf(cs[i]) :: k
  }

  /** Whether the hop between stations `a` and `b` is ridden by system `sys`. */
  predicate RideOpen(sys: string, a: string, b: string, closed: set<string>, cuts: set<Cut>) {
    && Key(a) !in closed && Key(b) !in closed
    && Cut(Key(a), Key(b), sys) !in cuts
    && Cut(Key(a), Key(b), Wildcard) !in cuts
  }

  /** Station `i` of line `li` of system `si`. */
  predicate ValidStop(net: Network, si: int, li: int, i: int) {
    && 0 <= si < |net.systems|
    && 0 <= li < |net.systems[si].lines|
    && 0 <= i < |net.systems[si].lines[li].stations|
  }

  function StopNode(net: Network, si: int, li: int, i: int): Node
    requires ValidStop(net, si, li, i)
  {
    var sys := net.systems[si];
    var line := sys.lines[li];
    Node(line.stations[i], sys.name, line.id)
  }

  /** The nodes: every stop whose station is not closed. */
  function Nodes(net: Network, closed: set<string>): set<Node> {
    set si, li, i | 0 <= si < |net.systems| && 0 <= li < |net.systems[si].lines| && 0 <= i < |net.systems[si].lines[li].stations|
      && Key(StopNode(net, si, li, i).name) !in closed
      :: StopNode(net, si, li, i)
  }

  /** The hop from stop `i` to stop `i + 1` of a line is ridden. */
  predicate OpenHop(net: Network, si: int, li: int, i: int, closed: set<string>, cuts: set<Cut>) {
    && ValidStop(net, si, li, i) && ValidStop(net, si, li, i + 1)
    && RideOpen(net.systems[si].name, StopNode(net, si, li, i).name, StopNode(net, si, li, i + 1).name, closed, cuts)
  }

  /** The ride arc for hop `i` of a line, forwards or backwards. */
  function HopArc(net: Network, si: int, li: int, i: int, forward: bool): Arc
    requires ValidStop(net, si, li, i) && ValidStop(net, si, li, i + 1)
  {
    var sys := net.systems[si];
    var a := StopNode(net, si, li, i);
    var b := StopNode(net, si, li, i + 1);
    if forward then Arc(a, b, sys.hopTime, Ride(sys.name)) else Arc(b, a, sys.hopTime, Ride(sys.name))
  }

  /** The ride arcs of all open hops, both directions. */
  function Rides(net: Network, closed: set<string>, cuts: set<Cut>): set<Arc> {
    (set si, li, i | 0 <= si < |net.systems| && 0 <= li < |net.systems[si].lines| && 0 <= i < |net.systems[si].lines[li].stations|
      && OpenHop(net, si, li, i, closed, cuts) :: HopArc(net, si, li, i, true))
    + (set si, li, i | 0 <= si < |net.systems| && 0 <= li < |net.systems[si].lines| && 0 <= i < |net.systems[si].lines[li].stations|
      && OpenHop(net, si, li, i, closed, cuts) :: HopArc(net, si, li, i, false))
  }

  /** Transfer arcs between every two distinct nodes sharing a key. */
  function Transfers(nodes: set<Node>, penalty: nat): set<Arc> {
    set a, b | a in nodes && b in nodes && a != b && NodeKey(a) == NodeKey(b) :: Arc(a, b, penalty, Transfer)
  }

  /** The nodes with key `k`. */
  function Group(nodes: set<Node>, k: string): set<Node> {
    set n | n in nodes && NodeKey(n) == k
  }

  /** The index from key to the nodes with that key. */
  function NameIndex(nodes: set<Node>): map<string, set<Node>> {
    var keys := set n | n in nodes :: NodeKey(n);
    map k | k in keys :: Group(nodes, k)
  }

  /** `construir_grafo` */
  function Build(net: Network, closedNames: seq<string>, closures: seq<ClosureInput>): Built {
    var closed := ClosedStations(closedNames);
    var cuts := ClosedSegments(closures);
    var nodes := Nodes(net, closed);
    Built(Graph(nodes, Rides(net, closed, cuts) + Transfers(nodes, net.transferPenalty)), NameIndex(nodes))
  }

  /** The arc `e` with its direction reversed. */
  function Reverse(e: Arc): Arc {
    Arc(e.to, e.from, e.time, e.mode)
  }

  /** A pair, and "A-B" text, close a segment exactly as the wildcard-tagged triple does. */
  lemma UntaggedIsWildcard(a: string, b: string)
    ensures CutsOf(Untagged(a, b)) == CutsOf(Tagged(Closure(a, b, Wildcard)))
    ensures CutsOf(Hyphenated(a + "-" + b)) == CutsOf(Untagged(a, b)) <== '-' !in a
  {
    if '-' !in a {
      var s := a + "-" + b;
      assert s == a + ['-'] + b;
      IndexOfAfter(a, '-', b);
      assert s[..|a|] == a && s[|a| + 1..] == b;
    }
  }

  /** Each closure input contributes its cuts in both directions. */
  lemma CutsOfSymmetric(c: ClosureInput, a: string, b: string, tag: string)
    requires Cut(a, b, tag) in CutsOf(c)
    ensures Cut(b, a, tag) in CutsOf(c)
  {
  }

  /** Closed segments are stored in both directions. */
  lemma ClosedSegmentsSymmetric(cs: seq<ClosureInput>, a: string, b: string, tag: string)
    ensures Cut(a, b, tag) in ClosedSegments(cs) <==> Cut(b, a, tag) in ClosedSegments(cs)
  {
    if Cut(a, b, tag) in ClosedSegments(cs) {
      var i :| 0 <= i < |cs| && Cut(a, b, tag) in CutsOf(cs[i]);
      CutsOfSymmetric(cs[i], a, b, tag);
    }
    if Cut(b, a, tag) in ClosedSegments(cs) {
      var i :| 0 <= i < |cs| && Cut(b, a, tag) in CutsOf(cs[i]);
      CutsOfSymmetric(cs[i], b, a, tag);
    }
  }

  /** Blank closed-station names close nothing. */
  lemma BlankNamesIgnored(names: seq<string>, blanks: seq<string>)
    requires forall i :: 0 <= i < |blanks| ==> Strip(blanks[i]) == []
    ensures ClosedStations(names + blanks) == ClosedStations(names)
  {
    var all := names + blanks;
    forall k | k in ClosedStations(all)
      ensures k in ClosedStations(names)
    {
      var i :| 0 <= i < |all| && Strip(all[i]) != [] && Key(all[i]) == k;
    }
    forall k | k in ClosedStations(names)
      ensures k in ClosedStations(all)
    {
      var i :| 0 <= i < |names| && Strip(names[i]) != [] && Key(names[i]) == k;
      assert all[i] == names[i];
    }
  }

  /** No node is a closed station. */
  lemma NodesNotClosed(net: Network, names: seq<string>, cs: seq<ClosureInput>)
    ensures forall n :: n in Build(net, names, cs).graph.nodes ==> NodeKey(n) !in ClosedStations(names)
  {
  }

  /** Both ends of an open hop are nodes. */
  lemma HopEndsAreNodes(net: Network, si: int, li: int, i: int, closed: set<string>, cuts: set<Cut>)
    requires OpenHop(net, si, li, i, closed, cuts)
    ensures StopNode(net, si, li, i) in Nodes(net, closed)
    ensures StopNode(net, si, li, i + 1) in Nodes(net, closed)
  {
  }

  /** Every ride arc is one direction of an open hop. */
  lemma RideIsHop(net: Network, closed: set<string>, cuts: set<Cut>, e: Arc)
      returns (si: int, li: int, i: int, forward: bool)
    requires e in Rides(net, closed, cuts)
    ensures OpenHop(net, si, li, i, closed, cuts) && e == HopArc(net, si, li, i, forward)
  {
    if e in (set si, li, i | 0 <= si < |net.systems| && 0 <= li < |net.systems[si].lines| && 0 <= i < |net.systems[si].lines[li].stations|
      && OpenHop(net, si, li, i, closed, cuts) :: HopArc(net, si, li, i, true)) {
      si, li, i :| OpenHop(net, si, li, i, closed, cuts) && e == HopArc(net, si, li, i, true);
      forward := true;
    } else {
      si, li, i :| OpenHop(net, si, li, i, closed, cuts) && e == HopArc(net, si, li, i, false);
      forward := false;
    }
  }

  /** Every arc joins two nodes, so no arc touches a closed station. */
  lemma ArcsJoinNodes(net: Network, names: seq<string>, cs: seq<ClosureInput>)
    ensures var g := Build(net, names, cs).graph;
      forall e :: e in g.arcs ==> e.from in g.nodes && e.to in g.nodes
  {
    var closed := ClosedStations(names);
    var cuts := ClosedSegments(cs);
    var g := Build(net, names, cs).graph;
    forall e | e in Rides(net, closed, cuts)
      ensures e.from in g.nodes && e.to in g.nodes
    {
      var si, li, i, fwd := RideIsHop(net, closed, cuts, e);
      HopEndsAreNodes(net, si, li, i, closed, cuts);
    }
  }

  /**
   * A ride arc stays on one line of one system, is labelled with that
   * system, takes that system's hop time, and crosses neither a closed
   * station nor a segment closed for that system or for all systems.
   */
  lemma RideArcShape(net: Network, names: seq<string>, cs: seq<ClosureInput>, e: Arc)
    requires e in Build(net, names, cs).graph.arcs && e.mode.Ride?
    ensures e.mode == Ride(e.from.system) && e.to.system == e.from.system && e.to.line == e.from.line
    ensures RideOpen(e.mode.system, e.from.name, e.to.name, ClosedStations(names), ClosedSegments(cs))
    ensures exists si :: 0 <= si < |net.systems| && net.systems[si].name == e.mode.system && net.systems[si].hopTime == e.time
  {
    var closed := ClosedStations(names);
    var cuts := ClosedSegments(cs);
    assert e in Rides(net, closed, cuts);
    var si, li, i, fwd := RideIsHop(net, closed, cuts, e);
    var sys := net.systems[si].name;
    var a := StopNode(net, si, li, i);
    var b := StopNode(net, si, li, i + 1);
    if !fwd {
      ClosedSegmentsSymmetric(cs, Key(a.name), Key(b.name), sys);
      ClosedSegmentsSymmetric(cs, Key(a.name), Key(b.name), Wildcard);
    }
  }

  /** Every open hop is ridden in both directions. */
  lemma OpenHopsRidden(net: Network, names: seq<string>, cs: seq<ClosureInput>, si: int, li: int, i: int)
    requires OpenHop(net, si, li, i, ClosedStations(names), ClosedSegments(cs))
    ensures HopArc(net, si, li, i, true) in Build(net, names, cs).graph.arcs
    ensures HopArc(net, si, li, i, false) in Build(net, names, cs).graph.arcs
  {
  }

  /** A transfer joins two distinct nodes with the same key and costs the penalty. */
  lemma TransferArcShape(net: Network, names: seq<string>, cs: seq<ClosureInput>, e: Arc)
    requires e in Build(net, names, cs).graph.arcs && e.mode == Transfer
    ensures e.from != e.to && NodeKey(e.from) == NodeKey(e.to) && e.time == net.transferPenalty
  {
    var closed := ClosedStations(names);
    var cuts := ClosedSegments(cs);
    if e in Rides(net, closed, cuts) {
      var si, li, i, fwd := RideIsHop(net, closed, cuts, e);
    }
  }

  /** Every two distinct nodes with the same key are joined by a transfer. */
  lemma TransfersComplete(net: Network, names: seq<string>, cs: seq<ClosureInput>, a: Node, b: Node)
    requires a in Build(net, names, cs).graph.nodes && b in Build(net, names, cs).graph.nodes
    requires a != b && NodeKey(a) == NodeKey(b)
    ensures Arc(a, b, net.transferPenalty, Transfer) in Build(net, names, cs).graph.arcs
  {
  }

  /** Every arc has its reverse, with the same time and mode. */
  lemma ArcsSymmetric(net: Network, names: seq<string>, cs: seq<ClosureInput>, e: Arc)
    requires e in Build(net, names, cs).graph.arcs
    ensures Reverse(e) in Build(net, names, cs).graph.arcs
  {
    var closed := ClosedStations(names);
    var cuts := ClosedSegments(cs);
    if e in Rides(net, closed, cuts) {
      var si, li, i, fwd := RideIsHop(net, closed, cuts, e);
      assert Reverse(e) == HopArc(net, si, li, i, !fwd);
    }
  }

  /** The graph the builder returns satisfies the search's precondition. */
  lemma BuildWellFormed(net: Network, names: seq<string>, cs: seq<ClosureInput>)
    ensures WellFormed(Build(net, names, cs).graph)
  {
    forall e | e in Build(net, names, cs).graph.arcs && e.mode.Ride?
      ensures e.mode.system == e.to.system
    {
      RideArcShape(net, names, cs, e);
    }
  }

  /** The index maps each key to exactly the nodes with that key, and to no empty set. */
  lemma IndexExact(net: Network, names: seq<string>, cs: seq<ClosureInput>)
    ensures var b := Build(net, names, cs);
      && (forall n :: n in b.graph.nodes ==> NodeKey(n) in b.index && n in b.index[NodeKey(n)])
      && (forall k :: k in b.index ==> b.index[k] != {})
      && (forall k, n :: k in b.index && n in b.index[k] ==> n in b.graph.nodes && NodeKey(n) == k)
  {
    var b := Build(net, names, cs);
    forall n | n in b.graph.nodes
      ensures NodeKey(n) in b.index && n in b.index[NodeKey(n)]
    {
      assert n in Group(b.graph.nodes, NodeKey(n));
    }
    forall k | k in b.index
      ensures b.index[k] != {}
    {
      var n :| n in b.graph.nodes && NodeKey(n) == k;
      assert n in Group(b.graph.nodes, k);
    }
  }

  /** Some stop of the network has key `k`. */
  ghost predicate NamesStation(net: Network, k: string) {
    exists si, li, i :: ValidStop(net, si, li, i) && NodeKey(StopNode(net, si, li, i)) == k
  }

  /** Closed segments remove rides only: the nodes and the index stay the same. */
  lemma ClosuresKeepNodes(net: Network, names: seq<string>, cs: seq<ClosureInput>)
    ensures Build(net, names, cs).graph.nodes == Build(net, names, []).graph.nodes
    ensures Build(net, names, cs).index == Build(net, names, []).index
  {
  }

  lemma ClosedSegmentsAppend(cs: seq<ClosureInput>, c: ClosureInput)
    ensures ClosedSegments(cs + [c]) == ClosedSegments(cs) + CutsOf(c)
  {
    var all := cs + [c];
    forall x | x in ClosedSegments(all)
      ensures x in ClosedSegments(cs) + CutsOf(c)
    {
      var i :| 0 <= i < |all| && x in CutsOf(all[i]);
      if i < |cs| {
        assert all[i] == cs[i];
      }
    }
    forall x | x in ClosedSegments(cs)
      ensures x in ClosedSegments(all)
    {
      var i :| 0 <= i < |cs| && x in CutsOf(cs[i]);
      assert all[i] == cs[i];
    }
    assert all[|cs|] == c;
  }

  /** Cuts that do not join two stations of the network open or close no hop. */
  lemma ForeignCutsKeepHops(net: Network, closed: set<string>, cuts: set<Cut>, extra: set<Cut>)
    requires forall x :: x in extra ==> !NamesStation(net, x.a) || !NamesStation(net, x.b)
    ensures Rides(net, closed, cuts + extra) == Rides(net, closed, cuts)
  {
    forall si, li, i | ValidStop(net, si, li, i) && ValidStop(net, si, li, i + 1)
      ensures OpenHop(net, si, li, i, closed, cuts + extra) == OpenHop(net, si, li, i, closed, cuts)
    {
      ForeignCutsKeepHop(net, closed, cuts, extra, si, li, i);
    }
  }

  lemma ForeignCutsKeepHop(net: Network, closed: set<string>, cuts: set<Cut>, extra: set<Cut>, si: int, li: int, i: int)
    requires forall x :: x in extra ==> !NamesStation(net, x.a) || !NamesStation(net, x.b)
    requires ValidStop(net, si, li, i) && ValidStop(net, si, li, i + 1)
    ensures OpenHop(net, si, li, i, closed, cuts + extra) == OpenHop(net, si, li, i, closed, cuts)
  {
    var ka := NodeKey(StopNode(net, si, li, i));
    var kb := NodeKey(StopNode(net, si, li, i + 1));
    assert NamesStation(net, ka) && NamesStation(net, kb);
  }

  /**
   * A closure that names a station absent from every line changes nothing:
   * the graph and the index are exactly those built without it.
   */
  lemma UnknownClosureIgnored(net: Network, names: seq<string>, cs: seq<ClosureInput>, c: ClosureInput)
    requires forall x :: x in CutsOf(c) ==> !NamesStation(net, x.a) || !NamesStation(net, x.b)
    ensures Build(net, names, cs + [c]) == Build(net, names, cs)
  {
    ClosedSegmentsAppend(cs, c);
    ForeignCutsKeepHops(net, ClosedStations(names), ClosedSegments(cs), CutsOf(c));
  }
}
