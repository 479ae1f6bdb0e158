/**
 * The result composer of `encontrar_ruta_mas_rapida`: the fare of a path
 * (one fare each time the path boards a system) and the grouping of a path
 * into maximal runs on one (system, line).
 */
module Composer {
  import opened Wrappers
  import opened Graphs

  /** `tarifas.get(sistema, 0)`: unknown systems cost nothing. */
  function FareOf(fares: map<string, nat>, sys: string): nat {
    if sys in fares then fares[sys] else 0
  }

  /** The fares per boarding, in pesos: Metro 5, Metrobús 6, Trolebús 4. */
  const Fares: map<string, nat> := map["METRO" := 5, "METROBUS" := 6, "TROLEBUS" := 4]

  /** The path boards a system at `i`: its first node, or one whose system differs from the previous node's. */
  predicate Boards(path: seq<Node>, i: int)
    requires 0 <= i < |path|
  {
    i == 0 || path[i].system != path[i - 1].system
  }

  /** The fares of the boardings among the first `n` nodes. */
  function FareUpTo(path: seq<Node>, fares: map<string, nat>, n: nat): nat
    requires n <= |path|
  {
    if n == 0 then 0
    else FareUpTo(path, fares, n - 1) + (if Boards(path, n - 1) then FareOf(fares, path[n - 1].system) else 0)
  }

  /** The fare of a whole path. */
  function TripFare(path: seq<Node>, fares: map<string, nat>): nat {
    FareUpTo(path, fares, |path|)
  }

  /** The fare loop: charge whenever the system differs from the last one charged. */
  method ChargeFare(path: seq<Node>, fares: map<string, nat>) returns (cost: nat)
    ensures cost == TripFare(path, fares)
  {
    cost := 0;
    var previous: Option<string> := None;
    for i := 0 to |path|
      invariant cost == FareUpTo(path, fares, i)
      invariant previous == if i == 0 then None else Some(path[i - 1].system)
    {
      var current := path[i].system;
      if Some(current) != previous {
        cost := cost + FareOf(fares, current);
        previous := Some(current);
      }
    }
  }

  /** The fare up to `n` depends only on the first `n` nodes. */
  lemma {:induction false} FareUpToPrefix(p: seq<Node>, q: seq<Node>, fares: map<string, nat>, n: nat)
    requires n <= |p| && n <= |q| && p[..n] == q[..n]
    ensures FareUpTo(p, fares, n) == FareUpTo(q, fares, n)
  {
    if n > 0 {
      assert p[n - 1] == p[..n][n - 1] && q[n - 1] == q[..n][n - 1];
      if n > 1 {
        assert p[n - 2] == p[..n][n - 2] && q[n - 2] == q[..n][n - 2];
      }
      assert p[..n - 1] == p[..n][..n - 1] && q[..n - 1] == q[..n][..n - 1];
      FareUpToPrefix(p, q, fares, n - 1);
    }
  }

  /** A one-node path costs the fare of its system. */
  lemma FareOfOne(path: seq<Node>, fares: map<string, nat>)
    requires |path| == 1
    ensures TripFare(path, fares) == FareOf(fares, path[0].system)
  {
    assert Boards(path, 0);
    assert FareUpTo(path, fares, 0) == 0;
  }

  /** A path that never leaves one system costs exactly one fare. */
  lemma {:induction false} SingleSystemFare(path: seq<Node>, fares: map<string, nat>, sys: string)
    requires |path| >= 1 && forall i :: 0 <= i < |path| ==> path[i].system == sys
    ensures TripFare(path, fares) == FareOf(fares, sys)
    decreases |path|
  {
    if |path| == 1 {
      FareOfOne(path, fares);
    } else {
      var n := |path|;
      var init := path[..n - 1];
      SingleSystemFare(init, fares, sys);
      assert path[..n - 1] == init[..n - 1];
      FareUpToPrefix(path, init, fares, n - 1);
      assert !Boards(path, n - 1);
      assert TripFare(path, fares) == FareUpTo(path, fares, n - 1);
    }
  }

  /**
   * Joining two paths charges both fares, except that the second path's
   * first boarding is free when it continues the first path's system.
   */
  lemma {:induction false} FareOfJoin(p: seq<Node>, q: seq<Node>, fares: map<string, nat>)
    requires |p| >= 1 && |q| >= 1
    ensures TripFare(p + q, fares) + (if p[|p| - 1].system == q[0].system then FareOf(fares, q[0].system) else 0)
            == TripFare(p, fares) + TripFare(q, fares)
    decreases |q|
  {
    var pq := p + q;
    if |q| == 1 {
      assert pq[..|p|] == p[..|p|];
      FareUpToPrefix(pq, p, fares, |p|);
      assert pq[|p|] == q[0] && pq[|p| - 1] == p[|p| - 1];
      FareOfOne(q, fares);
      assert TripFare(pq, fares) == TripFare(p, fares) + (if Boards(pq, |p|) then FareOf(fares, q[0].system) else 0);
    } else {
      var init := q[..|q| - 1];
      FareOfJoin(p, init, fares);
      FareUpToPrefix(pq, p + init, fares, |pq| - 1);
      FareUpToPrefix(q, init, fares, |q| - 1);
      assert pq[|pq| - 1] == q[|q| - 1] && pq[|pq| - 2] == q[|q| - 2];
      assert (p + init)[0] == p[0];
      assert init[0] == q[0];
    }
  }

  /** Leaving a system and coming back charges it again. */
  lemma Reboarding(a: Node, b: Node, c: Node, fares: map<string, nat>)
    requires a.system == c.system && a.system != b.system
    ensures TripFare([a, b, c], fares) == 2 * FareOf(fares, a.system) + FareOf(fares, b.system)
  {
    var path := [a, b, c];
    assert Boards(path, 0) && Boards(path, 1) && Boards(path, 2);
    assert FareUpTo(path, fares, 1) == FareOf(fares, a.system);
    assert FareUpTo(path, fares, 2) == FareOf(fares, a.system) + FareOf(fares, b.system);
  }

  /** Metro, then Metrobús, then Metro again costs 5 + 6 + 5 pesos. */
  lemma MetroMetrobusMetro(a: Node, b: Node, c: Node)
    requires a.system == "METRO" && b.system == "METROBUS" && c.system == "METRO"
    ensures TripFare([a, b, c], Fares) == 16
  {
    Reboarding(a, b, c, Fares);
  }

  /** A run of stations ridden on one line of one system. */
  datatype Segment = Segment(system: string, line: string, stations: seq<string>)

  /** The nodes a segment stands for. */
  function SegmentNodes(x: Segment): seq<Node> {
    seq(|x.stations|, k requires 0 <= k < |x.stations| => Node(x.stations[k], x.system, x.line))
  }

  /** The path the segments stand for, in order. */
  function Flatten(segs: seq<Segment>): seq<Node> {
    if segs == [] then [] else Flatten(segs[..|segs| - 1]) + SegmentNodes(segs[|segs| - 1])
  }

  /** Two nodes on the same line of the same system. */
  predicate SameRun(m: Node, n: Node) {
    m.system == n.system && m.line == n.line
  }

  /**
   * `segs` groups `path`: filled, separated, and together they spell the path.
   */
  predicate Groups(segs: seq<Segment>, path: seq<Node>) {
    Filled(segs) && Separated(segs) && Flatten(segs) == path
  }

  /** Every segment has stations. */
  predicate Filled(segs: seq<Segment>) {
    forall k :: 0 <= k < |segs| ==> segs[k].stations != []
  }

  /** Neighbouring segments differ in system or line. */
  predicate Separated(segs: seq<Segment>) {
    forall k :: 0 <= k < |segs| - 1 ==> !(segs[k].system == segs[k + 1].system && segs[k].line == segs[k + 1].line)
  }

  lemma FlattenSnoc(segs: seq<Segment>, x: Segment)
    ensures Flatten(segs + [x]) == Flatten(segs) + SegmentNodes(x)
  {
    assert (segs + [x])[..|segs|] == segs;
  }

  lemma SegmentNodesSnoc(sys: string, line: string, stations: seq<string>, name: string)
    ensures SegmentNodes(Segment(sys, line, stations + [name])) == SegmentNodes(Segment(sys, line, stations)) + [Node(name, sys, line)]
  {
  }

  /** The first node of a path opens the first segment. */
  lemma GroupsFirst(path: seq<Node>)
    requires |path| > 0
    ensures Groups([Segment(path[0].system, path[0].line, [path[0].name])], path[..1])
  {
    var x := Segment(path[0].system, path[0].line, [path[0].name]);
    FlattenSnoc([], x);
    assert [] + [x] == [x];
    assert SegmentNodes(x) == path[..1];
  }

  /** A node on the open segment's line extends that segment. */
  lemma GroupsExtend(segs: seq<Segment>, x: Segment, path: seq<Node>, i: nat)
    requires i < |path| && Groups(segs + [x], path[..i])
    requires path[i].system == x.system && path[i].line == x.line
    ensures Groups(segs + [Segment(x.system, x.line, x.stations + [path[i].name])], path[..i + 1])
  {
    var y := Segment(x.system, x.line, x.stations + [path[i].name]);
    assert path[..i + 1] == path[..i] + [path[i]];
    FlattenSnoc(segs, x);
    FlattenSnoc(segs, y);
    SegmentNodesSnoc(x.system, x.line, x.stations, path[i].name);
    assert forall k :: 0 <= k < |segs| ==> (segs + [y])[k] == (segs + [x])[k];
  }

  /** A node off the open segment's line opens a new segment. */
  lemma GroupsOpen(segs: seq<Segment>, x: Segment, path: seq<Node>, i: nat)
    requires i < |path| && Groups(segs + [x], path[..i])
    requires !(path[i].system == x.system && path[i].line == x.line)
    ensures Groups(segs + [x] + [Segment(path[i].system, path[i].line, [path[i].name])], path[..i + 1])
  {
    var y := Segment(path[i].system, path[i].line, [path[i].name]);
    assert path[..i + 1] == path[..i] + [path[i]];
    FlattenSnoc(segs + [x], y);
    assert SegmentNodes(y) == [path[i]];
  }

  /** The grouping loop: extend the open segment while system and line stay the same. */
  method GroupSegments(path: seq<Node>) returns (segs: seq<Segment>)
    ensures Groups(segs, path)
  {
    segs := [];
    if |path| > 0 {
      var sys, line := path[0].system, path[0].line;
      var stations := [path[0].name];
      GroupsFirst(path);
      for i := 1 to |path|
        invariant Groups(segs + [Segment(sys, line, stations)], path[..i])
      {
        if path[i].system == sys && path[i].line == line {
          GroupsExtend(segs, Segment(sys, line, stations), path, i);
          stations := stations + [path[i].name];
        } else {
          GroupsOpen(segs, Segment(sys, line, stations), path, i);
          segs := segs + [Segment(sys, line, stations)];
          sys, line := path[i].system, path[i].line;
          stations := [path[i].name];
        }
      }
      segs := segs + [Segment(sys, line, stations)];
      assert path[..|path|] == path;
    }
  }

  /** How many nodes at the end of `path` share the last node's system and line. */
  function Run(path: seq<Node>): nat {
    if |path| <= 1 then |path|
    else if SameRun(path[|path| - 2], path[|path| - 1]) then Run(path[..|path| - 1]) + 1
    else 1
  }

  /** A final stretch on one run, after a node off it, is exactly the final run. */
  lemma {:induction false} RunOfStretch(q: seq<Node>, r: seq<Node>)
    requires r != [] && forall k :: 0 <= k < |r| ==> SameRun(r[k], r[0])
    requires q != [] ==> !SameRun(q[|q| - 1], r[0])
    ensures Run(q + r) == |r|
    decreases |r|
  {
    var qr := q + r;
    if |r| > 1 {
      var init := r[..|r| - 1];
      assert qr[..|qr| - 1] == q + init;
      RunOfStretch(q, init);
      assert qr[|qr| - 2] == r[|r| - 2] && qr[|qr| - 1] == r[|r| - 1];
    } else if q != [] {
      assert qr[|qr| - 2] == q[|q| - 1] && qr[|qr| - 1] == r[0];
    }
  }

  /** The last segment of a grouping is the path's final run. */
  lemma LastSegmentIsRun(segs: seq<Segment>, path: seq<Node>)
    requires Groups(segs, path) && segs != []
    ensures |segs[|segs| - 1].stations| == Run(path)
  {
    var init := segs[..|segs| - 1];
    var x := segs[|segs| - 1];
    var q := Flatten(init);
    var r := SegmentNodes(x);
    if init != [] {
      var y := init[|init| - 1];
      assert y == segs[|segs| - 2];
      assert Flatten(init) == Flatten(init[..|init| - 1]) + SegmentNodes(y);
      assert q[|q| - 1] == SegmentNodes(y)[|y.stations| - 1];
    }
    RunOfStretch(q, r);
  }

  /** Prefixes of a grouping group the corresponding prefix of the path. */
  lemma GroupsInit(segs: seq<Segment>, path: seq<Node>)
    requires Groups(segs, path) && segs != []
    ensures Groups(segs[..|segs| - 1], path[..|path| - |segs[|segs| - 1].stations|])
    ensures path[|path| - |segs[|segs| - 1].stations|..] == SegmentNodes(segs[|segs| - 1])
  {
    var init := segs[..|segs| - 1];
    assert path == Flatten(init) + SegmentNodes(segs[|segs| - 1]);
    assert path[..|Flatten(init)|] == Flatten(init);
  }

  /** A segment with stations is determined by the nodes it stands for. */
  lemma SegmentNodesInjective(x: Segment, y: Segment)
    requires x.stations != [] && SegmentNodes(x) == SegmentNodes(y)
    ensures x == y
  {
    assert x.system == SegmentNodes(x)[0].system && y.system == SegmentNodes(y)[0].system;
    assert x.line == SegmentNodes(x)[0].line && y.line == SegmentNodes(y)[0].line;
    assert forall j :: 0 <= j < |x.stations| ==> x.stations[j] == SegmentNodes(x)[j].name && y.stations[j] == SegmentNodes(y)[j].name;
  }

  /** Two groupings of one path end in the same segment. */
  lemma LastSegmentsAgree(a: seq<Segment>, b: seq<Segment>, path: seq<Node>)
    requires Groups(a, path) && Groups(b, path) && a != [] && b != []
    ensures a[|a| - 1] == b[|b| - 1]
    ensures Groups(a[..|a| - 1], path[..|path| - |a[|a| - 1].stations|])
    ensures Groups(b[..|b| - 1], path[..|path| - |a[|a| - 1].stations|])
  {
    LastSegmentIsRun(a, path);
    LastSegmentIsRun(b, path);
    GroupsInit(a, path);
    GroupsInit(b, path);
    SegmentNodesInjective(a[|a| - 1], b[|b| - 1]);
  }

  /** A path has exactly one grouping. */
  lemma {:induction false} GroupingUnique(a: seq<Segment>, b: seq<Segment>, path: seq<Node>)
    requires Groups(a, path) && Groups(b, path)
    ensures a == b
    decreases |path|
  {
    if a != [] && b != [] {
      LastSegmentsAgree(a, b, path);
      var k := |path| - |a[|a| - 1].stations|;
      GroupingUnique(a[..|a| - 1], b[..|b| - 1], path[..k]);
      assert a == a[..|a| - 1] + [a[|a| - 1]];
      assert b == b[..|b| - 1] + [b[|b| - 1]];
    } else if a != [] {
      GroupsInit(a, path);
    } else if b != [] {
      GroupsInit(b, path);
    }
  }
}
