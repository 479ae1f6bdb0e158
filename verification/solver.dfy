/**
 * The search of `encontrar_ruta_mas_rapida`: Dijkstra's algorithm over
 * states (node, last system ridden), started from every origin node at
 * time 0 and stopped at the first destination node taken from the queue.
 *
 * The queue is a set of (time, state) entries (an entry is pushed only
 * with a strictly better time, so no entry is ever queued twice); an entry whose time
 * exceeds the state's best known time is stale and skipped.  The ghost
 * bookkeeping (the settled states, the order they were settled in, and the
 * arc each best time came through) exists only for the proofs.
 */
module Solver {
  import opened Wrappers
  import opened Graphs

  /** A search state `(nodo, last_system)`. */
  datatype State = State(node: Node, last: string)

  /** A queue entry `(tiempo, estado)`. */
  datatype Entry = Entry(time: nat, state: State)

  /** The state of a trip that starts, or has just arrived, at `n`. */
  function At(n: Node): State {
    State(n, n.system)
  }

  /** The state reached over `e`: a transfer takes the system of its target, a ride its label. */
  function Next(e: Arc): State {
    State(e.to, if e.mode.Transfer? then e.to.system else e.mode.system)
  }

  lemma NextIsAt(g: Graph, e: Arc)
    requires WellFormed(g) && e in g.arcs
    ensures Next(e) == At(e.to)
  {
  }

  /** Every node the search can ever reach: the origins and the targets of arcs. */
  function Stops(g: Graph, origins: set<Node>): set<Node> {
    origins + set e | e in g.arcs :: e.to
  }

  /** Every state the search can ever reach. */
  ghost function Universe(g: Graph, origins: set<Node>): set<State> {
    set n | n in Stops(g, origins) :: At(n)
  }

  /** The queue holds a minimum. */
  lemma {:induction false} HeapHasMin(h: set<Entry>) returns (m: Entry)
    requires h != {}
    ensures m in h && forall y :: y in h ==> m.time <= y.time
    decreases |h|
  {
    var z :| z in h;
    var rest := h - {z};
    assert forall y :: y in h ==> y == z || y in rest;
    if rest == {} {
      m := z;
    } else {
      var r := HeapHasMin(rest);
      m := if z.time < r.time then z else r;
    }
  }

  /**
   * State `s` was reached from settled state `p` over `via[s]`, and was
   * settled after `p` if it is settled at all.
   */
  ghost predicate Link(g: Graph, dist: map<State, nat>, settled: set<State>, rank: map<State, nat>,
                       via: map<State, Arc>, s: State, p: State)
  {
    && s in dist && p in dist && p in settled && p in rank && s in via && via[s] in g.arcs
    && via[s].from == p.node && via[s].to == s.node
    && dist[s] == dist[p] + via[s].time
    && (s in settled ==> s in rank && rank[p] < rank[s])
  }

  /**
   * The best-time and predecessor maps describe a tree of arcs rooted at
   * the origins: a state without a predecessor is an origin at time 0, and
   * every other state is linked to its predecessor.
   */
  ghost predicate Linked(g: Graph, origins: set<Node>, dist: map<State, nat>, prev: map<State, Option<State>>,
                         settled: set<State>, rank: map<State, nat>, via: map<State, Arc>)
  {
    && prev.Keys == dist.Keys && settled <= dist.Keys && rank.Keys == settled
    && (forall s {:trigger prev[s]} :: s in prev && prev[s].None? ==> s.node in origins && s in dist && dist[s] == 0)
    && (forall s {:trigger prev[s]} :: s in prev && prev[s].Some? ==> Link(g, dist, settled, rank, via, s, prev[s].value))
  }

  /**
   * The queue against the best times: every entry belongs to a known state
   * and is no better than its best time, every unsettled known state is
   * queued at its best time, and no settled one is.
   */
  ghost predicate Queued(heap: set<Entry>, dist: map<State, nat>, settled: set<State>) {
    && (forall x :: x in heap ==> x.state in dist && dist[x.state] <= x.time)
    && (forall s :: s in dist && s !in settled ==> Entry(dist[s], s) in heap)
    && (forall s :: s in settled && s in dist ==> Entry(dist[s], s) !in heap)
  }

  /** Every arc out of a settled state, except those `pending`, has been relaxed. */
  ghost predicate Relaxed(g: Graph, dist: map<State, nat>, settled: set<State>, pending: set<Arc>) {
    forall s, e :: s in settled && s in dist && e in g.arcs && e.from == s.node && e !in pending ==>
      Next(e) in dist && dist[Next(e)] <= dist[s] + e.time
  }

  /** Every known state is the state of its node, and the origins are known at time 0. */
  ghost predicate Known(g: Graph, origins: set<Node>, dist: map<State, nat>) {
    && (forall s :: s in dist ==> s.last == s.node.system && s.node in Stops(g, origins))
    && (forall o :: o in origins ==> At(o) in dist && dist[At(o)] == 0)
  }

  /** Every known state is one of the universe's. */
  lemma KnownInUniverse(g: Graph, origins: set<Node>, dist: map<State, nat>, s: State)
    requires Known(g, origins, dist) && s in dist
    ensures s in Universe(g, origins)
  {
    assert s == At(s.node);
  }

  /**
   * Any walk from an origin either ends at a settled state no later than
   * the walk arrives, or is still ahead of some queued entry.
   */
  lemma {:induction false} FrontierBound(g: Graph, origins: set<Node>, heap: set<Entry>, dist: map<State, nat>,
                                         settled: set<State>, o: Node, w: seq<Arc>)
    requires WellFormed(g) && Known(g, origins, dist) && settled <= dist.Keys
    requires Queued(heap, dist, settled) && Relaxed(g, dist, settled, {})
    requires o in origins && IsWalk(g, o, w)
    ensures || (At(End(o, w)) in settled && dist[At(End(o, w))] <= Cost(w))
            || (exists x :: x in heap && x.time <= Cost(w))
    decreases |w|
  {
    if w == [] {
      if At(o) !in settled {
        assert Entry(dist[At(o)], At(o)) in heap;
      }
    } else {
      var v := w[..|w| - 1];
      var e := w[|w| - 1];
      PrefixWalk(g, o, w, |w| - 1);
      FrontierBound(g, origins, heap, dist, settled, o, v);
      assert Cost(w) == Cost(v) + e.time;
      var s := At(End(o, v));
      if s in settled && dist[s] <= Cost(v) {
        assert e in g.arcs && e.from == s.node;
        NextIsAt(g, e);
        var n := At(e.to);
        assert End(o, w) == e.to;
        if n !in settled {
          assert Entry(dist[n], n) in heap;
        }
      }
    }
  }

  /** The search's run-time state: the queue, the best times and the predecessors. */
  datatype Frontier = Frontier(heap: set<Entry>, dist: map<State, nat>, prev: map<State, Option<State>>)

  /** Proof bookkeeping: settled states, their settling order, and the arc behind each best time. */
  datatype Ledger = Ledger(settled: set<State>, rank: map<State, nat>, via: map<State, Arc>, counter: nat)

  /** The queue, times and predecessors before the first pop: every origin at time 0. */
  function Initial(origins: set<Node>): Frontier {
    Frontier(set o | o in origins :: Entry(0, At(o)),
             map o | o in origins :: At(o) := 0,
             map o | o in origins :: At(o) := None)
  }

  /** Whether going from a state popped at time `t` over `e` beats the best time known. */
  predicate Improves(f: Frontier, t: nat, e: Arc) {
    Next(e) !in f.dist || t + e.time < f.dist[Next(e)]
  }

  /** One step of the neighbour loop: relax arc `e` out of `u`, popped at time `t`. */
  function Relax(f: Frontier, u: State, t: nat, e: Arc): Frontier {
    if Improves(f, t, e) then
      Frontier(f.heap + {Entry(t + e.time, Next(e))},
               f.dist[Next(e) := t + e.time],
               f.prev[Next(e) := Some(u)])
    else f
  }

  /**
   * Relaxing never loses a queue entry or a recorded state and never raises a
   * recorded time; afterwards the arc's end is recorded within `t` plus the
   * arc's time.
   */
  lemma RelaxMonotone(f: Frontier, u: State, t: nat, e: Arc)
    ensures f.heap <= Relax(f, u, t, e).heap
    ensures forall s :: s in f.dist ==> s in Relax(f, u, t, e).dist && Relax(f, u, t, e).dist[s] <= f.dist[s]
    ensures Next(e) in Relax(f, u, t, e).dist && Relax(f, u, t, e).dist[Next(e)] <= t + e.time
  {
  }

  ghost function RelaxVia(f: Frontier, l: Ledger, t: nat, e: Arc): Ledger {
    if Improves(f, t, e) then l.(via := l.via[Next(e) := e]) else l
  }

  ghost function Settle(l: Ledger, u: State): Ledger {
    l.(settled := l.settled + {u}, rank := l.rank[u := l.counter], counter := l.counter + 1)
  }

  /** The invariants kept both between pops and inside the neighbour loop. */
  ghost predicate Core(g: Graph, origins: set<Node>, f: Frontier, l: Ledger) {
    && WellFormed(g) && Known(g, origins, f.dist)
    && Linked(g, origins, f.dist, f.prev, l.settled, l.rank, l.via)
    && (forall s :: s in l.rank ==> l.rank[s] < l.counter)
    && Queued(f.heap, f.dist, l.settled)
  }

  /** Every walk from an origin to a destination takes at least `t`. */
  ghost predicate Optimal(g: Graph, origins: set<Node>, dests: set<Node>, t: nat) {
    forall o, w :: o in origins && IsWalk(g, o, w) && End(o, w) in dests ==> t <= Cost(w)
  }

  /** The invariant of the main loop. */
  ghost predicate Outer(g: Graph, origins: set<Node>, dests: set<Node>, f: Frontier, l: Ledger, found: Option<State>) {
    && Core(g, origins, f, l)
    && (forall s, y :: s in l.settled && s in f.dist && y in f.heap ==> f.dist[s] <= y.time)
    && (found.None? ==> Relaxed(g, f.dist, l.settled, {}))
    && (found.None? ==> forall s :: s in l.settled ==> s.node !in dests)
    && (found.Some? ==> found.value in l.settled && found.value in f.dist && found.value.node in dests)
    && (found.Some? ==> Optimal(g, origins, dests, f.dist[found.value]))
    && (found.None? && origins <= dests ==> l.settled == {})
    && (found.Some? && origins <= dests ==> found.value in f.prev && f.prev[found.value].None?)
  }

  /** The invariant of the neighbour loop of `u`, popped at time `t`. */
  ghost predicate Inner(g: Graph, origins: set<Node>, dests: set<Node>, f: Frontier, l: Ledger,
                        u: State, t: nat, pending: set<Arc>) {
    && Core(g, origins, f, l)
    && pending <= Out(g, u.node)
    && u in l.settled && u in f.dist && f.dist[u] == t
    && (forall s :: s in l.settled && s in f.dist ==> f.dist[s] <= t)
    && (forall y :: y in f.heap ==> t <= y.time)
    && Relaxed(g, f.dist, l.settled, pending)
    && (forall s :: s in l.settled ==> s.node !in dests)
    && !(origins <= dests)
  }

  lemma InitialOuter(g: Graph, origins: set<Node>, dests: set<Node>)
    requires WellFormed(g)
    ensures Outer(g, origins, dests, Initial(origins), Ledger({}, map[], map[], 0), None)
  {
    var f := Initial(origins);
    var entries := set o | o in origins :: Entry(0, At(o));
    forall s | s in f.dist
      ensures Entry(f.dist[s], s) in f.heap
    {
      var o :| o in origins && s == At(o);
      assert Entry(0, At(o)) in entries;
    }
    forall x | x in f.heap
      ensures x.state in f.dist && f.dist[x.state] <= x.time
    {
      assert x in entries;
    }
  }

  /** Removing an entry that is not some state's best-time entry keeps the queue invariant. */
  lemma DropStaleQueued(heap: set<Entry>, dist: map<State, nat>, settled: set<State>, x: Entry)
    requires Queued(heap, dist, settled) && x in heap && x.time != dist[x.state]
    ensures Queued(heap - {x}, dist, settled)
  {
  }

  /** Removing the best-time entry of a state settles that state. */
  lemma PopQueued(heap: set<Entry>, dist: map<State, nat>, settled: set<State>, x: Entry)
    requires Queued(heap, dist, settled) && x in heap && x.time == dist[x.state]
    ensures x.state !in settled
    ensures Queued(heap - {x}, dist, settled + {x.state})
  {
  }

  /** Settling an unsettled state gives it the next rank, later than every other. */
  lemma SettleLinked(g: Graph, origins: set<Node>, dist: map<State, nat>, prev: map<State, Option<State>>, l: Ledger, u: State)
    requires Linked(g, origins, dist, prev, l.settled, l.rank, l.via)
    requires forall s :: s in l.rank ==> l.rank[s] < l.counter
    requires u in dist && u !in l.settled
    ensures var l' := Settle(l, u);
      && Linked(g, origins, dist, prev, l'.settled, l'.rank, l'.via)
      && (forall s :: s in l'.rank ==> l'.rank[s] < l'.counter)
  {
  }

  /** Dropping a stale entry keeps the invariant. */
  lemma DropStale(g: Graph, origins: set<Node>, dests: set<Node>, f: Frontier, l: Ledger, x: Entry)
    requires Outer(g, origins, dests, f, l, None) && x in f.heap && x.time != f.dist[x.state]
    ensures Outer(g, origins, dests, f.(heap := f.heap - {x}), l, None)
  {
    DropStaleQueued(f.heap, f.dist, l.settled, x);
  }

  /** Before anything is settled, every known state is an origin without predecessor. */
  lemma NothingSettled(g: Graph, origins: set<Node>, f: Frontier, l: Ledger, u: State)
    requires Linked(g, origins, f.dist, f.prev, l.settled, l.rank, l.via) && l.settled == {} && u in f.dist
    ensures u in f.prev && f.prev[u].None? && u.node in origins
  {
  }

  /** Popping the best entry `x` of an unsettled state settles it. */
  lemma PopFresh(g: Graph, origins: set<Node>, dests: set<Node>, f: Frontier, l: Ledger, x: Entry)
    requires Outer(g, origins, dests, f, l, None) && x in f.heap && x.time == f.dist[x.state]
    requires forall y :: y in f.heap ==> x.time <= y.time
    ensures x.state !in l.settled
    ensures x.state.node !in dests ==> !(origins <= dests)
    ensures var f' := f.(heap := f.heap - {x});
      var l' := Settle(l, x.state);
      && Core(g, origins, f', l')
      && (forall s :: s in l'.settled && s in f'.dist ==> f'.dist[s] <= x.time)
      && (forall y :: y in f'.heap ==> x.time <= y.time)
      && Relaxed(g, f'.dist, l'.settled, Out(g, x.state.node))
  {
    var u := x.state;
    var l' := Settle(l, u);
    if origins <= dests {
      NothingSettled(g, origins, f, l, u);
    }
    PopQueued(f.heap, f.dist, l.settled, x);
    SettleLinked(g, origins, f.dist, f.prev, l, u);
    forall s, e | s in l'.settled && s in f.dist && e in g.arcs && e.from == s.node && e !in Out(g, u.node)
      ensures Next(e) in f.dist && f.dist[Next(e)] <= f.dist[s] + e.time
    {
    }
  }

  /** Popping the best entry of an unsettled destination state ends the search optimally. */
  lemma PopFound(g: Graph, origins: set<Node>, dests: set<Node>, f: Frontier, l: Ledger, x: Entry)
    requires Outer(g, origins, dests, f, l, None) && x in f.heap && x.time == f.dist[x.state]
    requires forall y :: y in f.heap ==> x.time <= y.time
    requires x.state.node in dests
    ensures x.state !in l.settled
    ensures Outer(g, origins, dests, f.(heap := f.heap - {x}), Settle(l, x.state), Some(x.state))
  {
    PopFresh(g, origins, dests, f, l, x);
    if origins <= dests {
      NothingSettled(g, origins, f, l, x.state);
    }
    forall o, w | o in origins && IsWalk(g, o, w) && End(o, w) in dests
      ensures x.time <= Cost(w)
    {
      FrontierBound(g, origins, f.heap, f.dist, l.settled, o, w);
    }
  }

  /** An improving relaxation queues the target at its new best time. */
  lemma RelaxQueued(f: Frontier, settled: set<State>, u: State, t: nat, e: Arc)
    requires Queued(f.heap, f.dist, settled) && Next(e) !in settled && Improves(f, t, e)
    ensures Queued(Relax(f, u, t, e).heap, Relax(f, u, t, e).dist, settled)
  {
  }

  /** An improving relaxation from settled `u` over `e` keeps the tree of predecessors. */
  lemma RelaxLinked(g: Graph, origins: set<Node>, f: Frontier, l: Ledger, u: State, t: nat, e: Arc)
    requires Linked(g, origins, f.dist, f.prev, l.settled, l.rank, l.via) && Improves(f, t, e)
    requires u in l.settled && u in f.dist && f.dist[u] == t && e in g.arcs && e.from == u.node && Next(e) !in l.settled
    ensures var f' := Relax(f, u, t, e);
      Linked(g, origins, f'.dist, f'.prev, l.settled, l.rank, RelaxVia(f, l, t, e).via)
  {
  }

  /** Relaxing `e` out of `u`, popped at its best time `t`, marks `e` relaxed. */
  lemma RelaxRelaxed(g: Graph, f: Frontier, settled: set<State>, pending: set<Arc>, u: State, t: nat, e: Arc)
    requires Relaxed(g, f.dist, settled, pending) && e in pending && settled <= f.dist.Keys
    requires u in settled && u in f.dist && f.dist[u] == t
    requires forall s :: s in settled && s in f.dist ==> f.dist[s] <= t
    requires e.from == u.node && Improves(f, t, e)
    requires forall s :: s in settled && s in f.dist && s.node == u.node ==> s == u
    ensures Next(e) !in settled
    ensures Relaxed(g, Relax(f, u, t, e).dist, settled, pending - {e})
  {
    var dist := f.dist;
    var nt := t + e.time;
    var d := dist[Next(e) := nt];
    assert Relax(f, u, t, e).dist == d;
    forall s, a | s in settled && s in d && a in g.arcs && a.from == s.node && a !in pending - {e}
      ensures Next(a) in d && d[Next(a)] <= d[s] + a.time
    {
      assert d[s] == dist[s];
      if a != e {
        assert Next(a) in dist && dist[Next(a)] <= dist[s] + a.time;
      } else {
        assert s == u;
      }
    }
  }

  /** Relaxing `e` without improvement marks `e` relaxed. */
  lemma SkipRelaxed(g: Graph, dist: map<State, nat>, settled: set<State>, pending: set<Arc>,
                    u: State, t: nat, e: Arc)
    requires Relaxed(g, dist, settled, pending) && e in pending
    requires u in settled && u in dist && dist[u] == t
    requires e.from == u.node && Next(e) in dist && dist[Next(e)] <= t + e.time
    requires forall s :: s in settled && s in dist && s.node == u.node ==> s == u
    ensures Relaxed(g, dist, settled, pending - {e})
  {
  }

  /** Relaxing an arc of the graph keeps every known state reachable and at its node. */
  lemma RelaxKnown(g: Graph, origins: set<Node>, f: Frontier, u: State, t: nat, e: Arc)
    requires WellFormed(g) && Known(g, origins, f.dist) && e in g.arcs && Improves(f, t, e)
    ensures Known(g, origins, Relax(f, u, t, e).dist)
  {
    NextIsAt(g, e);
    assert e.to in Stops(g, origins);
  }

  /** An improving relaxation keeps `u` at `t` and pushes nothing earlier than `t`. */
  lemma RelaxBounds(f: Frontier, settled: set<State>, u: State, t: nat, e: Arc)
    requires u in settled && u in f.dist && f.dist[u] == t && Next(e) !in settled && Improves(f, t, e)
    requires forall s :: s in settled && s in f.dist ==> f.dist[s] <= t
    requires forall y :: y in f.heap ==> t <= y.time
    ensures var f' := Relax(f, u, t, e);
      && u in f'.dist && f'.dist[u] == t
      && (forall s :: s in settled && s in f'.dist ==> f'.dist[s] <= t)
      && (forall y :: y in f'.heap ==> t <= y.time)
  {
  }

  /** An improving relaxation keeps the neighbour loop's invariant. */
  lemma RelaxImproving(g: Graph, origins: set<Node>, dests: set<Node>, f: Frontier, l: Ledger,
                       u: State, t: nat, pending: set<Arc>, e: Arc)
    requires Inner(g, origins, dests, f, l, u, t, pending) && e in pending && Improves(f, t, e)
    ensures Inner(g, origins, dests, Relax(f, u, t, e), RelaxVia(f, l, t, e), u, t, pending - {e})
  {
    RelaxRelaxed(g, f, l.settled, pending, u, t, e);
    RelaxQueued(f, l.settled, u, t, e);
    RelaxLinked(g, origins, f, l, u, t, e);
    RelaxKnown(g, origins, f, u, t, e);
    RelaxBounds(f, l.settled, u, t, e);
  }

  /** A relaxation that improves nothing keeps the neighbour loop's invariant. */
  lemma RelaxKeeps(g: Graph, origins: set<Node>, dests: set<Node>, f: Frontier, l: Ledger,
                   u: State, t: nat, pending: set<Arc>, e: Arc)
    requires Inner(g, origins, dests, f, l, u, t, pending) && e in pending
    ensures Inner(g, origins, dests, Relax(f, u, t, e), RelaxVia(f, l, t, e), u, t, pending - {e})
  {
    if Improves(f, t, e) {
      RelaxImproving(g, origins, dests, f, l, u, t, pending, e);
    } else {
      SkipRelaxed(g, f.dist, l.settled, pending, u, t, e);
    }
  }

  /** A finished neighbour loop leaves the main loop's invariant. */
  lemma InnerDone(g: Graph, origins: set<Node>, dests: set<Node>, f: Frontier, l: Ledger, u: State, t: nat)
    requires Inner(g, origins, dests, f, l, u, t, {})
    ensures Outer(g, origins, dests, f, l, None)
  {
  }

  /**
   * The neighbour loop: relax every arc out of `u`, just settled at time
   * `t`.  Arcs form a set, so they are taken in no particular order.
   */
  method Expand(g: Graph, ghost origins: set<Node>, ghost dests: set<Node>, f: Frontier, ghost l: Ledger, u: State, t: nat)
      returns (f': Frontier, ghost l': Ledger)
    requires Inner(g, origins, dests, f, l, u, t, Out(g, u.node))
    ensures Outer(g, origins, dests, f', l', None) && l'.settled == l.settled
  {
    f', l' := f, l;
    var pending := Out(g, u.node);
    while pending != {}
      invariant Inner(g, origins, dests, f', l', u, t, pending) && l'.settled == l.settled
      decreases |pending|
    {
      var e :| e in pending;
      RelaxKeeps(g, origins, dests, f', l', u, t, pending, e);
      f', l' := Relax(f', u, t, e), RelaxVia(f', l', t, e);
      pending := pending - {e};
    }
    InnerDone(g, origins, dests, f', l', u, t);
  }

  /**
   * One turn of the main loop: pop an entry of least time; skip it if
   * stale, stop if it reaches a destination, otherwise settle and expand it.
   */
  method Step(g: Graph, ghost origins: set<Node>, dests: set<Node>, f: Frontier, ghost l: Ledger)
      returns (f': Frontier, ghost l': Ledger, found: Option<State>)
    requires Outer(g, origins, dests, f, l, None) && f.heap != {}
    ensures Outer(g, origins, dests, f', l', found)
    ensures || (l'.settled == l.settled && |f'.heap| < |f.heap|)
            || (l.settled < l'.settled && l'.settled - l.settled <= Universe(g, origins))
  {
    var x := PopMin(f.heap);
    var u := x.state;
    var t := x.time;
    if t != f.dist[u] {
      DropStale(g, origins, dests, f, l, x);
      f', l', found := f.(heap := f.heap - {x}), l, None;
    } else if u.node in dests {
      PopFound(g, origins, dests, f, l, x);
      KnownInUniverse(g, origins, f.dist, u);
      f', l', found := f.(heap := f.heap - {x}), Settle(l, u), Some(u);
    } else {
      PopFresh(g, origins, dests, f, l, x);
      KnownInUniverse(g, origins, f.dist, u);
      f', l' := Expand(g, origins, dests, f.(heap := f.heap - {x}), Settle(l, u), u, t);
      found := None;
    }
  }

  lemma {:induction false} SubsetSize<T>(a: set<T>, b: set<T>)
    requires a <= b
    ensures |a| <= |b|
    decreases |b|
  {
    if a != {} {
      var x :| x in a;
      SubsetSize(a - {x}, b - {x});
    }
  }

  /** A step that settles a state of the universe brings the search closer to its end. */
  lemma Progress(universe: set<State>, before: set<State>, after: set<State>)
    requires before < after && after - before <= universe
    ensures |universe - after| < |universe - before|
  {
    assert after - before != {} by {
      var v :| v in after && v !in before;
      assert v in after - before;
    }
    var u :| u in after - before;
    var rest := (universe - before) - {u};
    assert universe - after <= rest;
    assert u in universe - before;
    assert |rest| == |universe - before| - 1;
    SubsetSize(universe - after, rest);
  }

  /**
   * The search loop.  On `Some(u)`, `u` is a destination state reached
   * no later than any walk from an origin reaches any destination; on
   * `None` no walk from an origin reaches a destination.
   */
  method Search(g: Graph, origins: set<Node>, dests: set<Node>)
      returns (found: Option<State>, dist: map<State, nat>, prev: map<State, Option<State>>,
               ghost settled: set<State>, ghost rank: map<State, nat>, ghost via: map<State, Arc>)
    requires WellFormed(g)
    ensures Known(g, origins, dist) && Linked(g, origins, dist, prev, settled, rank, via)
    ensures found.None? ==> forall o, w :: o in origins && IsWalk(g, o, w) ==> End(o, w) !in dests
    ensures found.Some? ==> found.value in settled && found.value.node in dests
    ensures found.Some? ==> Optimal(g, origins, dests, dist[found.value])
    ensures found.Some? && origins <= dests ==> prev[found.value].None?
    ensures forall s :: s in dist ==> s.last == s.node.system
  {
    ghost var universe := Universe(g, origins);
    var f := Initial(origins);
    ghost var l := Ledger({}, map[], map[], 0);
    InitialOuter(g, origins, dests);
    found := None;
    while f.heap != {} && found.None?
      invariant Outer(g, origins, dests, f, l, found)
      decreases |universe - l.settled|, |f.heap|
    {
      ghost var before := l.settled;
      f, l, found := Step(g, origins, dests, f, l);
      if before != l.settled {
        Progress(universe, before, l.settled);
      }
    }
    if found.None? {
      forall o, w | o in origins && IsWalk(g, o, w)
        ensures End(o, w) !in dests
      {
        FrontierBound(g, origins, f.heap, f.dist, l.settled, o, w);
      }
    }
    dist, prev := f.dist, f.prev;
    settled, rank, via := l.settled, l.rank, l.via;
  }

  /**
   * Path reconstruction: follow the predecessors back from `u` to an origin.
   * The nodes come out in travel order, origin first.
   */
  method Reconstruct(ghost g: Graph, ghost origins: set<Node>, dist: map<State, nat>, prev: map<State, Option<State>>,
                     ghost settled: set<State>, ghost rank: map<State, nat>, ghost via: map<State, Arc>, u: State)
      returns (path: seq<Node>)
    requires Linked(g, origins, dist, prev, settled, rank, via) && u in settled
    ensures Realizes(g, path, dist[u])
    ensures path[0] in origins && path[|path| - 1] == u.node
    ensures prev[u].None? ==> path == [u.node]
  {
    path := [u.node];
    ghost var w: seq<Arc> := [];
    if prev[u].Some? {
      var c := u;
      while prev[c].Some?
        invariant c in settled && c in dist
        invariant IsWalk(g, c.node, w) && End(c.node, w) == u.node && path == Trace(c.node, w)
        invariant dist[c] + Cost(w) == dist[u]
        decreases rank[c]
      {
        var p := prev[c].value;
        var e := via[c];
        PrependWalk(g, e, w);
        w := [e] + w;
        path := [p.node] + path;
        c := p;
      }
    }
    assert IsWalk(g, path[0], w) && Trace(path[0], w) == path && Cost(w) == dist[u];
  }

  /** A fastest trip: its time and the nodes it visits. */
  datatype Trip = Trip(time: nat, path: seq<Node>)

  /**
   * Dijkstra's search and path reconstruction: a fastest walk from any
   * origin to any destination, or `None` when no destination is reachable.
   */
  method FastestTrip(g: Graph, origins: set<Node>, dests: set<Node>) returns (r: Option<Trip>)
    requires WellFormed(g)
    ensures r.None? ==> forall o, w :: o in origins && IsWalk(g, o, w) ==> End(o, w) !in dests
    ensures r.Some? ==> && Realizes(g, r.value.path, r.value.time)
                        && r.value.path[0] in origins && r.value.path[|r.value.path| - 1] in dests
                        && Optimal(g, origins, dests, r.value.time)
    ensures origins <= dests && origins != {} ==> r.Some? && r.value.time == 0 && |r.value.path| == 1
  {
    var found, dist, prev, settled, rank, via := Search(g, origins, dests);
    if found.None? {
      forall o | o in origins
        ensures o !in dests
      {
        assert IsWalk(g, o, []) && End(o, []) == o;
      }
      return None;
    }
    var u := found.value;
    var path := Reconstruct(g, origins, dist, prev, settled, rank, via, u);
    if origins <= dests && origins != {} {
      var o :| o in origins;
      assert IsWalk(g, o, []) && End(o, []) in dests && Cost([]) == 0;
    }
    return Some(Trip(dist[u], path));
  }

  /** `heapq.heappop`: an entry of least time. */
  method PopMin(heap: set<Entry>) returns (x: Entry)
    requires heap != {}
    ensures x in heap && forall y :: y in heap ==> x.time <= y.time
  {
    ghost var m := HeapHasMin(heap);
    x :| x in heap && forall y :: y in heap ==> x.time <= y.time;
  }
}
