# Fastest-route finder for the Mexico City transit network, in Dafny

This project models the route-finding core of `buscador_rutas.py`. That
program answers one question over the Metro, Metrobús and Trolebús
networks: which trip between two named stations is fastest? It honours
closed stations and closed segments, charges a fare per boarding and groups
the trip into runs on one line.

The model has nine modules:

- **Wrappers** (`wrappers.dfy`): the `Option` type, for values the program
  may leave as `None`.
- **Text** (`text.dfy`): the Python string primitives the program relies on —
  `strip()`, `split(sep)`, `lower()` and `upper()` — with Python's
  whitespace set.
- **Names** (`names.dfy`): `split()` on whitespace, and `normalizar`, the key
  that decides when two station names are the same station.
- **Closures** (`closures.dfy`): the three accepted shapes of a closed
  segment, and `parsear_tramos_cerrados`, which reads text such as
  `"A-B, C-D:METRO"`.
- **Graphs** (`graphs.dfy`): nodes `(station, system, line)`, labelled arcs,
  walks, their cost and the station sequence they trace.
- **Builder** (`builder.dfy`): `construir_grafo`. It builds ride arcs between
  neighbouring open stations of a line, transfer arcs between nodes that share
  a key, and the key-to-nodes index.
- **Solver** (`solver.dfy`): the Dijkstra search of `encontrar_ruta_mas_rapida`
  over `(node, last system)` states. It uses lazy deletion, stops early at the
  first destination popped, and reconstructs the path through `prev`.
- **Composer** (`composer.dfy`): the fare loop and the grouping of a path into
  segments.
- **Router** (`router.dfy`): the whole query. It looks both names up, reports
  the two "not found" errors, and composes the answer. It also composes a query
  with graph construction.

The network is a parameter: systems with their lines, hop times and the
transfer penalty. The shipped data enters only through the fare table
(Metro 5, Metrobús 6, Trolebús 4). Times are whole minutes (`nat`); every
weight the program ships is a whole number.

## Model

| member | source | states |
|---|---|---|
| Names.Normalize | buscador_rutas.py:30-43 | An absent name has the empty key. Every key is canonical: no leading or trailing space, no two spaces in a row, no upper-case letter, no whitespace other than a single inner space, and none of `( ) / - — –`. |
| Names.NormalizeIdempotent | buscador_rutas.py:37-43 | Normalising a key again gives the same key. |
| Names.Words | buscador_rutas.py:42 | `split()` yields non-empty words free of whitespace, made of the text's characters. |
| Names.KeyIsCollapsedFold | buscador_rutas.py:37-42 | The key is the whitespace-separated words of the lower-cased, separator-blanked name, joined by single spaces. |
| Names.KeyIgnoresCaseAndSeparators | buscador_rutas.py:37-40 | Two names that agree after lower-casing and blanking separators have the same key. |
| Names.KeyCollapsesSpaceRuns | buscador_rutas.py:39-42 | Any non-empty run of whitespace and separators inside a name counts as one space. |
| Names.KeyIgnoresTrailingSeparators | buscador_rutas.py:37-42 | Trailing whitespace and separators do not change the key. |
| Names.KeyOfSingleWord | buscador_rutas.py:37-42 | A name that folds to one word has that word as its key. |
| Names.HyphenIsSpace | buscador_rutas.py:39-42 | "UAM-Azcapotzalco" and "UAM Azcapotzalco" share a key, and so does every other such pair. |
| Names.SpacedSlashIsSlash | buscador_rutas.py:39-42 | "Garibaldi / Lagunilla" and "Garibaldi/Lagunilla" share a key, and so does every other such pair. |
| Names.SlashIsParenthesis | buscador_rutas.py:39-42 | "A/B" and "A (B)" share a key. |
| Names.AccentsAreKept | buscador_rutas.py:31-43 | "Ferrería" and "Ferreria" have different keys: accents are not removed. |
| Text.LowerIdempotent | buscador_rutas.py:37 | Lower-casing an already lower-cased name changes nothing. |
| Text.LowerKeepsSpaces | buscador_rutas.py:37 | `lower()` keeps every whitespace position, so the later `split()` sees the same word breaks, and leaves no ASCII capital. |
| Text.Upper | buscador_rutas.py:289 | `upper()` leaves no ASCII small letter, and keeps the length of a text without 'ß'. |
| Text.Strip | buscador_rutas.py:37 | `strip()` as a definition; its properties are in the Text.StripIsInfix and Text.StripIdempotent rows. |
| Text.SplitOn | buscador_rutas.py:282 | `split(sep)` gives at least one part and no part contains the separator; Text.SplitJoin pairs it with joining. |
| Text.StripIsInfix | buscador_rutas.py:37 | `strip()` is the infix left after removing whitespace at both ends, and it starts and ends with a non-space. |
| Text.StripIdempotent | buscador_rutas.py:283 | Stripping twice is stripping once. |
| Text.SplitJoin | buscador_rutas.py:282 | Splitting on a separator undoes joining parts that do not contain it. |
| Text.IndexOf | buscador_rutas.py:288 | The position found is the first occurrence of the character. |
| Closures.SplitTag | buscador_rutas.py:286-290 | The body never contains ':'. A part without ':' keeps its whole text as the body, with the tag "ANY". |
| Closures.SplitTagOf | buscador_rutas.py:287-290 | "X:Y" with no ':' in X splits at that first ':' into X stripped and Y stripped and upper-cased. |
| Closures.SplitStations | buscador_rutas.py:292-294 | A body yields a station pair exactly when it contains '-'. |
| Closures.SplitStationsOf | buscador_rutas.py:292-294 | "X-Y" with no '-' in X splits at that first '-' into X and Y, both stripped. |
| Closures.SplitStationsShape | buscador_rutas.py:292-294 | Both stations are stripped, the first has no '-', and each consists of characters of the body. |
| Closures.ParsePart | buscador_rutas.py:283-294 | A blank part and a part without '-' are dropped. A non-blank part is kept exactly when its body, the text before any ':', contains '-'. Without ':', the tag is "ANY". |
| Closures.Collect | buscador_rutas.py:282-295 | Parsing the parts keeps at most one closure per part; Closures.CollectCons and Closures.ParseFormat say which, and in what order. |
| Closures.CollectCons | buscador_rutas.py:282-295 | A part that parses puts its closure in front of the closures of the parts after it. |
| Closures.ParsePartShape | buscador_rutas.py:283-294 | A parsed closure has stripped stations, no '-' in the first station, and no ':' in either. |
| Closures.ParseClosures | buscador_rutas.py:279-295 | Empty input gives no closures. There are never more closures than comma-separated parts. |
| Closures.ParseRender | buscador_rutas.py:282-294 | Parsing the text "a-b:TAG" of a printable closure gives that closure back. |
| Closures.ParseFormat | buscador_rutas.py:279-295 | Parsing the comma-joined texts of printable closures gives back the same closures in order. |
| Builder.Build | buscador_rutas.py:48-130 | `construir_grafo` as a definition; its properties are in the Builder rows below. |
| Builder.BlankNamesIgnored | buscador_rutas.py:59 | Adding blank or empty closed-station names changes nothing. |
| Builder.NodesNotClosed | buscador_rutas.py:89-91 | No node carries the key of a closed station. |
| Builder.ClosuresKeepNodes | buscador_rutas.py:86-91 | Closed segments do not change the nodes or the index. |
| Builder.UntaggedIsWildcard | buscador_rutas.py:62-75 | A pair, and the text "A-B", close the segment exactly as the tag "ANY" does. |
| Builder.CutsOfSymmetric | buscador_rutas.py:62-75 | Every closure input is stored in both directions. |
| Builder.ClosedSegmentsSymmetric | buscador_rutas.py:62-75 | A→B is closed for a tag exactly when B→A is. |
| Builder.RideArcShape | buscador_rutas.py:94-107 | A ride arc joins two nodes of one line of one system and is labelled with that system. Neither end is closed, and the hop is closed neither for that system nor for "ANY". Its time is the hop time of a system with that name. |
| Builder.RideIsHop | buscador_rutas.py:94-107 | Every ride arc is an open hop between stops i and i+1 of a line, in one direction or the other. |
| Builder.OpenHopsRidden | buscador_rutas.py:94-107 | Every open hop between neighbouring stops is ridden in both directions. |
| Builder.HopEndsAreNodes | buscador_rutas.py:89-100 | Both ends of an open hop are nodes. |
| Builder.ArcsJoinNodes | buscador_rutas.py:86-127 | Every arc, ride or transfer, starts and ends at a node. So no arc touches a closed station. |
| Builder.TransferArcShape | buscador_rutas.py:117-127 | A transfer arc joins two distinct nodes with the same key, and it costs the transfer penalty. |
| Builder.TransfersComplete | buscador_rutas.py:117-127 | Every two distinct nodes that share a key are joined by a transfer arc. |
| Builder.ArcsSymmetric | buscador_rutas.py:104-127 | Every arc has a reverse arc with the same time and label. |
| Builder.BuildWellFormed | buscador_rutas.py:104-107 | A ride arc's label is the system of the node it enters. |
| Builder.IndexExact | buscador_rutas.py:117-119 | Each node is listed under its own key and only there, and no index entry is empty. |
| Builder.ClosedSegmentsAppend | buscador_rutas.py:62-75 | One more closure input adds exactly its own segments. |
| Builder.ForeignCutsKeepHops | buscador_rutas.py:99-102 | Closed segments that name a non-existent station leave the ride arcs unchanged. |
| Builder.UnknownClosureIgnored | buscador_rutas.py:62-102 | Adding such a closure leaves the graph and the index unchanged. |
| Graphs.TraceInNodes | buscador_rutas.py:86-127 | A walk from a node along arcs between nodes visits only nodes. |
| Graphs.PrependWalk | buscador_rutas.py:203-209 | Putting an arc in front of a walk gives a walk. The cost grows by that arc's time, and the traced stations gain its start. |
| Solver.NextIsAt | buscador_rutas.py:184-188 | After any arc, the new last system is the system of the node entered. |
| Solver.HeapHasMin | buscador_rutas.py:172 | A non-empty queue has an entry whose time is least. |
| Solver.PopMin | buscador_rutas.py:172 | The entry popped is in the queue and has the least time. |
| Solver.InitialOuter | buscador_rutas.py:160-165 | The initial state has each origin at time 0 with no predecessor, and it satisfies the loop invariant. |
| Solver.DropStale | buscador_rutas.py:174-175 | Discarding a stale queue entry keeps the loop invariant. |
| Solver.PopFound | buscador_rutas.py:177-181 | The first destination state popped with its current time is optimal over all walks to any destination. |
| Solver.FrontierBound | buscador_rutas.py:171-194 | For every walk from an origin, either its end is settled within the walk's cost, or some queue entry is no later than that cost. |
| Solver.Relax | buscador_rutas.py:190-194 | One relaxation as a definition; Solver.RelaxMonotone and Solver.RelaxImproving state its properties. |
| Solver.RelaxMonotone | buscador_rutas.py:190-194 | Relaxing never drops a queue entry or a recorded state and never raises a recorded time, and afterwards the arc's end is recorded within the current time plus the arc's. |
| Solver.RelaxImproving | buscador_rutas.py:190-194 | Recording a strictly better time and its predecessor, and pushing it, keeps the expansion invariant. |
| Solver.Expand | buscador_rutas.py:184-194 | Relaxing every arc out of a settled state restores the loop invariant: all its neighbours are now within its time plus the arc's. |
| Solver.Step | buscador_rutas.py:171-194 | One iteration keeps the invariant. It either shrinks the queue or settles a new state. |
| Solver.Progress | buscador_rutas.py:171 | Settling a new state within the finite state space brings the loop closer to its end. |
| Solver.Search | buscador_rutas.py:155-198 | If the search finds nothing, no walk from an origin reaches a destination. What it finds is a settled destination state at optimal time, reached through a chain of recorded predecessors. Every reached state's last system is its node's system. |
| Solver.Reconstruct | buscador_rutas.py:203-209 | Following `prev` back from a settled state yields a station sequence that a walk of exactly the recorded time traces. It starts at an origin and ends at that state's node. |
| Solver.FastestTrip | buscador_rutas.py:135-209 | The trip is absent exactly when no walk joins an origin to a destination. Otherwise it traces a walk from an origin to a destination whose cost is the reported time, and no such walk is cheaper. If every origin is a destination, the time is 0 and the path has one node. |
| Composer.ChargeFare | buscador_rutas.py:212-219 | The loop charges the fare of every boarding: the first node, and every node whose system differs from the previous node's. Unknown systems cost 0. |
| Composer.SingleSystemFare | buscador_rutas.py:216-219 | A path that never leaves one system costs exactly one fare. |
| Composer.FareOfJoin | buscador_rutas.py:216-219 | Joining two paths costs both fares, less one boarding when the second path continues the first one's system. |
| Composer.Reboarding | buscador_rutas.py:216-219 | Leaving a system and coming back charges that system again. |
| Composer.MetroMetrobusMetro | buscador_rutas.py:212-219 | Metro → Metrobús → Metro costs 5 + 6 + 5 = 16 pesos. |
| Composer.GroupSegments | buscador_rutas.py:221-236 | The segments are non-empty, neighbours differ in system or line, and together they spell the path's nodes in order. So the stations of a segment share its system and line, and the concatenated station lists are the path's names. |
| Composer.LastSegmentIsRun | buscador_rutas.py:225-236 | The last segment of any grouping is the path's maximal final run on one line. |
| Composer.GroupingUnique | buscador_rutas.py:221-236 | A path has exactly one grouping. So the segments are the maximal runs. |
| Router.FindFastestRoute | buscador_rutas.py:135-243 | The origin is reported missing exactly when its key has no nodes. The destination is reported missing exactly when the origin exists and its key has none. No route means no walk joins them. A route is a fastest walk, charged per boarding and grouped into maximal runs. When both names share a key, the route takes 0 minutes and has one node. |
| Router.LookupIsNamed | buscador_rutas.py:146-147 | On a built index, looking a name up finds exactly the open nodes that carry its key. |
| Router.PlanTrip | buscador_rutas.py:314-317 | On the graph built with the given closures, the same guarantees hold over the open nodes that carry each key. A closed origin is not found. A closed destination is not found unless the origin already was. No station of a route is closed. |
| Router.RouteIsOpen | buscador_rutas.py:86-91 | A walk of the built graph from one of its nodes passes only stations whose key is not closed. |

## Left out

- `imprimir_ruta` and `main` are console input and output. Only the call sequence at lines 314-317 is modelled, as `Router.PlanTrip`.
- `heapq` is modelled as a set of (time, state) entries with a least-time pop. Which of several equal-time entries pops first is not specified. The same holds for the order of adjacency lists and index entries. Both decide only between equally fast routes.
- A set of entries also stands in for the heap's list. The index lists come from the set of nodes, so no origin is listed twice, and every later push needs a strictly smaller time than the recorded one. No entry is therefore pushed twice, and the set is exact.
- Times are `nat` minutes, not floats. `round(t, 2)` is then the identity.
- `Text.Lower`, `Text.UpperChar`: case mapping covers ASCII and Latin-1 only, the range the station names use; the rest of Unicode is left out.
- The station tables, hop times and transfer penalty in `datos_red_transporte.py` are parameters (a `Builder.Network`). Only the fare table is a constant. On the shipped tables the fastest Pantitlán→Observatorio trip takes 22 minutes: eight Line 9 hops of 2 minutes to Tacubaya, one transfer of 4 and one Line 1 hop of 2. The tables are not instantiated, so this figure is not proved.
- The closure inputs' dynamic types are a three-variant datatype: tagged triple, pair, or "A-B" text. Inputs of any other shape are ignored by the program and cannot be built in the model.
- The docstring of `normalizar` says accents are removed, but the code keeps them; the model follows the code (`Names.AccentsAreKept`).
- Closures.ParseClosures: states the count bound and the round trip, not a per-part description of every input.
