# Ridership allocation onto the street network (Dafny model)

This project models the ridership-allocation engine of `ApplyRidersToGraph.py`.
The engine takes three inputs:

- the street segments of the network (TNET);
- each bus route's list of links (TLINK ids);
- boardings ("ons") and alightings ("offs") per stop.

It spreads a running bus load over the street edges between consecutive
stops. The result is a per-link ridership ledger. The model covers every
stage:

- **Graph construction** (`Graph`). A directed multigraph built from segment
  rows. Edges are stored in an arena in insertion order, and the graph is the
  class `MultiGraph`, which holds the edges and their `total` loads. The
  flow code decides whether a row yields one edge or two. The parallel key of
  an edge is its rank among the edges with the same `(from, to)`, so key 0
  (`FirstId`) is the first edge inserted on that pair.
- **Indexes** (`RouteIndex`, `Metrics`, `EdgeScan`):
  - route → links;
  - (direction, route) → stops keyed by sequence number, plus the running
    on/off totals;
  - link → node pair (`NodeLookup`). This index is a last-writer-wins fold
    over the graph's edge scan, and it rewrites every parallel key of each
    yielded edge's pair.
- **Subgraph** (`Subgraph`). Node induction over the endpoints of the route's
  links, then the pruning of off-route edges. In the source, `remove_edge(u, v)`
  takes no key, so it removes an unspecified parallel edge. The model keeps
  that freedom: the pruning result is any edge set that satisfies `Pruned`.
- **Reweighting** (`Adjust`). `AdjustRidership` scales the stop counts of the
  direction whose total is smaller.
- **Path to links** (`Links`). `GetTLINK` converts a node path to links. For
  each node pair it prefers the last parallel edge whose link is on the route,
  and otherwise takes the last cheapest edge (ties go to the later edge because
  the comparison is `<=`).
- **The stop-pair recurrence** (`Apportion`, `Ridership`):
  - Each stop pair is located in the route-local index and searched in the
    subgraph, falling back to the whole graph.
  - `tlinks` is normalised.
  - The running `total` is added to the key-0 edge of the source link's pair,
    then clamped or reduced by the alightings, then added to every later link.
  - The route, direction and stop loops are methods over the graph object.
    Each is proved equal to a specification function.
  - `main` builds its ledger (`Ridership.ApplyRiders`, `Ridership.Ledger`).

The path search (`nx.shortest_path`) is an oracle parameter `sp`. It can
return three outcomes:

- a node path;
- `NoPath` (`NetworkXNoPath`);
- `NodeMissing`. This is the `KeyError` that the search raises for a source
  node the graph does not have. The source catches it at line 344 and falls
  back to the whole graph.

`ValidOracle` states the search's contract. Only the lemma
`Apportion.ResolveNeverHalts` assumes it.

Fatal conditions of the source become `Fail(Abort)` results. These conditions
are an exception that reaches `except Exception` and `SystemExit`, a
`ZeroDivisionError`, and the `NameError` of a `tlinks` that was never bound.

Behaviours of the source that the model keeps as they are:

- Increments always go to key 0 of the pair, `G[u][v][0]`, not to the edge
  that carries the link.
- Path nodes always come from the whole-graph index.
- The rebinding `dictRouteNodes = dictAllNodes` persists for the rest of the
  route, across its later direction. A new route resets it.
- `tlinks` lives for the whole algorithm. A search with no path reuses the
  previous value, even one from another direction or route. The run aborts
  only when no path was ever found.
- A TLINK_ID may be null in every table: a link is `Option<int>`, with `None`
  for a null street or route link and for a ridership link that does not
  parse. A null link is an ordinary key: an edge with a null link indexes its
  node pair under `None`, and a stop whose link is `None` is located there.
- A missing key in a `defaultdict(tuple)` index is an `IndexError`. The model
  represents it as an absent map entry.
- In `GetTLINK`, `0` is the "no on-route link" sentinel (`Links.Unset`, the
  link `Some(0)`). A null on-route link is not the sentinel.

## Model

| member | source | states |
|---|---|---|
| `Graph.ReverseOnlyRow` | ApplyRidersToGraph.py:78-79 | flow code 2 with both endpoints yields exactly one edge, to → from, with the row's link and cost |
| `Graph.ForwardOnlyRow` | ApplyRidersToGraph.py:80-81 | flow code 1 yields exactly one edge, from → to |
| `Graph.BidirectionalRow` | ApplyRidersToGraph.py:82-84 | any other flow code yields two edges, from → to then to → from, with the same link and cost |
| `Graph.MissingEndpointRow` | ApplyRidersToGraph.py:74-87 | a row with a missing endpoint yields no edge |
| `Graph.BuildEdgesFromRows` | ApplyRidersToGraph.py:67-84 | an edge is in the graph exactly when some row yields it |
| `Graph.CreateDirectedMultiGraph` | ApplyRidersToGraph.py:54-89 | the new graph's edges are the rows' edges in row order, and every edge total is 0 |
| `Graph.ParallelIdsComplete` | ApplyRidersToGraph.py:258-260 | every u → v edge is one of the pair's parallel keys |
| `Graph.ParallelIdsSorted` | ApplyRidersToGraph.py:258-260 | the parallel keys of a pair are visited in strictly increasing insertion order |
| `Graph.FirstIdSpec` | ApplyRidersToGraph.py:385 | key 0 of a pair is its first-inserted edge; it is absent exactly when no u → v edge exists |
| `Graph.MultiGraph.AddEdge` | ApplyRidersToGraph.py:79 | one edge is appended with total 0 |
| `Graph.MultiGraph.Increment` | ApplyRidersToGraph.py:385 | exactly one edge total gains the amount; nothing else changes |
| `EdgeScan.WriteKeysLast` | ApplyRidersToGraph.py:177-178 | within one pair's keys, a selected link ends up holding the value of the last key carrying it, and other entries are untouched |
| `EdgeScan.ScanWriteLast` | ApplyRidersToGraph.py:175-178 | over the whole scan, a selected link holds the value of its last write (the last key in the last yielded block carrying it) |
| `EdgeScan.BlocksCarryLinks` | ApplyRidersToGraph.py:175-177 | under a full edge scan, some yielded pair carries a link exactly when some edge carries it |
| `EdgeScan.ScanInto` | ApplyRidersToGraph.py:175-178 | the nested overwrite loops compute the last-writer fold |
| `EdgeScan.NodeIndexKeys` | ApplyRidersToGraph.py:174-178 | the node index holds exactly the selected links that some edge carries |
| `EdgeScan.NullLinkIndexed` | ApplyRidersToGraph.py:173-178 | the whole-graph index has an entry for the null link whenever some edge carries one, as edges from street rows with a null TLINK_ID do |
| `EdgeScan.NodeIndexValue` | ApplyRidersToGraph.py:175-178 | an indexed link maps to the endpoints of the last yielded edge whose pair carries it, which are the endpoints of an edge carrying the link |
| `EdgeScan.NodeLookup` | ApplyRidersToGraph.py:166-180 | the whole-graph index is the unfiltered last-writer fold |
| `RouteIndex.RouteSegmentsExact` | ApplyRidersToGraph.py:109-113 | a route is a key exactly when some record names it, and its list is its records' links in record order |
| `RouteIndex.LinksOfMember` | ApplyRidersToGraph.py:111-113 | a link is in a route's list exactly when a record pairs them |
| `RouteIndex.SubgraphDataLookup` | ApplyRidersToGraph.py:98-114 | the append loop builds that index |
| `Metrics.Lower` | ApplyRidersToGraph.py:144 | the lower-cased direction spells the input in another case and has no upper-case letter left |
| `Metrics.LowerIdempotent` | ApplyRidersToGraph.py:144 | lower-casing is idempotent and leaves a string without upper-case letters unchanged |
| `Metrics.LowerMatches` | ApplyRidersToGraph.py:144 | a string lower-cases to a lower-case word exactly when it spells that word in any mix of cases |
| `Metrics.ParseDirSpec` | ApplyRidersToGraph.py:144-153 | a record's direction is inbound exactly when it spells "inbound" in any case, outbound likewise, and unknown (the `KeyError` on the metrics dictionary) otherwise |
| `Metrics.ParseDirMixedCase` | ApplyRidersToGraph.py:144-153 | "InBound" is read as the inbound direction |
| `Metrics.LoadFails` | ApplyRidersToGraph.py:142-155 | loading aborts exactly when some record's direction is neither inbound nor outbound |
| `Metrics.LoadFailsLater` | ApplyRidersToGraph.py:142-162 | after the first unknown direction, the later records change nothing |
| `Metrics.LoadTotals` | ApplyRidersToGraph.py:154-155 | each (direction, route) total is the sum over all its records, including overwritten ones |
| `Metrics.LoadStopKeys` | ApplyRidersToGraph.py:153 | a sequence number is a stop exactly when some record of that (direction, route) has it |
| `Metrics.LoadStopLast` | ApplyRidersToGraph.py:153 | a stop holds the last record with its sequence number |
| `Metrics.LoadNonNeg` | ApplyRidersToGraph.py:153-155 | records with non-negative counts give non-negative stops and totals |
| `Metrics.RouteDataLookup` | ApplyRidersToGraph.py:123-157 | the record loop computes the load fold, including the abort |
| `Subgraph.SubgraphNodes` | ApplyRidersToGraph.py:196-207 | every node of the bunch is an endpoint of an edge whose link is on the route, and every route link that some edge carries brings in both endpoints of one such edge |
| `Subgraph.PrunedSingle` | ApplyRidersToGraph.py:210-213 | on a pair with a single induced edge, that edge survives exactly when its link is on the route |
| `Subgraph.PrunedInside` | ApplyRidersToGraph.py:207-213 | every surviving edge has both endpoints in the node bunch |
| `Subgraph.PruneOffRoute` | ApplyRidersToGraph.py:210-213 | on every pair, one surviving edge is removed per off-route induced edge |
| `Subgraph.CreateSubgraph` | ApplyRidersToGraph.py:189-216 | route-local index, node bunch of its endpoints, and a pruned induced edge set; the graph is not modified |
| `Adjust.AdjustRidership` | ApplyRidersToGraph.py:227-242 | the reweighting aborts with a zero-total error exactly when the divisor total (total_off when ons exceed offs, otherwise total_on) is 0 |
| `Adjust.AdjustScaling` | ApplyRidersToGraph.py:233-240 | when ons exceed offs, ons are kept and offs become offs × total_on / total_off; otherwise offs are kept and ons become ons × total_off / total_on |
| `Adjust.AdjustExample` | ApplyRidersToGraph.py:233-236 | (10, 8, 100, 80) gives (10, 10.0) |
| `Adjust.SumAdjustedOffsScaled` | ApplyRidersToGraph.py:233-236 | the adjusted alightings of a stop list sum to its raw alightings times total_on/total_off |
| `Adjust.SumAdjustedOnsScaled` | ApplyRidersToGraph.py:237-240 | the symmetric statement for boardings |
| `Adjust.AdjustedOffsBalance` | ApplyRidersToGraph.py:233-236 | over stops whose alightings sum to total_off, the adjusted alightings sum to total_on |
| `Adjust.AdjustedOnsBalance` | ApplyRidersToGraph.py:237-240 | over stops whose boardings sum to total_on, the adjusted boardings sum to total_off |
| `Adjust.AdjustNonNeg` | ApplyRidersToGraph.py:233-240 | with non-negative inputs, the adjusted counts are at least the raw ones |
| `Links.RouteChoiceLast` | ApplyRidersToGraph.py:259-262 | the on-route scan gives 0 when no key is on the route, otherwise the link of the last on-route key |
| `Links.CheapScanMin` | ApplyRidersToGraph.py:263-267 | the `<=` scan gives the link of the last key of minimum cost |
| `Links.ChooseLinkSpec` | ApplyRidersToGraph.py:258-269 | a pair has no link exactly when it has no u → v edge; otherwise the link is that of the last parallel edge whose link is on the route, when that link is not 0, and else the link of the last minimum-cost parallel edge |
| `Links.PathLinksSpec` | ApplyRidersToGraph.py:252-272 | a path with an adjacent pair that has no edge aborts at the first such pair; otherwise it gives one chosen link per consecutive pair, len(path) - 1 in all |
| `Links.PairLink` | ApplyRidersToGraph.py:258-269 | the two key loops compute the chosen link |
| `Links.GetTLINK` | ApplyRidersToGraph.py:246-272 | the path loop computes the path's links |
| `Order.SortedKeysSpec` | ApplyRidersToGraph.py:313 | the sorted sequence numbers list every key once, in strictly increasing order |
| `Apportion.Resolve` | ApplyRidersToGraph.py:331-371 | locating a pair changes no load, total or bad-data entry. A located pair's source link is in the current index. A missing link appends (route, dir), rebinds the index to the whole graph and keeps `tlinks` |
| `Apportion.ResolveFallback` | ApplyRidersToGraph.py:331-371 | a pair records a missing link exactly when its first lookup fails (a link not in the current index, or a `KeyError` from the subgraph search) and a link is not in the whole-graph index; the index is rebound to the whole-graph one exactly when the first lookup fails |
| `Apportion.ResolvePair` | ApplyRidersToGraph.py:331-371 | the nested `try` blocks compute that resolution |
| `Apportion.PathLoadsOk` | ApplyRidersToGraph.py:378-397 | the path increments succeed exactly when every later link is indexed and its pair has an edge |
| `Apportion.PathLoadsHits` | ApplyRidersToGraph.py:392-397 | each edge gains the new total once per later link whose key-0 edge it is |
| `Apportion.AddAlongPath` | ApplyRidersToGraph.py:392-397 | the increment loop over `path_nodes[1:]` computes those loads, or the first abort |
| `Apportion.PairRecurrence` | ApplyRidersToGraph.py:373-412 | the first pair seeds the total with adjusted ons plus offs, later pairs add adjusted ons. The source pair's key-0 edge gains that total. A total below the adjusted offs is recorded as bad data and reset to the larger route total, otherwise the offs are subtracted. Each later link's key-0 edge gains the new total |
| `Apportion.PairTotalNonNeg` | ApplyRidersToGraph.py:383-412 | with non-negative route totals, the running total is non-negative after every pair |
| `Apportion.PairMonotone` | ApplyRidersToGraph.py:383-412 | with non-negative counts, one pair never lowers an edge total |
| `Apportion.ApplyPair` | ApplyRidersToGraph.py:373-412 | normalisation and increments of a located pair, on the graph object |
| `Apportion.StopPair` | ApplyRidersToGraph.py:324-412 | one iteration of the stop loop, on the graph object |
| `Apportion.ApportionDirection` | ApplyRidersToGraph.py:321-412 | the stop loop computes the direction's walk and loads |
| `Apportion.WalkMonotone` | ApplyRidersToGraph.py:321-412 | with non-negative counts, a direction never lowers an edge total and ends with a non-negative running total |
| `Apportion.FallbackPersists` | ApplyRidersToGraph.py:353 | once rebound to the whole-graph index, the node index stays so for the rest of the direction |
| `Apportion.MissingLinkStops` | ApplyRidersToGraph.py:331-371 | a pair breaks off exactly when its first lookup fails and a link is not in the whole-graph index; the direction then ends with (route, dir) recorded, the index rebound and no load changed |
| `Apportion.FoundPathLinks` | ApplyRidersToGraph.py:338-339 | a path that follows graph edges converts to exactly len(path) - 1 links |
| `Apportion.ResolveNeverHalts` | ApplyRidersToGraph.py:331-363 | with a search that meets its contract, locating a pair never aborts |
| `Apportion.NoPathFirst` | ApplyRidersToGraph.py:341-375 | with no path ever found, a located pair aborts the run |
| `Ridership.ApportionRoute` | ApplyRidersToGraph.py:310-412 | the direction loop: each direction restarts the running total at 0 and keeps the rest of the state |
| `Ridership.VisitRoutes` | ApplyRidersToGraph.py:304-412 | the route loop: each route builds a subgraph and resets the node index, then runs its directions |
| `Ridership.RidershipAlgorithm` | ApplyRidersToGraph.py:276-414 | the run yields the loaded graph, bad-data list and missing-link list of the specification, or its abort; the graph's edges are the rows' edges |
| `Ridership.RouteDirsMonotone` | ApplyRidersToGraph.py:310-412 | with non-negative counts, a route's directions never lower an edge total |
| `Ridership.RoutesMonotone` | ApplyRidersToGraph.py:304-412 | with non-negative counts, the route loop never lowers an edge total |
| `Ridership.LoadsNonNeg` | ApplyRidersToGraph.py:276-414 | with non-negative counts in every record, every edge total of a completed run is non-negative |
| `Ridership.FallbackPersistsRoute` | ApplyRidersToGraph.py:307-353 | the whole-graph rebinding persists through a route's later directions |
| `Ridership.DirCtxNonNeg` | ApplyRidersToGraph.py:312-328 | each direction's stops and totals come from the loaded metrics, so they inherit non-negativity |
| `Ridership.ApplyRiders` | ApplyRidersToGraph.py:422-433 | `main` returns the ledger of the completed run's edge totals, or the run's abort |
| `Ridership.LedgerKeys` | ApplyRidersToGraph.py:429-433 | the ledger holds exactly the links some edge carries |
| `Ridership.LedgerLast` | ApplyRidersToGraph.py:430-433 | a ledger entry is the total of one edge, the last write for that link, not a sum |
| `Ridership.LedgerOverwrites` | ApplyRidersToGraph.py:430-433 | two edges of one link with totals 3 and 4 give 4, not 7 |
| `Ridership.RidersWritten` | ApplyRidersToGraph.py:435-440 | a street's link no edge carries is written as 0; any other gets the total of an edge carrying it |

## Left out

- arcpy I/O is not modelled. This covers the tool parameters (lines 41-50),
  the cursor reads (65, 108), the CSV file with its header skip (139-141), and
  the copy, add-field and update-cursor write-back (426-441). The inputs are
  sequences of typed rows. `ApplyRiders` returns the ledger. `Riders` gives
  the value written for a street's link.
- Python's `int()` and `float()` parsing (143-151) is not modelled. Fields
  arrive typed. An unparseable link is `None`. The flow code
  is an integer: a `None` flow code behaves like any code other than 1 or 2,
  so it is a row with such a code.
- `Graph.SegmentRow`: a null ROLL_LEN is not representable; every street
  cost is a number. In the source a null cost reaches the edge as `None`
  (line 76). GetTLINK's `<=` scan (lines 263-267) would then rank it below
  every number, as Python 2 orders `None`, and the weighted path search
  (lines 338, 359) would meet it inside networkx, which is not modelled.
- Floating point: `float(offs) / total_off` and all totals are exact reals,
  not IEEE doubles.
- Dijkstra inside `nx.shortest_path` (338, 359) is an oracle parameter.
  `ValidOracle` states its contract: paths follow the view's edges, and a
  `KeyError` is raised only for a source outside the view, and always for
  one unless the target is the source itself.
- Dictionary iteration orders of networkx 1.x on Python 2 are unspecified, so
  they are parameters:
  - the order in which `G.edges()` yields edges (`scan`, a permutation of the
    edge ids);
  - the route order (`routes`, the route keys listed once each);
  - the direction order (`dirs`, the two directions in either order).

  The parallel keys of a pair are small integers, and they are visited in
  increasing order.
- `subgraph.remove_edge(u, v)` without a key removes an unspecified parallel
  edge. The model admits every outcome that satisfies `Pruned`:
  - `CreateSubgraph` chooses one of them;
  - `RidershipAlgorithm` returns the subgraphs it used as a ghost result;
  - the specification `Apportioned` takes the subgraphs as a parameter.

  Such a removal may drop the on-route edge and keep an off-route one; the
  model keeps that.
- Missing-key lookups on a `defaultdict` insert an empty tuple. Those
  insertions are not modelled, because no later read observes them.
- `Ridership.RidershipAlgorithm`: on an abort the partly loaded graph is not
  described. The source ends with `SystemExit`, and the model returns only
  the `Abort`.
- The error messages (`arcpy.AddError`) are not modelled. Each becomes a
  distinct `Abort` value.
- The import path set-up for networkx (32-38) is not modelled.
- CreateSpiderArcGIS10X.py is not part of this model. It only handles arcpy
  geometry, schema and cursors.
