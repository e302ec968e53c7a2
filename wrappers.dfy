/** Small failure-carrying datatypes shared by the other modules. */
module Wrappers {

  /** A value that may be absent (Python's `None`). */
  datatype Option<+T> = None | Some(value: T)

  /** The outcome of a step that can abort the whole run. */
  datatype Result<+T, +E> = Ok(value: T) | Fail(error: E)
}

/** The conditions that end the whole run without a ledger (the source's `raise SystemExit()`). */
module Fatal {
  import opened Wrappers

  datatype Abort =
    | UnknownDirection(dir: string)     // a ridership row whose direction is neither inbound nor outbound
    | ZeroTotal                         // the divisor total of AdjustRidership is 0
    | NoPreviousPath                    // no path was found and none was ever found before
    | UnindexedLink(link: Option<int>)  // a path link (possibly null) with no entry in the whole-graph node index
    | NoEdgeBetween(u: int, v: int)     // `G[u][v]` or `G.get_edge_data(u, v)` on nodes with no edge
    | UnknownNode(node: int)            // a whole-graph path search from a node the graph does not have
}
