/** The page component `GraphVisualizer` (src/app/page.tsx): which algorithm is selected, the
    traversal order it last computed, and whether an animation is running. */
module AppPage {
  import opened Graphs
  import opened GraphConfig
  import opened Traversal
  import opened ExpectedOrders

  /** The two values of the `algorithm` state, "bfs" and "dfs". */
  datatype Algorithm = BfsMode | DfsMode

  /** The order `runAlgorithm` computes for an algorithm: always from "1" over `graphData`. */
  function RunOrder(algorithm: Algorithm): (r: seq<string>)
    ensures algorithm == BfsMode ==> r == Keys
    ensures algorithm == DfsMode ==> r == DfsExpected
    ensures NoDup(r) && r != [] && r[0] == Root
    ensures Elems(r) == GraphData.Keys
  {
    BfsVisitsKeysInOrder();
    DfsVisitsPreorder();
    BothVisitEveryKey();
    DfsOrderSpec(GraphData, Root);
    KeysListed();
    if algorithm == BfsMode then BfsOrder(GraphData, Root) else DfsOrder(GraphData, Root)
  }

  /** The state of the page the traversal engine reads and writes. The editor language is
      display-only and not part of the model. */
  class GraphVisualizer {
    var algorithm: Algorithm
    var order: seq<string>
    var isRunning: bool

    /** The initial state: BFS selected, no order, not running. */
    constructor ()
      ensures algorithm == BfsMode && order == [] && !isRunning
    {
      algorithm := BfsMode;
      order := [];
      isRunning := false;
    }

    /** `runAlgorithm`: does nothing while a run is in progress; otherwise computes the
        traversal of the selected algorithm from "1", publishes it as `order` and raises
        `isRunning` (after a 50 ms timer, taken here as immediate). */
    method RunAlgorithm()
      modifies this
      ensures old(isRunning) ==> algorithm == old(algorithm) && order == old(order) && isRunning
      ensures !old(isRunning) ==> algorithm == old(algorithm) && order == RunOrder(algorithm) && isRunning
    {
      if isRunning {
        return;
      }
      var traversalOrder: seq<string>;
      if algorithm == BfsMode {
        traversalOrder := Bfs(GraphData, Root);
      } else {
        traversalOrder := Dfs(GraphData, Root);
      }
      order := traversalOrder;
      isRunning := true;
    }
  }
}
