/** The two traversals of `runAlgorithm` (src/app/page.tsx): a breadth-first queue loop that
    enqueues successors unfiltered and drops repeats when it dequeues them, and a recursive
    depth-first closure sharing `visited` and `traversalOrder`. */
module Traversal {
  import opened Graphs

  // ---------------------------------------------------------------------------------------
  // Breadth-first search

  /** What the BFS loop still appends, run from `queue` and `visited`. A dequeued id is
      recorded only when it is non-empty (the `node &&` guard) and not yet visited; its
      successors then join the back of the queue without any filtering. */
  function BfsDrain(g: Graph, u: set<string>, queue: seq<string>, visited: set<string>): seq<string>
    requires SuccClosed(g, u) && visited <= u && Elems(queue) <= u
    decreases |u - visited|, |queue|
  {
    if queue == [] then []
    else
      var node := queue[0];
      if node != "" && node !in visited then
        FreshShrinks(u, visited, node);
        [node] + BfsDrain(g, u, queue[1..] + Succ(g, node), visited + {node})
      else
        BfsDrain(g, u, queue[1..], visited)
  }

  /** The BFS order from `start`. */
  function BfsOrder(g: Graph, start: string): seq<string> {
    UniverseClosed(g, start);
    BfsDrain(g, Universe(g, start), [start], {})
  }

  /** One iteration of the BFS loop that records a fresh non-empty head: the set of
      unvisited ids shrinks, and what is recorded so far followed by what the loop records
      from here is unchanged by the step. */
  lemma BfsDrainVisit(g: Graph, u: set<string>, queue: seq<string>, visited: set<string>, order: seq<string>)
    requires SuccClosed(g, u) && visited <= u && Elems(queue) <= u
    requires queue != [] && queue[0] != "" && queue[0] !in visited
    ensures Elems(queue[1..] + Succ(g, queue[0])) <= u
    ensures |u - (visited + {queue[0]})| < |u - visited|
    ensures order + BfsDrain(g, u, queue, visited)
      == (order + [queue[0]]) + BfsDrain(g, u, queue[1..] + Succ(g, queue[0]), visited + {queue[0]})
  {
    FreshShrinks(u, visited, queue[0]);
  }

  /** One iteration of the BFS loop that drops its head (empty or already visited). */
  lemma BfsDrainDrop(g: Graph, u: set<string>, queue: seq<string>, visited: set<string>)
    requires SuccClosed(g, u) && visited <= u && Elems(queue) <= u
    requires queue != [] && (queue[0] == "" || queue[0] in visited)
    ensures BfsDrain(g, u, queue, visited) == BfsDrain(g, u, queue[1..], visited)
  {
  }

  /** The bookkeeping part of the BFS loop invariant: `visited` is the set of recorded ids,
      none recorded twice nor empty, and the first recorded id is `start`. */
  ghost predicate BfsRecorded(start: string, queue: seq<string>, visited: set<string>, order: seq<string>) {
    && (forall x :: x in visited <==> x in order)
    && NoDup(order) && "" !in visited
    && (order == [] ==> queue == [start] || queue == [])
    && (order != [] ==> order[0] == start)
  }

  /** The soundness part: every recorded id and every non-empty queued id is reachable from
      `start` along a walk avoiding the empty id. */
  ghost predicate BfsReached(g: Graph, start: string, queue: seq<string>, visited: set<string>) {
    && (forall x :: x in visited ==> ReachableVia(g, start, x, {""}))
    && (forall q :: q in queue && q != "" ==> ReachableVia(g, start, q, {""}))
  }

  /** The completeness part: `start` is visited or queued, and every non-empty successor of
      a visited id is visited or still queued. */
  ghost predicate BfsFrontier(g: Graph, start: string, queue: seq<string>, visited: set<string>) {
    && (start in visited || start in queue || start == "")
    && (forall v, w :: v in visited && w in Succ(g, v) && w != "" ==> w in visited || w in queue)
  }

  /** What holds of the BFS loop's state between iterations. */
  ghost predicate BfsInv(g: Graph, start: string, queue: seq<string>, visited: set<string>, order: seq<string>) {
    BfsRecorded(start, queue, visited, order) && BfsReached(g, start, queue, visited)
    && BfsFrontier(g, start, queue, visited)
  }

  lemma BfsRecordedVisit(start: string, queue: seq<string>, visited: set<string>, order: seq<string>)
    requires BfsRecorded(start, queue, visited, order)
    requires queue != [] && queue[0] != "" && queue[0] !in visited
    ensures forall q :: BfsRecorded(start, q, visited + {queue[0]}, order + [queue[0]])
  {
  }

  lemma BfsReachedVisit(g: Graph, start: string, queue: seq<string>, visited: set<string>)
    requires BfsReached(g, start, queue, visited)
    requires queue != [] && queue[0] != ""
    ensures BfsReached(g, start, queue[1..] + Succ(g, queue[0]), visited + {queue[0]})
  {
    forall w | w in Succ(g, queue[0]) && w != "" ensures ReachableVia(g, start, w, {""}) {
      ReachableExtend(g, start, queue[0], w, {""});
    }
  }

  lemma BfsFrontierVisit(g: Graph, start: string, queue: seq<string>, visited: set<string>)
    requires BfsFrontier(g, start, queue, visited) && queue != []
    ensures BfsFrontier(g, start, queue[1..] + Succ(g, queue[0]), visited + {queue[0]})
  {
    var node := queue[0];
    var queue', visited' := queue[1..] + Succ(g, node), visited + {node};
    forall v, w | v in visited' && w in Succ(g, v) && w != "" ensures w in visited' || w in queue' {
      if v != node && w !in visited' {
        var i :| 0 <= i < |queue| && queue[i] == w;
        assert queue'[i - 1] == w;
      }
    }
  }

  /** One iteration that records `queue[0]` keeps the invariant. */
  lemma BfsVisitStep(g: Graph, start: string, queue: seq<string>, visited: set<string>, order: seq<string>)
    requires BfsInv(g, start, queue, visited, order)
    requires queue != [] && queue[0] != "" && queue[0] !in visited
    ensures BfsInv(g, start, queue[1..] + Succ(g, queue[0]), visited + {queue[0]}, order + [queue[0]])
  {
    BfsRecordedVisit(start, queue, visited, order);
    BfsReachedVisit(g, start, queue, visited);
    BfsFrontierVisit(g, start, queue, visited);
  }

  /** One iteration that drops `queue[0]` (empty or already visited) keeps the invariant. */
  lemma BfsDropStep(g: Graph, start: string, queue: seq<string>, visited: set<string>, order: seq<string>)
    requires BfsInv(g, start, queue, visited, order)
    requires queue != [] && (queue[0] == "" || queue[0] in visited)
    ensures BfsInv(g, start, queue[1..], visited, order)
  {
    forall v, w | v in visited && w in Succ(g, v) && w != "" ensures w in visited || w in queue[1..] {
      if w !in visited {
        var i :| 0 <= i < |queue| && queue[i] == w;
        assert i != 0;
        assert queue[1..][i - 1] == w;
      }
    }
  }

  /** The properties promised of a complete BFS order. */
  ghost predicate BfsSound(g: Graph, start: string, r: seq<string>) {
    && NoDup(r)
    && (r == [] <==> start == "")
    && (r != [] ==> r[0] == start)
    && (forall v :: v in r <==> ReachableVia(g, start, v, {""}))
  }

  /** When the queue is empty the invariant already gives the promised properties. */
  lemma BfsExhausted(g: Graph, start: string, visited: set<string>, order: seq<string>)
    requires BfsInv(g, start, [], visited, order)
    ensures BfsSound(g, start, order)
  {
    forall v | ReachableVia(g, start, v, {""}) ensures v in visited {
      ClosedHoldsReachable(g, start, visited, {""}, v);
    }
  }

  /** From any state satisfying the invariant, the complete order `all` (what is recorded so
      far followed by what the rest of the loop records) has the promised properties. */
  lemma {:induction false} BfsDrainSound(g: Graph, u: set<string>, start: string, queue: seq<string>, visited: set<string>, order: seq<string>, all: seq<string>)
    requires SuccClosed(g, u) && visited <= u && Elems(queue) <= u
    requires BfsInv(g, start, queue, visited, order)
    requires all == order + BfsDrain(g, u, queue, visited)
    ensures BfsSound(g, start, all)
    decreases |u - visited|, |queue|
  {
    if queue == [] {
      assert all == order;
      BfsExhausted(g, start, visited, order);
    } else {
      var node := queue[0];
      if node != "" && node !in visited {
        BfsDrainVisit(g, u, queue, visited, order);
        BfsVisitStep(g, start, queue, visited, order);
        BfsDrainSound(g, u, start, queue[1..] + Succ(g, node), visited + {node}, order + [node], all);
      } else {
        BfsDrainDrop(g, u, queue, visited);
        BfsDropStep(g, start, queue, visited, order);
        BfsDrainSound(g, u, start, queue[1..], visited, order, all);
      }
    }
  }

  /** The BFS order records each id at most once, begins with `start` (unless `start` is the
      empty id, which yields nothing), and holds exactly the ids reachable from `start` along
      walks avoiding the empty id. */
  lemma BfsOrderSpec(g: Graph, start: string)
    ensures var r := BfsOrder(g, start);
      && NoDup(r)
      && (r == [] <==> start == "")
      && (r != [] ==> r[0] == start)
      && (forall v :: v in r <==> ReachableVia(g, start, v, {""}))
  {
    UniverseClosed(g, start);
    BfsDrainSound(g, Universe(g, start), start, [start], {}, [], BfsOrder(g, start));
  }

  /** The BFS branch of runAlgorithm, run against the same specification. */
  method Bfs(g: Graph, start: string) returns (order: seq<string>)
    ensures order == BfsOrder(g, start)
    ensures NoDup(order)
    ensures order == [] <==> start == ""
    ensures order != [] ==> order[0] == start
    ensures forall v :: v in order <==> ReachableVia(g, start, v, {""})
  {
    ghost var u := Universe(g, start);
    UniverseClosed(g, start);
    ghost var total := BfsDrain(g, u, [start], {});
    var visited: set<string> := {};
    var queue: seq<string> := [start];
    order := [];
    while queue != []
      invariant visited <= u && Elems(queue) <= u
      invariant order + BfsDrain(g, u, queue, visited) == total
      decreases |u - visited|, |queue|
    {
      ghost var queue0 := queue;
      var node := queue[0];
      queue := queue[1..];
      if node != "" && node !in visited {
        BfsDrainVisit(g, u, queue0, visited, order);
        visited := visited + {node};
        order := order + [node];
        var neighbors := Succ(g, node);
        queue := queue + neighbors;
      } else {
        BfsDrainDrop(g, u, queue0, visited);
      }
    }
    assert order == BfsOrder(g, start);
    BfsOrderSpec(g, start);
  }

  /** The sequence facts behind one step of `LevelOrder`: the head of the queue is fresh, and
      dequeuing it and enqueueing its span moves the window and the visited prefix along. */
  lemma LevelStep(keys: seq<string>, i: nat, f: nat, f': nat)
    requires NoDup(keys) && i < f <= f' <= |keys|
    ensures keys[i] !in Elems(keys[..i])
    ensures keys[i..f][1..] + keys[f..f'] == keys[i + 1..f']
    ensures Elems(keys[..i]) + {keys[i]} == Elems(keys[..i + 1])
    ensures [keys[i]] + keys[i + 1..] == keys[i..]
  {
    assert keys[..i + 1] == keys[..i] + [keys[i]];
  }

  /** A graph whose keys are listed level by level (the successors of `keys[j]` are the span
      `keys[first[j]..first[j + 1]]`, and every span starts after its parent) is traversed by
      BFS in listing order: from the queue holding the keys still to come of the current level
      and the next, with the keys before `i` visited, BFS records exactly `keys[i..]`. */
  lemma {:induction false} LevelOrder(g: Graph, u: set<string>, keys: seq<string>, first: seq<nat>, i: nat)
    requires SuccClosed(g, u) && Elems(keys) <= u
    requires NoDup(keys) && "" !in keys
    requires LevelListing(g, keys, first)
    requires i <= |keys|
    ensures i <= first[i] <= |keys|
    ensures Elems(keys[i..first[i]]) <= u && Elems(keys[..i]) <= u
      && BfsDrain(g, u, keys[i..first[i]], Elems(keys[..i])) == keys[i..]
    decreases |keys| - i
  {
    if i < |keys| {
      var queue, visited := keys[i..first[i]], Elems(keys[..i]);
      LevelStep(keys, i, first[i], first[i + 1]);
      assert Elems(queue) <= u && visited <= u;
      BfsDrainVisit(g, u, queue, visited, []);
      LevelOrder(g, u, keys, first, i + 1);
    }
  }

  /** A graph listed level by level from `keys[0]` is traversed by BFS in listing order. */
  lemma LevelOrderFromFirst(g: Graph, keys: seq<string>, first: seq<nat>)
    requires NoDup(keys) && "" !in keys && keys != [] && Elems(keys) <= g.Keys
    requires LevelListing(g, keys, first) && first[0] == 1
    ensures BfsOrder(g, keys[0]) == keys
  {
    var u := Universe(g, keys[0]);
    UniverseClosed(g, keys[0]);
    LevelOrder(g, u, keys, first, 0);
    assert keys[0..first[0]] == [keys[0]];
    assert Elems(keys[..0]) == {};
  }

  // ---------------------------------------------------------------------------------------
  // Depth-first search

  /** What `dfs(node)` appends when the shared visited set is `done`: nothing when `node` is
      already visited, otherwise `node` itself followed by the visits of its successors in
      listed order. */
  function DfsFrom(g: Graph, u: set<string>, node: string, done: set<string>): (r: seq<string>)
    requires SuccClosed(g, u) && done <= u && node in u
    ensures Elems(r) <= u
    decreases |u - done|, 0
  {
    if node in done then []
    else
      FreshShrinks(u, done, node);
      [node] + DfsList(g, u, Succ(g, node), done + {node})
  }

  /** What `nodes.forEach(dfs)` appends: each visit sees the ids the earlier ones recorded. */
  function DfsList(g: Graph, u: set<string>, nodes: seq<string>, done: set<string>): (r: seq<string>)
    requires SuccClosed(g, u) && done <= u && Elems(nodes) <= u
    ensures Elems(r) <= u
    decreases |u - done|, 1, |nodes|
  {
    if nodes == [] then []
    else
      var first := DfsFrom(g, u, nodes[0], done);
      GrowNoLarger(u, done, Elems(first));
      first + DfsList(g, u, nodes[1..], done + Elems(first))
  }

  /** The DFS order from `start`. */
  function DfsOrder(g: Graph, start: string): seq<string> {
    UniverseClosed(g, start);
    DfsFrom(g, Universe(g, start), start, {})
  }

  /** A visit records no id twice and none that was already visited. */
  lemma {:induction false} DfsFromFresh(g: Graph, u: set<string>, node: string, done: set<string>)
    requires SuccClosed(g, u) && done <= u && node in u
    ensures var r := DfsFrom(g, u, node, done); NoDup(r) && Elems(r) !! done
    decreases |u - done|, 0
  {
    if node !in done {
      FreshShrinks(u, done, node);
      DfsListFresh(g, u, Succ(g, node), done + {node});
    }
  }

  lemma {:induction false} DfsListFresh(g: Graph, u: set<string>, nodes: seq<string>, done: set<string>)
    requires SuccClosed(g, u) && done <= u && Elems(nodes) <= u
    ensures var r := DfsList(g, u, nodes, done); NoDup(r) && Elems(r) !! done
    decreases |u - done|, 1, |nodes|
  {
    if nodes != [] {
      var first := DfsFrom(g, u, nodes[0], done);
      DfsFromFresh(g, u, nodes[0], done);
      GrowNoLarger(u, done, Elems(first));
      var rest := DfsList(g, u, nodes[1..], done + Elems(first));
      DfsListFresh(g, u, nodes[1..], done + Elems(first));
      assert DfsList(g, u, nodes, done) == first + rest;
      NoDupConcat(first, rest);
    }
  }

  /** Every successor of every id in `xs` lies in `s`. */
  ghost predicate SuccsWithin(g: Graph, xs: seq<string>, s: set<string>) {
    forall x, w :: x in xs && w in Succ(g, x) ==> w in s
  }

  /** How the two halves of a visit combine: a recorded `node` followed by what its
      successors' visits record. */
  lemma CombineVisit(g: Graph, node: string, done: set<string>, rest: seq<string>)
    requires Elems(Succ(g, node)) <= (done + {node}) + Elems(rest)
    requires SuccsWithin(g, rest, (done + {node}) + Elems(rest))
    ensures node in done + Elems([node] + rest)
    ensures SuccsWithin(g, [node] + rest, done + Elems([node] + rest))
  {
    assert done + Elems([node] + rest) == (done + {node}) + Elems(rest);
  }

  /** How the visit of the first id of a list combines with the visits of the others. */
  lemma CombineList(g: Graph, nodes: seq<string>, done: set<string>, first: seq<string>, rest: seq<string>)
    requires nodes != []
    requires nodes[0] in done + Elems(first) && SuccsWithin(g, first, done + Elems(first))
    requires Elems(nodes[1..]) <= (done + Elems(first)) + Elems(rest)
    requires SuccsWithin(g, rest, (done + Elems(first)) + Elems(rest))
    ensures Elems(nodes) <= done + Elems(first + rest)
    ensures SuccsWithin(g, first + rest, done + Elems(first + rest))
  {
    assert done + Elems(first + rest) == (done + Elems(first)) + Elems(rest);
    assert nodes == [nodes[0]] + nodes[1..];
  }

  /** After a visit, `node` is visited, and every successor of an id the visit recorded is
      visited too. */
  lemma {:induction false} DfsFromCloses(g: Graph, u: set<string>, node: string, done: set<string>)
    requires SuccClosed(g, u) && done <= u && node in u
    ensures var r := DfsFrom(g, u, node, done);
      node in done + Elems(r) && SuccsWithin(g, r, done + Elems(r))
    decreases |u - done|, 0
  {
    if node !in done {
      FreshShrinks(u, done, node);
      DfsListCloses(g, u, Succ(g, node), done + {node});
      CombineVisit(g, node, done, DfsList(g, u, Succ(g, node), done + {node}));
    }
  }

  lemma {:induction false} DfsListCloses(g: Graph, u: set<string>, nodes: seq<string>, done: set<string>)
    requires SuccClosed(g, u) && done <= u && Elems(nodes) <= u
    ensures var r := DfsList(g, u, nodes, done);
      Elems(nodes) <= done + Elems(r) && SuccsWithin(g, r, done + Elems(r))
    decreases |u - done|, 1, |nodes|
  {
    if nodes != [] {
      var first := DfsFrom(g, u, nodes[0], done);
      DfsFromCloses(g, u, nodes[0], done);
      GrowNoLarger(u, done, Elems(first));
      DfsListCloses(g, u, nodes[1..], done + Elems(first));
      CombineList(g, nodes, done, first, DfsList(g, u, nodes[1..], done + Elems(first)));
    }
  }

  /** Everything a visit of `node` records is reachable from wherever `node` is. */
  lemma {:induction false} DfsFromReaches(g: Graph, u: set<string>, s: string, node: string, done: set<string>)
    requires SuccClosed(g, u) && done <= u && node in u
    requires Reachable(g, s, node)
    ensures forall x :: x in DfsFrom(g, u, node, done) ==> Reachable(g, s, x)
    decreases |u - done|, 0
  {
    if node !in done {
      FreshShrinks(u, done, node);
      forall w | w in Succ(g, node) ensures Reachable(g, s, w) {
        ReachableExtend(g, s, node, w, {});
      }
      DfsListReaches(g, u, s, Succ(g, node), done + {node});
    }
  }

  lemma {:induction false} DfsListReaches(g: Graph, u: set<string>, s: string, nodes: seq<string>, done: set<string>)
    requires SuccClosed(g, u) && done <= u && Elems(nodes) <= u
    requires forall y :: y in nodes ==> Reachable(g, s, y)
    ensures forall x :: x in DfsList(g, u, nodes, done) ==> Reachable(g, s, x)
    decreases |u - done|, 1, |nodes|
  {
    if nodes != [] {
      var first := DfsFrom(g, u, nodes[0], done);
      DfsFromReaches(g, u, s, nodes[0], done);
      GrowNoLarger(u, done, Elems(first));
      DfsListReaches(g, u, s, nodes[1..], done + Elems(first));
    }
  }

  /** The DFS order records each id at most once, begins with `start`, and holds exactly the
      ids reachable from `start`. */
  lemma DfsOrderSpec(g: Graph, start: string)
    ensures var r := DfsOrder(g, start);
      && NoDup(r)
      && r != [] && r[0] == start
      && (forall v :: v in r <==> Reachable(g, start, v))
  {
    var u := Universe(g, start);
    UniverseClosed(g, start);
    var r := DfsOrder(g, start);
    DfsFromFresh(g, u, start, {});
    DfsFromCloses(g, u, start, {});
    assert {} + Elems(r) == Elems(r);
    ReachableStart(g, start, {});
    DfsFromReaches(g, u, start, start, {});
    forall v | Reachable(g, start, v) ensures v in r {
      ClosedHoldsReachable(g, start, Elems(r), {}, v);
    }
  }

  /** `nodes.forEach(dfs)` unfolded by one element: the visit of `nodes[0]` followed by the
      visits of the others, which see what it recorded. */
  lemma DfsListVisit(g: Graph, u: set<string>, nodes: seq<string>, done: set<string>, pre: seq<string>)
    requires SuccClosed(g, u) && done <= u && Elems(nodes) <= u && nodes != []
    ensures var first := DfsFrom(g, u, nodes[0], done);
      && Elems(nodes[1..]) <= u
      && pre + DfsList(g, u, nodes, done) == (pre + first) + DfsList(g, u, nodes[1..], done + Elems(first))
  {
  }

  /** Regrouping a concatenation. Kept as a lemma: stated inline in the methods of `DfsRun`
      it drags the sequence axioms into their heap reasoning and exhausts the solver. */
  lemma AppendAssoc(a: seq<string>, b: seq<string>, c: seq<string>)
    ensures (a + b) + c == a + (b + c)
  {
  }

  /** One iteration of `neighbors.forEach(dfs)`: with `consumed` the ids the first `i`
      visits recorded on top of `base`, the next visit extends it by what it records. */
  lemma DfsForEachStep(g: Graph, u: set<string>, nodes: seq<string>, i: nat, base: set<string>,
                       consumed: seq<string>, visited: set<string>)
    requires SuccClosed(g, u) && base <= u && Elems(nodes) <= u && i < |nodes|
    requires visited == base + Elems(consumed) && visited <= u
    requires DfsList(g, u, nodes, base) == consumed + DfsList(g, u, nodes[i..], visited)
    ensures |u - visited| <= |u - base|
    ensures var first := DfsFrom(g, u, nodes[i], visited);
      && DfsList(g, u, nodes, base) == (consumed + first) + DfsList(g, u, nodes[i + 1..], visited + Elems(first))
      && visited + Elems(first) == base + Elems(consumed + first)
  {
    DfsListVisit(g, u, nodes[i..], visited, consumed);
    assert nodes[i..][1..] == nodes[i + 1..];
    GrowNoLarger(u, base, visited);
    assert base + visited == visited;
    var first := DfsFrom(g, u, nodes[i], visited);
    assert visited + Elems(first) == base + Elems(consumed + first);
  }

  /** The state the `dfs` closure of runAlgorithm shares between its recursive calls: the
      `visited` set and the `traversalOrder` array. `universe` is a finite set closed under
      successors that holds every id the closure can be called on. */
  class DfsRun {
    const graph: Graph
    ghost const universe: set<string>
    var visited: set<string>
    var traversalOrder: seq<string>

    ghost predicate Valid()
      reads this
    {
      SuccClosed(graph, universe) && visited <= universe
    }

    constructor (g: Graph, start: string)
      ensures Valid() && start in universe
      ensures graph == g && universe == Universe(g, start)
      ensures visited == {} && traversalOrder == []
    {
      graph := g;
      universe := Universe(g, start);
      visited := {};
      traversalOrder := [];
      UniverseClosed(g, start);
    }

    /** `dfs(node)`: return at once when `node` is visited; otherwise mark it, record it and
        visit its successors in listed order. */
    method Visit(node: string)
      requires Valid() && node in universe
      modifies this
      ensures Valid()
      ensures traversalOrder == old(traversalOrder) + DfsFrom(graph, universe, node, old(visited))
      ensures visited == old(visited) + Elems(DfsFrom(graph, universe, node, old(visited)))
      decreases |universe - visited|, 0
    {
      if node in visited {
        return;
      }
      FreshShrinks(universe, visited, node);
      visited := visited + {node};
      traversalOrder := traversalOrder + [node];
      var neighbors := Succ(graph, node);
      ghost var prefix, base := old(traversalOrder), visited;
      ForEachVisit(neighbors);
      ghost var rest := DfsList(graph, universe, neighbors, base);
      AppendAssoc(prefix, [node], rest);
      assert visited == old(visited) + Elems([node] + rest);
    }

    /** `neighbors.forEach(dfs)`: visit each id in turn, each visit seeing what the earlier
        ones recorded. */
    method ForEachVisit(nodes: seq<string>)
      requires Valid() && Elems(nodes) <= universe
      modifies this
      ensures Valid()
      ensures traversalOrder == old(traversalOrder) + DfsList(graph, universe, nodes, old(visited))
      ensures visited == old(visited) + Elems(DfsList(graph, universe, nodes, old(visited)))
      decreases |universe - visited|, 1
    {
      ghost var base, prefix := visited, traversalOrder;
      ghost var consumed: seq<string> := [];
      var i := 0;
      while i < |nodes|
        invariant 0 <= i <= |nodes|
        invariant Valid() && base <= visited
        invariant DfsList(graph, universe, nodes, base) == consumed + DfsList(graph, universe, nodes[i..], visited)
        invariant visited == base + Elems(consumed)
        invariant traversalOrder == prefix + consumed
      {
        ghost var first := DfsFrom(graph, universe, nodes[i], visited);
        DfsForEachStep(graph, universe, nodes, i, base, consumed, visited);
        Visit(nodes[i]);
        AppendAssoc(prefix, consumed, first);
        consumed := consumed + first;
        i := i + 1;
      }
    }
  }

  /** The DFS branch of runAlgorithm: `dfs("1")` on a fresh closure state, run against the
      same specification. */
  method Dfs(g: Graph, start: string) returns (order: seq<string>)
    ensures order == DfsOrder(g, start)
    ensures NoDup(order)
    ensures order != [] && order[0] == start
    ensures forall v :: v in order <==> Reachable(g, start, v)
  {
    var run := new DfsRun(g, start);
    run.Visit(start);
    order := run.traversalOrder;
    DfsOrderSpec(g, start);
  }

  /** Whether, from position `c`, jumping each time to the end of the subtree that starts
      there, one lands exactly on `end`. */
  ghost predicate ChainOk(ends: seq<nat>, c: nat, end: nat)
    decreases end - c
  {
    c <= end <= |ends| && (c == end || (c < ends[c] <= end && ChainOk(ends, ends[c], end)))
  }

  /** The ids at the positions of such a chain: the children of the node before `c`, when
      `order` is a pre-order and `ends[p]` the end of the subtree at `p`. */
  function ChildChain(order: seq<string>, ends: seq<nat>, c: nat, end: nat): (r: seq<string>)
    requires |order| == |ends| && ChainOk(ends, c, end)
    ensures Elems(r) <= Elems(order[c..end])
    decreases end - c
  {
    if c == end then []
    else
      var rest := ChildChain(order, ends, ends[c], end);
      assert Elems(order[ends[c]..end]) <= Elems(order[c..end]) by {
        forall x | x in order[ends[c]..end] ensures x in order[c..end] {
          var k :| ends[c] <= k < end && order[k] == x;
          assert order[c..end][k - c] == x;
        }
      }
      [order[c]] + rest
  }

  /** Row `p` of a pre-order table: the subtree at `p` ends at `ends[p]`, and the successors of
      `order[p]` are the ids that start the subtrees between `p + 1` and `ends[p]`. */
  ghost predicate PreorderRow(g: Graph, order: seq<string>, ends: seq<nat>, p: nat)
    requires |ends| == |order| && p < |order|
  {
    p < ends[p] <= |order| && ChainOk(ends, p + 1, ends[p])
    && Succ(g, order[p]) == ChildChain(order, ends, p + 1, ends[p])
  }

  ghost predicate PreorderTable(g: Graph, order: seq<string>, ends: seq<nat>) {
    |ends| == |order| && NoDup(order)
    && forall p :: 0 <= p < |order| ==> PreorderRow(g, order, ends, p)
  }

  lemma PrefixGrows(order: seq<string>, c: nat, e: nat)
    requires c <= e <= |order|
    ensures Elems(order[..c]) + Elems(order[c..e]) == Elems(order[..e])
  {
    assert order[..e] == order[..c] + order[c..e];
  }

  /** On a graph described by a pre-order table, the visit of `order[p]`, when exactly the
      positions before `p` are visited, records the subtree at `p` in table order. */
  lemma {:induction false} PreorderFrom(g: Graph, u: set<string>, order: seq<string>, ends: seq<nat>, p: nat)
    requires SuccClosed(g, u) && Elems(order) <= u && PreorderTable(g, order, ends) && p < |order|
    ensures Elems(order[..p]) <= u && order[p] in u && p < ends[p] <= |order|
    ensures DfsFrom(g, u, order[p], Elems(order[..p])) == order[p..ends[p]]
    decreases 2 * (|order| - p), 0
  {
    assert PreorderRow(g, order, ends, p);
    assert order[p] !in Elems(order[..p]) by {
      forall j | 0 <= j < p ensures order[..p][j] != order[p] { }
    }
    assert Elems(order[..p]) + {order[p]} == Elems(order[..p + 1]) by {
      assert order[..p + 1] == order[..p] + [order[p]];
    }
    PreorderList(g, u, order, ends, p + 1, ends[p]);
    DfsFresh(g, u, order[p], Elems(order[..p]), order[p + 1..ends[p]]);
  }

  /** The visits of the children between positions `c` and `end`, in turn, record the
      positions `c` to `end` of the table. */
  lemma {:induction false} PreorderList(g: Graph, u: set<string>, order: seq<string>, ends: seq<nat>, c: nat, end: nat)
    requires SuccClosed(g, u) && Elems(order) <= u && PreorderTable(g, order, ends)
    requires ChainOk(ends, c, end)
    ensures Elems(order[..c]) <= u && Elems(ChildChain(order, ends, c, end)) <= u
    ensures DfsList(g, u, ChildChain(order, ends, c, end), Elems(order[..c])) == order[c..end]
    decreases 2 * (|order| - c) + 1, end - c
  {
    if c < end {
      var chain := ChildChain(order, ends, c, end);
      PreorderFrom(g, u, order, ends, c);
      DfsListCons(g, u, chain, Elems(order[..c]), order[c..ends[c]]);
      PrefixGrows(order, c, ends[c]);
      PreorderList(g, u, order, ends, ends[c], end);
      assert order[c..ends[c]] + order[ends[c]..end] == order[c..end];
    }
  }

  /** `forEach` over a non-empty list whose first visit is known to record `r1`. */
  lemma DfsListCons(g: Graph, u: set<string>, nodes: seq<string>, done: set<string>, r1: seq<string>)
    requires SuccClosed(g, u) && done <= u && Elems(nodes) <= u && nodes != []
    requires DfsFrom(g, u, nodes[0], done) == r1
    ensures Elems(nodes[1..]) <= u && done + Elems(r1) <= u
    ensures DfsList(g, u, nodes, done) == r1 + DfsList(g, u, nodes[1..], done + Elems(r1))
  {
  }

  /** The visit of a fresh node: the node, then `forEach` over its successors. */
  lemma DfsFresh(g: Graph, u: set<string>, x: string, done: set<string>, rs: seq<string>)
    requires SuccClosed(g, u) && done <= u && x in u && x !in done
    requires DfsList(g, u, Succ(g, x), done + {x}) == rs
    ensures DfsFrom(g, u, x, done) == [x] + rs
  {
  }

  /** A graph described by a pre-order table whose first subtree spans everything is
      traversed by DFS from `order[0]` in table order. */
  lemma PreorderFromFirst(g: Graph, order: seq<string>, ends: seq<nat>)
    requires PreorderTable(g, order, ends) && order != [] && ends[0] == |order|
    requires Elems(order) <= g.Keys
    ensures DfsOrder(g, order[0]) == order
  {
    UniverseClosed(g, order[0]);
    PreorderFrom(g, Universe(g, order[0]), order, ends, 0);
    assert Elems(order[..0]) == {};
  }

  /** When the empty id cannot be reached, BFS (which skips it) and DFS record the same ids. */
  lemma SameIdsBothWays(g: Graph, start: string)
    requires start != "" && !Reachable(g, start, "")
    ensures forall v :: v in BfsOrder(g, start) <==> v in DfsOrder(g, start)
  {
    BfsOrderSpec(g, start);
    DfsOrderSpec(g, start);
    forall v ensures ReachableVia(g, start, v, {""}) <==> Reachable(g, start, v) {
      AvoidUnreachable(g, start, "", v);
    }
  }

  /** A non-empty start id without successors, whether its list is empty or it has no entry
      at all, is recorded alone by both traversals. */
  lemma EmptyStartAlone(g: Graph, start: string)
    requires start != "" && Succ(g, start) == []
    ensures BfsOrder(g, start) == [start] && DfsOrder(g, start) == [start]
  {
    var u := Universe(g, start);
    UniverseClosed(g, start);
    BfsDrainVisit(g, u, [start], {}, []);
    assert [start][1..] + Succ(g, start) == [];
    assert BfsDrain(g, u, [], {start}) == [];
    assert DfsFrom(g, u, start, {}) == [start] + DfsList(g, u, [], {start});
  }
}
