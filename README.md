# AlgoViz traversal core in Dafny

AlgoViz shows breadth-first and depth-first search on a fixed twenty-node graph and animates
the order in which the nodes are visited. This project models the parts that decide what is
shown:

- **the graph** (`graphData` in `src/components/graphConfig.ts`). It is a map from node id
  to an ordered list of successor ids, together with its structure. The keys are "1" to "20".
  The graph is closed, every edge goes to a numerically larger id, and it is a tree rooted at
  "1". The successor lists keep their listed order.
- **the page** (`src/app/page.tsx`). `GraphVisualizer` is a class holding the selected
  algorithm, the computed `order` and the `isRunning` flag. `runAlgorithm` is a method with
  the same guard. Two methods carry the traversals:
  - BFS is a queue loop that skips the empty id, as the JavaScript truthiness test does.
  - DFS is a recursive closure over shared `visited` and `traversalOrder` state.

  Both methods are proved against specification functions (`BfsOrder`, `DfsOrder`). On this
  graph BFS gives "1".."20" and DFS gives the pre-order
  1,2,5,10,6,11,17,12,3,7,8,13,18,14,4,9,15,16,19,20.
- **the view** (`src/components/GraphView.tsx`). The node and edge lists handed to the
  network come first. The `Animator` class then holds the node dataset (id to display state),
  the `animationRef` flags, `currentStep` and `orderRef`. Its methods are the mount effect,
  the `orderRef` sync, the run effect with its re-entrancy branch, `startTraversal`,
  `resetNodeColors` and the `highlightTraversal` loop.
  - Other code may raise the cancel flag while the loop waits. This is given as an oracle
    `flags`: entry `2*i` is read at the check before step `i`, and entry `2*i+1` at the
    check after its dwell.
  - Each step's updates are proved to equal a trace function of the order up to the first
    check point at which the flag is up.

A start node without successors gives `[start]` under both traversals. This covers a start
whose successor list is empty, such as "7", and a start that is not a key at all, because
`graphData[node] || []` falls back to no successors (`Traversal.EmptyStartAlone`,
`ExpectedOrders.LeafStartAlone`). Ids that name inherited JavaScript object properties are
the exception; see "Left out".

## Model

| member | source | states |
|---|---|---|
| GraphConfig.KeysListed | src/components/graphConfig.ts:246-267 | the keys, in `Object.keys` order, list every key of `graphData` exactly once, and the i-th is the numeral of i + 1 |
| GraphConfig.KeysAreOneToTwenty | src/components/graphConfig.ts:246-267 | there are exactly twenty keys: each is a numeral between 1 and 20, and every numeral from 1 to 20 is a key |
| GraphConfig.Closed | src/components/graphConfig.ts:247-266 | every listed successor is itself a key |
| GraphConfig.EdgesAscend | src/components/graphConfig.ts:247-266 | every edge goes from a numerically smaller id to a larger one |
| GraphConfig.Acyclic | src/components/graphConfig.ts:246-267 | along any walk of one or more edges the numeric id strictly grows, so no walk returns to its start |
| GraphConfig.ChildSpans | src/components/graphConfig.ts:246-267 | the keys are listed level by level: each key's successors are a contiguous run of later keys, and these runs follow one another in key order |
| GraphConfig.SuccessorsListedOnce | src/components/graphConfig.ts:246-267 | all successor lists, concatenated in key order, are exactly the keys "2".."20" |
| GraphConfig.TreeRootedAtOne | src/components/graphConfig.ts:246-267 | "1" is nobody's successor and every other key is exactly one key's successor (a tree rooted at "1") |
| GraphConfig.SuccessorLists | src/components/graphConfig.ts:247-266 | the successors of "1" are "2","3","4" in that order, and the childless keys are exactly 7, 10, 12, 14, 15, 17, 18, 19 and 20 |
| Graphs.Succ | src/app/page.tsx:37 | the neighbour lookup with its empty-list fallback: a key's listed successors in listed order, and none for an id with no entry (the same lookup is at line 47) |
| Traversal.Bfs | src/app/page.tsx:30-41 | the queue loop returns `BfsOrder`: no id twice, empty exactly when the start is empty, starting with the start, and holding exactly the ids reachable without passing through the empty id |
| Traversal.BfsOrderSpec | src/app/page.tsx:30-41 | the same four facts about the specification function `BfsOrder` |
| Traversal.LevelOrderFromFirst | src/app/page.tsx:30-41 | on a graph whose keys are listed level by level, breadth-first search from the first key returns the keys in listed order |
| Traversal.DfsRun.constructor | src/app/page.tsx:27-28 | the closure state starts with nothing visited and nothing recorded |
| Traversal.DfsRun.Visit | src/app/page.tsx:43-49 | `dfs(node)` appends the depth-first visit of `node` to the order and adds what it records to `visited` |
| Traversal.DfsRun.ForEachVisit | src/app/page.tsx:48 | `neighbors.forEach(dfs)` appends the visits of the nodes in turn, each seeing the earlier ones' `visited` |
| Traversal.Dfs | src/app/page.tsx:42-51 | the closure run returns `DfsOrder`: no id twice, starting with the start, holding exactly the ids reachable from it |
| Traversal.DfsOrderSpec | src/app/page.tsx:42-51 | the same facts about the specification function `DfsOrder` |
| Traversal.PreorderFromFirst | src/app/page.tsx:43-50 | on a graph described by a pre-order table, depth-first search from its first id returns the table's order |
| Traversal.SameIdsBothWays | src/app/page.tsx:30-51 | when the empty id is not reachable, both traversals record the same set of ids |
| Traversal.EmptyStartAlone | src/app/page.tsx:30-51 | a non-empty start without successors (an empty list, or no entry at all) is recorded alone by both traversals |
| ExpectedOrders.BfsVisitsKeysInOrder | src/app/page.tsx:30-41 | breadth-first search from "1" on `graphData` gives "1", "2", …, "20" |
| ExpectedOrders.DfsVisitsPreorder | src/app/page.tsx:42-51 | depth-first search from "1" on `graphData` gives 1,2,5,10,6,11,17,12,3,7,8,13,18,14,4,9,15,16,19,20 |
| ExpectedOrders.DfsExpectedIsPermutation | src/components/graphConfig.ts:246-267 | the expected depth-first order lists every key exactly once |
| ExpectedOrders.LeafStartAlone | src/app/page.tsx:30-51 | started at the leaf "7" of `graphData`, both traversals give `["7"]` |
| ExpectedOrders.BothVisitEveryKey | src/app/page.tsx:30-51 | every key, and nothing else, is reachable from "1", and both traversals visit exactly the keys |
| AppPage.RunOrder | src/app/page.tsx:30-51 | the order computed for BFS is the keys in order and for DFS the pre-order; either way it has no repeats, starts with "1" and covers exactly the keys |
| AppPage.GraphVisualizer.constructor | src/app/page.tsx:10-13 | the page starts with BFS selected, an empty order and no run |
| AppPage.GraphVisualizer.RunAlgorithm | src/app/page.tsx:23-59 | while running, nothing changes; otherwise the selected algorithm's order is published and `isRunning` is raised |
| GraphElements.NodesFor | src/components/GraphView.tsx:55-69 | one node per key, in key order, each labelled "Node <id>" |
| GraphElements.EdgesFrom | src/components/GraphView.tsx:72 | one edge from the source to each target, in target order |
| GraphElements.EdgesFor | src/components/GraphView.tsx:71-73 | the `flatMap` over the entries yields one edge per listed successor: as many edges as the successor lists hold in all |
| GraphElements.EdgesForMembers | src/components/GraphView.tsx:71-73 | an edge exists exactly for a listed key and one of its successors |
| GraphElements.EdgeTargets | src/components/GraphView.tsx:71-73 | read in order, the edges' targets are the successor lists concatenated in key order |
| GraphElements.MountedElements | src/components/GraphView.tsx:55-73 | the network gets 20 nodes with distinct ids, one per key, and 19 edges, one per listed pair, with none repeated |
| Animation.Label | src/components/GraphView.tsx:156 | every label starts with "Node <id>" (the plain label of line 124), and it is exactly the plain label when the node is in the default state |
| Animation.LabelShowsStep | src/components/GraphView.tsx:156 | an active or visited node's label is "Node <id>", a line break, then the step in parentheses, and the step can be parsed back from it |
| Animation.InitialStates | src/components/GraphView.tsx:55-69 | the dataset after mounting holds exactly the listed node ids, all in the default state |
| Animation.ResetAll | src/components/GraphView.tsx:119-128 | a reset keeps the same ids and every node shows its plain label |
| Animation.CancelPoint | src/components/GraphView.tsx:137-170 | the loop stops at the first check point where the flag is up, or after the last step if there is none |
| Animation.TraceSteps | src/components/GraphView.tsx:137-177 | the k-th update of a run activates, for even k, or marks visited, for odd k, the node of step k/2 |
| Animation.ApplyKeys | src/components/GraphView.tsx:153-176 | applying updates adds the ids they touch and removes none |
| Animation.ActivationsInOrder | src/components/GraphView.tsx:137-177 | the i-th activation is of `order[i]` with step i + 1, each visited mark follows its node's activation at the same step, and the steps never decrease |
| Animation.CancelBeforeStep | src/components/GraphView.tsx:139-141 | a cancel seen before step i leaves exactly 2i updates, all for steps 1 to i |
| Animation.CancelAfterDwell | src/components/GraphView.tsx:167-170 | a cancel seen after the dwell of step i leaves `order[i]` active and not visited |
| Animation.CompletedSteps | src/components/GraphView.tsx:137-177 | after k full steps over an order without repeats, its first k nodes are visited at their own steps and every other node is unchanged |
| Animation.AtMostOneActive | src/components/GraphView.tsx:137-177 | played from a reset dataset, at most one node is active at a time: none at the check that opens step i, and exactly `order[i]` with step i + 1 at the check after its dwell |
| Animation.UncancelledRun | src/components/GraphView.tsx:137-177 | a run that is never cancelled leaves every node of the order visited at its position and every other node as the reset left it |
| Animation.QuietRunShowsOrder | src/components/GraphView.tsx:137-177 | for either algorithm, an uncancelled run ends with each node of the order visited and labelled with its 1-based position |
| Animation.Animator.constructor | src/components/GraphView.tsx:42-46 | the component starts with no network, both flags down, the step indicator at -1 and an empty `orderRef` |
| Animation.Animator.Mount | src/components/GraphView.tsx:53-87 | the mount effect creates the network over the node and edge lists; the dataset holds exactly the keys, all in the default state |
| Animation.Animator.SyncOrder | src/components/GraphView.tsx:49-51 | `orderRef` takes the value of the `order` prop |
| Animation.Animator.ResetNodeColors | src/components/GraphView.tsx:119-128 | every node of the dataset goes back to the default state, and no node is added or removed |
| Animation.Animator.HighlightTraversal | src/components/GraphView.tsx:130-184 | the dataset ends as the trace of the `orderRef` snapshot, applied to the reset dataset up to the first raised check point; the flag is up exactly when the loop stopped early; `running` and `isRunning` fall and the step indicator is -1 |
| Animation.Animator.PlayOrder | src/components/GraphView.tsx:137-177 | the loop makes exactly the trace's updates up to the stopping check point, in order; the flag is up afterwards exactly when it stopped early; the step indicator shows the last step opened, or is unchanged if none was |
| Animation.Animator.OpenStep | src/components/GraphView.tsx:138-158 | the check before step i either stops the loop at that point, leaving the step indicator as it was, or sets the step indicator to i and activates `order[i]` with step i + 1 |
| Animation.Animator.CloseStep | src/components/GraphView.tsx:167-176 | the check after the dwell either stops the loop at that point or marks `order[i]` visited |
| Animation.Animator.StartTraversal | src/components/GraphView.tsx:111-118 | without a network nothing changes; otherwise the run starts with the flag down and ends as `HighlightTraversal` states |
| Animation.Animator.RunEffect | src/components/GraphView.tsx:96-109 | nothing happens unless the page is running, the network exists and the order is non-empty; a still-running animation is cancelled and replaced by fresh flags, and then the traversal starts |
| Animation.Animator.AfterRender | src/components/GraphView.tsx:49-109 | after a render `orderRef` equals `order`, and the run effect then plays that order |
| Animation.Animator.ClickRun | src/app/page.tsx:23-59 | clicking Run while idle, with the network mounted, publishes the selected algorithm's order, copies it into `orderRef` and animates it from a reset dataset until the page is idle again, the flag being up exactly when the run was cut short; without a network the order is published, the page stays marked as running and the dataset is untouched; a click during a run changes nothing |

## Left out

- Traversal.EmptyStartAlone, Graphs.Succ: ids that name properties every JavaScript object inherits ("constructor", "toString", "__proto__") are outside the model. For them `graphData[node]` is a function or an object rather than an array, so the source throws at page.tsx 39 or 48, whereas `Succ` gives no successors. The page only ever starts at "1" on `graphData`, so these ids never occur.
- Timers and awaiting are not modelled. The 50 ms delay before `isRunning` is raised (page.tsx), the 1000 ms dwell and the 100 ms pause on the re-entrancy path are all taken as immediate. Other code acting during the dwell is captured only through the cancel oracle.
- Interleaving of two animations is not modelled. On the re-entrancy path the source replaces `animationRef.current` with a fresh object, so an older loop still awaiting would read the new object's lowered flag. In the model the older loop has always finished first.
- Animation.Animator.RunEffect: because runs complete synchronously, its `running` branch cannot be reached from a fresh component. It is modelled as written but never exercised by `ClickRun`.
- `network.selectNodes`, `network.focus` and `network.unselectAll` (GraphView.tsx 146-150, 180) only move the camera and selection. Colours, fonts, shapes and physics options are presentation only.
- The step overlay (GraphView.tsx 196-208) and the rest of the JSX are rendering only; `currentStep` is kept as state.
- The unmount cleanup that raises the cancel flag (GraphView.tsx 89-92) belongs to component teardown, which the model does not have.
- The reset updates of `resetNodeColors` are reflected in the dataset but not recorded in the ghost update log, which records the loop's updates only.
- `changeAlgorithm` (page.tsx 15-21): selecting an algorithm is a plain state setter plus a lowering of `isRunning`. It does not take part in computing or animating an order, so it is not modelled.
- The algorithm source strings in graphConfig.ts (lines 1-244), the code editor and the algorithm controls are display and input only.
- The `language` state of the page is display only.
