/** The step-by-step highlighting of a traversal order in GraphView
    (src/components/GraphView.tsx). The network's node dataset is abstracted to a map from
    node id to a display state; the colours are Default, Active and Visited, and the label
    follows from the state. The moments at which other code may raise the `cancel` flag while
    the animation awaits are given as an oracle: `flags[2 * i]` says whether the flag was
    raised before the check that opens step `i`, `flags[2 * i + 1]` whether it was raised
    during the dwell of step `i`; a missing entry means it was not. */
module Animation {
  import opened Decimal
  import opened Graphs
  import opened GraphConfig
  import opened GraphElements
  import opened AppPage

  /** The display state of one node. `step` is the 1-based position shown in the label. */
  datatype NodeState = Default | Active(step: nat) | Visited(step: nat)

  /** One `nodes.update` made by the animation loop. */
  datatype Update = Update(id: string, state: NodeState)

  /** What a node in a given state displays: the plain label, or, once the node has been
      made active at some step, the plain label followed by that step on a new line (marking
      a node visited changes its colour only, so the step stays). */
  function Label(id: string, st: NodeState): (l: string)
    ensures |l| >= |PlainLabel(id)| && l[..|PlainLabel(id)|] == PlainLabel(id)
    ensures l == PlainLabel(id) <==> st.Default?
  {
    match st
    case Default => PlainLabel(id)
    case Active(k) => PlainLabel(id) + "\n(" + NatToString(k) + ")"
    case Visited(k) => PlainLabel(id) + "\n(" + NatToString(k) + ")"
  }

  /** A stepped label consists of the plain label, a line break, and the step in parentheses,
      and the step can be read back from it. */
  lemma LabelShowsStep(id: string, st: NodeState)
    requires !st.Default?
    ensures var l := Label(id, st); var n := |PlainLabel(id)|;
      && |l| > n + 3 && l[..n] == PlainLabel(id) && l[n..n + 2] == "\n(" && l[|l| - 1] == ')'
      && IsNumeral(l[n + 2..|l| - 1]) && ParseDecimal(l[n + 2..|l| - 1]) == st.step
  {
    var l := Label(id, st);
    var n := |PlainLabel(id)|;
    ParsePrinted(st.step);
    assert l[n + 2..|l| - 1] == NatToString(st.step);
  }

  /** The dataset after mounting: every node of the list in the default state. */
  function InitialStates(nodes: seq<VisNode>): (m: map<string, NodeState>)
    ensures forall id :: id in m <==> exists i :: 0 <= i < |nodes| && nodes[i].id == id
    ensures forall id :: id in m ==> m[id] == Default
  {
    map i | 0 <= i < |nodes| :: nodes[i].id := Default
  }

  /** The dataset after `resetNodeColors`: the same nodes, all in the default state, so
      every node shows its plain label. */
  function ResetAll(m: map<string, NodeState>): (r: map<string, NodeState>)
    ensures r.Keys == m.Keys
    ensures forall id :: id in r ==> Label(id, r[id]) == PlainLabel(id)
  {
    map id | id in m :: Default
  }

  /** Whether the cancel flag is up at check point `k`, when it was `c0` as the loop began. */
  predicate Hit(c0: bool, flags: seq<bool>, k: nat) {
    (k == 0 && c0) || (k < |flags| && flags[k])
  }

  /** The first check point, from `k` on, at which the flag is up; `2 * n` if there is none
      among the `2 * n` check points of an order of length `n`. */
  function CancelFrom(c0: bool, flags: seq<bool>, n: nat, k: nat): (cp: nat)
    requires k <= 2 * n
    ensures k <= cp <= 2 * n
    ensures forall j :: k <= j < cp ==> !Hit(c0, flags, j)
    ensures cp < 2 * n ==> Hit(c0, flags, cp)
    decreases 2 * n - k
  {
    if k == 2 * n then 2 * n else if Hit(c0, flags, k) then k else CancelFrom(c0, flags, n, k + 1)
  }

  /** Where the loop over an order of length `n` stops: an even point `2 * i` is the check
      before step `i`, an odd point `2 * i + 1` the check after its dwell, and `2 * n` means
      the loop ran to the end. */
  function CancelPoint(c0: bool, flags: seq<bool>, n: nat): (cp: nat)
    ensures cp <= 2 * n
    ensures forall j :: 0 <= j < cp ==> !Hit(c0, flags, j)
    ensures cp < 2 * n ==> Hit(c0, flags, cp)
  {
    CancelFrom(c0, flags, n, 0)
  }

  /** The update made just before check point `k + 1`: step `k / 2` makes its node active on
      even `k` and visited on odd `k`. */
  function StepUpdate(order: seq<string>, k: nat): Update
    requires k < 2 * |order|
  {
    Update(order[k / 2], if k % 2 == 0 then Active(k / 2 + 1) else Visited(k / 2 + 1))
  }

  /** The updates the loop makes before check point `m`. */
  function Trace(order: seq<string>, m: nat): (t: seq<Update>)
    requires m <= 2 * |order|
    ensures |t| == m
  {
    if m == 0 then [] else Trace(order, m - 1) + [StepUpdate(order, m - 1)]
  }

  /** At each check point before `m`, the trace holds the update made there. */
  lemma {:induction false} TraceSteps(order: seq<string>, m: nat)
    requires m <= 2 * |order|
    ensures forall k :: 0 <= k < m ==> Trace(order, m)[k] == StepUpdate(order, k)
  {
    if m > 0 {
      TraceSteps(order, m - 1);
    }
  }

  /** The ids a sequence of updates touches. */
  function UpdatedIds(ups: seq<Update>): set<string> {
    set u | u in ups :: u.id
  }

  /** The dataset after a sequence of updates, applied in order. */
  function Apply(m: map<string, NodeState>, ups: seq<Update>): map<string, NodeState> {
    if ups == [] then m else Apply(m, ups[..|ups| - 1])[ups[|ups| - 1].id := ups[|ups| - 1].state]
  }

  /** Updates add ids the dataset lacks and remove none. */
  lemma {:induction false} ApplyKeys(m: map<string, NodeState>, ups: seq<Update>)
    ensures Apply(m, ups).Keys == m.Keys + UpdatedIds(ups)
  {
    if ups != [] {
      var last := ups[|ups| - 1];
      ApplyKeys(m, ups[..|ups| - 1]);
      assert ups == ups[..|ups| - 1] + [last];
      assert UpdatedIds(ups) == UpdatedIds(ups[..|ups| - 1]) + {last.id};
    }
  }

  /** The dataset a run leaves behind, from the reset dataset `start`. */
  function Outcome(start: map<string, NodeState>, order: seq<string>, c0: bool, flags: seq<bool>): map<string, NodeState> {
    Apply(start, Trace(order, CancelPoint(c0, flags, |order|)))
  }

  /** The step a state shows; none for the default state. */
  function StepOf(st: NodeState): nat {
    if st.Default? then 0 else st.step
  }

  /** Nodes are made active strictly in index order: the i-th activation is of `order[i]`,
      labelled with step i + 1, every visited mark follows the activation of the same node at
      the same step, and the steps never go down. */
  lemma ActivationsInOrder(order: seq<string>, m: nat)
    requires m <= 2 * |order|
    ensures var t := Trace(order, m);
      && (forall i :: 0 <= i && 2 * i < m ==> t[2 * i] == Update(order[i], Active(i + 1)))
      && (forall i :: 0 <= i && 2 * i + 1 < m ==> t[2 * i + 1] == Update(order[i], Visited(i + 1)))
      && (forall k1, k2 :: 0 <= k1 < k2 < m ==> 1 <= StepOf(t[k1].state) <= StepOf(t[k2].state))
  {
    var t := Trace(order, m);
    TraceSteps(order, m);
    forall i | 0 <= i && 2 * i < m ensures t[2 * i] == Update(order[i], Active(i + 1)) {
      StepUpdates(order, i);
    }
    forall i | 0 <= i && 2 * i + 1 < m ensures t[2 * i + 1] == Update(order[i], Visited(i + 1)) {
      StepUpdates(order, i);
    }
    forall k1, k2 | 0 <= k1 < k2 < m ensures 1 <= StepOf(t[k1].state) <= StepOf(t[k2].state) {
      assert k1 / 2 <= k2 / 2;
    }
  }

  /** A cancel seen at the check that opens step `i` leaves every node at index `i` or
      beyond untouched by the loop: all updates concern steps 1 to `i`. */
  lemma CancelBeforeStep(order: seq<string>, c0: bool, flags: seq<bool>, i: nat)
    requires i < |order| && CancelPoint(c0, flags, |order|) == 2 * i
    ensures var t := Trace(order, CancelPoint(c0, flags, |order|));
      |t| == 2 * i && forall k :: 0 <= k < |t| ==> 1 <= StepOf(t[k].state) <= i
  {
    var t := Trace(order, 2 * i);
    TraceSteps(order, 2 * i);
    forall k | 0 <= k < |t| ensures 1 <= StepOf(t[k].state) <= i {
      assert StepOf(t[k].state) == k / 2 + 1;
    }
  }

  /** A cancel seen after the dwell of step `i` leaves `order[i]` active, not visited. */
  lemma CancelAfterDwell(start: map<string, NodeState>, order: seq<string>, c0: bool, flags: seq<bool>, i: nat)
    requires i < |order| && CancelPoint(c0, flags, |order|) == 2 * i + 1
    ensures order[i] in Outcome(start, order, c0, flags)
    ensures Outcome(start, order, c0, flags)[order[i]] == Active(i + 1)
  {
    ActivateStep(start, order, i);
  }

  /** The update at an even point activates the node of that step; the one at the next odd
      point marks it visited. */
  lemma StepUpdates(order: seq<string>, i: nat)
    requires i < |order|
    ensures StepUpdate(order, 2 * i) == Update(order[i], Active(i + 1))
    ensures StepUpdate(order, 2 * i + 1) == Update(order[i], Visited(i + 1))
  {
    assert (2 * i) / 2 == i && (2 * i) % 2 == 0;
    assert (2 * i + 1) / 2 == i && (2 * i + 1) % 2 == 1;
  }

  /** Step `i` opens by activating its node. */
  lemma ActivateStep(start: map<string, NodeState>, order: seq<string>, i: nat)
    requires i < |order|
    ensures Trace(order, 2 * i + 1) == Trace(order, 2 * i) + [Update(order[i], Active(i + 1))]
    ensures Apply(start, Trace(order, 2 * i + 1)) == Apply(start, Trace(order, 2 * i))[order[i] := Active(i + 1)]
  {
    StepUpdates(order, i);
    StepTrace(start, order, 2 * i);
  }

  /** Step `i` closes by marking its node visited. */
  lemma VisitStep(start: map<string, NodeState>, order: seq<string>, i: nat)
    requires i < |order|
    ensures Trace(order, 2 * i + 2) == Trace(order, 2 * i + 1) + [Update(order[i], Visited(i + 1))]
    ensures Apply(start, Trace(order, 2 * i + 2)) == Apply(start, Trace(order, 2 * i + 1))[order[i] := Visited(i + 1)]
  {
    StepUpdates(order, i);
    StepTrace(start, order, 2 * i + 1);
  }

  /** A complete step, activation then visited mark, leaves its node visited. */
  lemma FullStep(start: map<string, NodeState>, order: seq<string>, i: nat)
    requires i < |order|
    ensures Apply(start, Trace(order, 2 * i + 2)) == Apply(start, Trace(order, 2 * i))[order[i] := Visited(i + 1)]
  {
    ActivateStep(start, order, i);
    VisitStep(start, order, i);
    var m0 := Apply(start, Trace(order, 2 * i));
    assert m0[order[i] := Active(i + 1)][order[i] := Visited(i + 1)] == m0[order[i] := Visited(i + 1)];
  }

  /** After `steps` complete steps from `start`: each of the first `steps` nodes of the order
      is visited at its own step, and every other node is as it was. */
  ghost predicate StepsDone(start: map<string, NodeState>, r: map<string, NodeState>, order: seq<string>, steps: nat)
    requires steps <= |order|
  {
    && (forall j :: 0 <= j < steps ==> order[j] in r && r[order[j]] == Visited(j + 1))
    && (forall id :: id in start && id !in order[..steps] ==> id in r && r[id] == start[id])
  }

  /** Marking the next node of an order without repeats visited extends `StepsDone` by one. */
  lemma StepsDoneNext(start: map<string, NodeState>, r: map<string, NodeState>, order: seq<string>, i: nat)
    requires NoDup(order) && i < |order| && StepsDone(start, r, order, i)
    ensures StepsDone(start, r[order[i] := Visited(i + 1)], order, i + 1)
  {
    assert order[..i + 1] == order[..i] + [order[i]];
  }

  /** `steps` complete steps over an order without repeats mark each of its first `steps`
      nodes visited at its own step and leave every other node as it was. */
  lemma {:induction false} CompletedSteps(start: map<string, NodeState>, order: seq<string>, steps: nat)
    requires NoDup(order) && steps <= |order|
    ensures StepsDone(start, Apply(start, Trace(order, 2 * steps)), order, steps)
  {
    if steps > 0 {
      var i := steps - 1;
      assert 2 * steps == 2 * i + 2;
      CompletedSteps(start, order, i);
      FullStep(start, order, i);
      StepsDoneNext(start, Apply(start, Trace(order, 2 * i)), order, i);
    }
  }

  /** A run that is never cancelled leaves every node of an order without repeats visited at
      its own step, and every other node as the reset left it. */
  lemma UncancelledRun(start: map<string, NodeState>, order: seq<string>, c0: bool, flags: seq<bool>)
    requires NoDup(order) && CancelPoint(c0, flags, |order|) == 2 * |order|
    ensures var r := Outcome(start, order, c0, flags);
      && (forall j :: 0 <= j < |order| ==> order[j] in r && r[order[j]] == Visited(j + 1))
      && (forall id :: id in start && id !in order ==> id in r && r[id] == start[id])
  {
    CompletedSteps(start, order, |order|);
    assert order[..|order|] == order;
  }

  /** No node of the dataset is active. */
  ghost predicate NoneActive(r: map<string, NodeState>) {
    forall id :: id in r ==> !r[id].Active?
  }

  /** `id` is active with step `k`, and no other node is. */
  ghost predicate OnlyActive(r: map<string, NodeState>, id: string, k: nat) {
    id in r && r[id] == Active(k) && forall x :: x in r && x != id ==> !r[x].Active?
  }

  /** Played from a reset dataset, at most one node is active at any time: none at the check
      point that opens step `i`, and exactly `order[i]`, with step `i + 1`, at the check point
      after its dwell. */
  lemma {:induction false} AtMostOneActive(start: map<string, NodeState>, order: seq<string>, i: nat)
    requires i <= |order|
    requires forall id :: id in start ==> start[id] == Default
    ensures NoneActive(Apply(start, Trace(order, 2 * i)))
    ensures i < |order| ==> OnlyActive(Apply(start, Trace(order, 2 * i + 1)), order[i], i + 1)
  {
    if i > 0 {
      var j := i - 1;
      AtMostOneActive(start, order, j);
      VisitStep(start, order, j);
      assert 2 * j + 2 == 2 * i;
    }
    if i < |order| {
      ActivateStep(start, order, i);
    }
  }

  /** The loop stops at check point `p` when the flag is down at every earlier point and, unless
      `p` is past the last one, up at `p`. */
  lemma CancelPointIs(c0: bool, flags: seq<bool>, n: nat, p: nat)
    requires p <= 2 * n
    requires Quiet(c0, flags, p)
    requires p < 2 * n ==> Hit(c0, flags, p)
    ensures CancelPoint(c0, flags, n) == p
  {
  }

  /** The flag is down at every check point before `m`. */
  predicate Quiet(c0: bool, flags: seq<bool>, m: nat) {
    forall k :: 0 <= k < m ==> !Hit(c0, flags, k)
  }

  /** A quiet check point extends a quiet prefix by one. */
  lemma QuietNext(c0: bool, flags: seq<bool>, m: nat)
    requires Quiet(c0, flags, m) && !Hit(c0, flags, m)
    ensures Quiet(c0, flags, m + 1)
  {
  }

  /** A quiet check point after the dwell of step `i` makes the prefix quiet up to step
      `i + 1`. */
  lemma QuietAfter(c0: bool, flags: seq<bool>, i: nat)
    requires Quiet(c0, flags, 2 * i + 1) && !Hit(c0, flags, 2 * i + 1)
    ensures Quiet(c0, flags, 2 * (i + 1))
  {
    QuietNext(c0, flags, 2 * i + 1);
  }

  /** One more update of the trace, applied. */
  lemma StepTrace(start: map<string, NodeState>, order: seq<string>, k: nat)
    requires k < 2 * |order|
    ensures Trace(order, k + 1) == Trace(order, k) + [StepUpdate(order, k)]
    ensures Apply(start, Trace(order, k + 1)) == Apply(start, Trace(order, k))[order[k / 2] := StepUpdate(order, k).state]
  {
    assert Trace(order, k + 1)[..k] == Trace(order, k);
  }

  /** The dataset and the update log after the loop has made the updates before check point
      `m`, from the dataset `start` and the log `log`. */
  ghost predicate Played(start: map<string, NodeState>, log: seq<Update>, order: seq<string>, m: nat,
                         nodes: map<string, NodeState>, updates: seq<Update>)
    requires m <= 2 * |order|
  {
    nodes == Apply(start, Trace(order, m)) && updates == log + Trace(order, m)
  }

  /** `Played` depends on the check point only through its value. */
  lemma PlayedAt(start: map<string, NodeState>, log: seq<Update>, order: seq<string>, m: nat, m': nat,
                 nodes: map<string, NodeState>, updates: seq<Update>)
    requires m == m' <= 2 * |order| && Played(start, log, order, m, nodes, updates)
    ensures Played(start, log, order, m', nodes, updates)
  {
  }

  /** Activating the node of step `i` reaches the check point after its dwell. */
  lemma PlayActivate(start: map<string, NodeState>, log: seq<Update>, order: seq<string>, i: nat,
                     nodes: map<string, NodeState>, updates: seq<Update>,
                     nodes': map<string, NodeState>, updates': seq<Update>)
    requires i < |order| && Played(start, log, order, 2 * i, nodes, updates)
    requires nodes' == nodes[order[i] := Active(i + 1)] && updates' == updates + [Update(order[i], Active(i + 1))]
    ensures Played(start, log, order, 2 * i + 1, nodes', updates')
  {
    ActivateStep(start, order, i);
    var t, u := Trace(order, 2 * i), Update(order[i], Active(i + 1));
    assert (log + t) + [u] == log + (t + [u]);
  }

  /** Marking the node of step `i` visited reaches the check point that opens step `i + 1`. */
  lemma PlayVisit(start: map<string, NodeState>, log: seq<Update>, order: seq<string>, i: nat,
                  nodes: map<string, NodeState>, updates: seq<Update>,
                  nodes': map<string, NodeState>, updates': seq<Update>)
    requires i < |order| && Played(start, log, order, 2 * i + 1, nodes, updates)
    requires nodes' == nodes[order[i] := Visited(i + 1)] && updates' == updates + [Update(order[i], Visited(i + 1))]
    ensures Played(start, log, order, 2 * (i + 1), nodes', updates')
  {
    VisitStep(start, order, i);
    var t, u := Trace(order, 2 * i + 1), Update(order[i], Visited(i + 1));
    assert (log + t) + [u] == log + (t + [u]);
    PlayedAt(start, log, order, 2 * i + 2, 2 * (i + 1), nodes', updates');
  }

  /** With the flag down when the loop begins and never raised, the loop runs to the end. */
  lemma NeverRaised(flags: seq<bool>, n: nat)
    requires forall k :: 0 <= k < |flags| ==> !flags[k]
    ensures CancelPoint(false, flags, n) == 2 * n
  {
  }

  /** A run of the selected algorithm that nobody cancels ends with every node of its order
      visited and labelled with its 1-based position in the order. */
  lemma QuietRunShowsOrder(start: map<string, NodeState>, algorithm: Algorithm, flags: seq<bool>)
    requires forall k :: 0 <= k < |flags| ==> !flags[k]
    ensures var order := RunOrder(algorithm); var r := Outcome(start, order, false, flags);
      forall j :: 0 <= j < |order| ==> (
        && order[j] in r && r[order[j]] == Visited(j + 1)
        && Label(order[j], r[order[j]]) == PlainLabel(order[j]) + "\n(" + NatToString(j + 1) + ")")
  {
    var order := RunOrder(algorithm);
    NeverRaised(flags, |order|);
    UncancelledRun(start, order, false, flags);
  }

  /** GraphView's animation state: the node dataset and edges of the network, whether the
      network exists, the `animationRef` flags, the `currentStep` state and the `orderRef`
      snapshot source. `graph` and `keys` are `graphData` and the order `Object.keys` lists it
      in. `isRunning` belongs to the page and is lowered through its setter. `updates` records
      the loop's dataset updates in the order they are made. */
  class Animator {
    const page: GraphVisualizer
    const graph: Graph
    const keys: seq<string>
    var nodes: map<string, NodeState>
    var edges: seq<VisEdge>
    var networkReady: bool
    var running: bool
    var cancel: bool
    var currentStep: int
    var orderRef: seq<string>
    ghost var updates: seq<Update>

    /** The component before its effects have run. */
    constructor (page: GraphVisualizer)
      ensures this.page == page && graph == GraphData && keys == Keys
      ensures nodes == map[] && edges == [] && !networkReady
      ensures !running && !cancel && currentStep == -1 && orderRef == [] && updates == []
    {
      this.page := page;
      graph := GraphData;
      keys := Keys;
      nodes := map[];
      edges := [];
      networkReady := false;
      running := false;
      cancel := false;
      currentStep := -1;
      orderRef := [];
      updates := [];
    }

    /** The mount effect: one node per key with its plain label, one edge per listed
        successor, and the network created over them. */
    method Mount()
      modifies this`nodes, this`edges, this`networkReady
      ensures networkReady
      ensures nodes == InitialStates(NodesFor(keys)) && edges == EdgesFor(graph, keys)
      ensures forall id :: id in nodes <==> id in keys
    {
      var visNodes := NodesFor(keys);
      var visEdges := EdgesFor(graph, keys);
      nodes := InitialStates(visNodes);
      edges := visEdges;
      networkReady := true;
      forall id | id in keys ensures id in nodes {
        var i :| 0 <= i < |keys| && keys[i] == id;
        assert visNodes[i].id == id;
      }
    }

    /** The effect that keeps `orderRef` equal to the `order` prop. */
    method SyncOrder()
      modifies this`orderRef
      ensures orderRef == page.order
    {
      orderRef := page.order;
    }

    /** `resetNodeColors`: every node of the dataset, in whatever order the dataset yields
        them, back to the default colour and plain label. */
    method ResetNodeColors()
      modifies this`nodes
      ensures nodes == ResetAll(old(nodes))
    {
      var pending := nodes.Keys;
      while pending != {}
        invariant pending <= nodes.Keys && nodes.Keys == old(nodes).Keys
        invariant forall id :: id in nodes && id !in pending ==> nodes[id] == Default
        invariant forall id :: id in pending ==> nodes[id] == old(nodes)[id]
        decreases |pending|
      {
        var id :| id in pending;
        nodes := nodes[id := Default];
        pending := pending - {id};
      }
    }

    /** `highlightTraversal`: reset the dataset, play a snapshot of `orderRef`, and, whichever
        way the loop ends, close the run: `running` falls, the step indicator clears and the
        page's `isRunning` is lowered. */
    method HighlightTraversal(flags: seq<bool>)
      modifies this`nodes, this`cancel, this`running, this`currentStep, this`updates, page`isRunning
      ensures var cp := CancelPoint(old(cancel), flags, |orderRef|);
        && nodes == Outcome(ResetAll(old(nodes)), orderRef, old(cancel), flags)
        && updates == old(updates) + Trace(orderRef, cp)
        && cancel == (old(cancel) || cp < 2 * |orderRef|)
      ensures !running && currentStep == -1 && !page.isRunning
    {
      ResetNodeColors();
      currentStep := -1;
      var currentOrder := orderRef;
      PlayOrder(currentOrder, flags);
      running := false;
      currentStep := -1;
      page.isRunning := false;
    }

    /** The loop of `highlightTraversal` over the snapshot `currentOrder`, one step per
        iteration until a check point stops it. It makes exactly the updates of the trace up
        to the check point where it stops, and the flag is up afterwards exactly when it
        stopped early. */
    method PlayOrder(currentOrder: seq<string>, flags: seq<bool>)
      modifies this`nodes, this`cancel, this`currentStep, this`updates
      ensures var cp := CancelPoint(old(cancel), flags, |currentOrder|);
        && Played(old(nodes), old(updates), currentOrder, cp, nodes, updates)
        && cancel == (old(cancel) || cp < 2 * |currentOrder|)
        && (cp == 0 ==> currentStep == old(currentStep))
        && (cp > 0 ==> 2 * currentStep + 1 <= cp <= 2 * currentStep + 2)
    {
      ghost var start, c0, log := nodes, cancel, updates;
      var i := 0;
      while i < |currentOrder|
        invariant 0 <= i <= |currentOrder|
        invariant Played(start, log, currentOrder, 2 * i, nodes, updates)
        invariant Quiet(c0, flags, 2 * i)
        invariant cancel == c0 && (i > 0 ==> !c0)
        invariant i == 0 ==> currentStep == old(currentStep)
        invariant i > 0 ==> currentStep == i - 1
      {
        var stopped := OpenStep(currentOrder, i, flags, start, log, c0);
        if stopped {
          return;
        }
        stopped := CloseStep(currentOrder, i, flags, start, log, c0);
        if stopped {
          return;
        }
        i := i + 1;
      }
      CancelPointIs(c0, flags, |currentOrder|, 2 * i);
      PlayedAt(start, log, currentOrder, 2 * i, CancelPoint(c0, flags, |currentOrder|), nodes, updates);
    }

    /** The first half of an iteration, for step `i`: stop if cancelled, otherwise show the
        step and make its node active with the step in its label. */
    method OpenStep(currentOrder: seq<string>, i: nat, flags: seq<bool>,
                    ghost start: map<string, NodeState>, ghost log: seq<Update>, ghost c0: bool)
      returns (stopped: bool)
      requires i < |currentOrder|
      requires Played(start, log, currentOrder, 2 * i, nodes, updates)
      requires Quiet(c0, flags, 2 * i)
      requires cancel == c0 && (i > 0 ==> !c0)
      modifies this`nodes, this`cancel, this`currentStep, this`updates
      ensures stopped ==> var cp := CancelPoint(c0, flags, |currentOrder|);
        && cancel && cp == 2 * i && Played(start, log, currentOrder, cp, nodes, updates)
        && currentStep == old(currentStep)
      ensures !stopped ==> (
        && !cancel && !c0 && Quiet(c0, flags, 2 * i + 1) && currentStep == i
        && Played(start, log, currentOrder, 2 * i + 1, nodes, updates))
    {
      cancel := cancel || (2 * i < |flags| && flags[2 * i]);
      if cancel {
        CancelPointIs(c0, flags, |currentOrder|, 2 * i);
        PlayedAt(start, log, currentOrder, 2 * i, CancelPoint(c0, flags, |currentOrder|), nodes, updates);
        return true;
      }
      QuietNext(c0, flags, 2 * i);
      var nodeId := currentOrder[i];
      currentStep := i;
      ghost var nodes0, updates0 := nodes, updates;
      nodes := nodes[nodeId := Active(i + 1)];
      updates := updates + [Update(nodeId, Active(i + 1))];
      PlayActivate(start, log, currentOrder, i, nodes0, updates0, nodes, updates);
      return false;
    }

    /** The second half, after the dwell: stop if cancelled, otherwise mark the node of step
        `i` visited. */
    method CloseStep(currentOrder: seq<string>, i: nat, flags: seq<bool>,
                     ghost start: map<string, NodeState>, ghost log: seq<Update>, ghost c0: bool)
      returns (stopped: bool)
      requires i < |currentOrder|
      requires Played(start, log, currentOrder, 2 * i + 1, nodes, updates)
      requires Quiet(c0, flags, 2 * i + 1)
      requires !cancel
      modifies this`nodes, this`cancel, this`updates
      ensures stopped ==> var cp := CancelPoint(c0, flags, |currentOrder|);
        cancel && cp == 2 * i + 1 && Played(start, log, currentOrder, cp, nodes, updates)
      ensures !stopped ==> (
        && !cancel && Quiet(c0, flags, 2 * (i + 1))
        && Played(start, log, currentOrder, 2 * (i + 1), nodes, updates))
    {
      cancel := cancel || (2 * i + 1 < |flags| && flags[2 * i + 1]);
      if cancel {
        CancelPointIs(c0, flags, |currentOrder|, 2 * i + 1);
        PlayedAt(start, log, currentOrder, 2 * i + 1, CancelPoint(c0, flags, |currentOrder|), nodes, updates);
        return true;
      }
      QuietAfter(c0, flags, i);
      var nodeId := currentOrder[i];
      ghost var nodes0, updates0 := nodes, updates;
      nodes := nodes[nodeId := Visited(i + 1)];
      updates := updates + [Update(nodeId, Visited(i + 1))];
      PlayVisit(start, log, currentOrder, i, nodes0, updates0, nodes, updates);
      return false;
    }

    /** `startTraversal`: nothing without a network; otherwise mark the run as running with
        the flag down, and highlight the current order. */
    method StartTraversal(flags: seq<bool>)
      modifies this`nodes, this`cancel, this`running, this`currentStep, this`updates, page`isRunning
      ensures !networkReady ==> (
        && nodes == old(nodes) && cancel == old(cancel) && running == old(running)
        && currentStep == old(currentStep) && updates == old(updates) && page.isRunning == old(page.isRunning))
      ensures networkReady ==> var cp := CancelPoint(false, flags, |orderRef|);
        && nodes == Outcome(ResetAll(old(nodes)), orderRef, false, flags)
        && updates == old(updates) + Trace(orderRef, cp)
        && cancel == (cp < 2 * |orderRef|)
        && !running && currentStep == -1 && !page.isRunning
    {
      if !networkReady {
        return;
      }
      running := true;
      cancel := false;
      HighlightTraversal(flags);
    }

    /** The run effect: nothing unless the page is running, the network exists and the order
        is not empty. A run still marked as running is first told to cancel and, after a
        pause taken here as immediate, the flags are replaced by fresh ones; either way the
        traversal then starts. */
    method RunEffect(flags: seq<bool>)
      modifies this`nodes, this`cancel, this`running, this`currentStep, this`updates, page`isRunning
      ensures !old(page.isRunning) || !networkReady || page.order == [] ==> (
        && nodes == old(nodes) && cancel == old(cancel) && running == old(running)
        && currentStep == old(currentStep) && updates == old(updates) && page.isRunning == old(page.isRunning))
      ensures old(page.isRunning) && networkReady && page.order != [] ==> var cp := CancelPoint(false, flags, |orderRef|);
        && nodes == Outcome(ResetAll(old(nodes)), orderRef, false, flags)
        && updates == old(updates) + Trace(orderRef, cp)
        && cancel == (cp < 2 * |orderRef|)
        && !running && currentStep == -1 && !page.isRunning
    {
      if !page.isRunning || !networkReady || |page.order| == 0 {
        return;
      }
      if running {
        cancel := true;
        cancel, running := false, false;
        StartTraversal(flags);
      } else {
        StartTraversal(flags);
      }
    }

    /** The effects after a render, in the order they are declared: `orderRef` takes the
        `order` prop, then the run effect reacts to it. */
    method AfterRender(flags: seq<bool>)
      modifies this`nodes, this`cancel, this`running, this`currentStep, this`updates, this`orderRef, page`isRunning
      ensures orderRef == page.order
      ensures !old(page.isRunning) || !networkReady || page.order == [] ==> (
        && nodes == old(nodes) && cancel == old(cancel) && running == old(running)
        && currentStep == old(currentStep) && updates == old(updates) && page.isRunning == old(page.isRunning))
      ensures old(page.isRunning) && networkReady && page.order != [] ==> var cp := CancelPoint(false, flags, |page.order|);
        && nodes == Outcome(ResetAll(old(nodes)), page.order, false, flags)
        && updates == old(updates) + Trace(page.order, cp)
        && cancel == (cp < 2 * |page.order|)
        && !running && currentStep == -1 && !page.isRunning
    {
      SyncOrder();
      RunEffect(flags);
    }

    /** The run button followed by the render it causes: when no run is in progress and the
        network exists, the selected algorithm's order is computed and highlighted from a
        reset dataset, and the page is idle again at the end. Without a network the order is
        published and the page stays marked as running, with the dataset untouched. A click
        during a run changes no state, so nothing renders and no effect runs. */
    method ClickRun(flags: seq<bool>)
      modifies page, this`nodes, this`cancel, this`running, this`currentStep, this`updates, this`orderRef
      ensures page.algorithm == old(page.algorithm)
      ensures !old(page.isRunning) && networkReady ==> var order := RunOrder(page.algorithm);
        var cp := CancelPoint(false, flags, |order|);
        && page.order == order && orderRef == order
        && nodes == Outcome(ResetAll(old(nodes)), order, false, flags)
        && updates == old(updates) + Trace(order, cp)
        && cancel == (cp < 2 * |order|)
        && !running && currentStep == -1 && !page.isRunning
      ensures !old(page.isRunning) && !networkReady ==> (
        && page.order == RunOrder(page.algorithm) && orderRef == page.order && page.isRunning
        && nodes == old(nodes) && updates == old(updates) && cancel == old(cancel)
        && running == old(running) && currentStep == old(currentStep))
      ensures old(page.isRunning) ==> (
        && page.order == old(page.order) && page.isRunning
        && nodes == old(nodes) && updates == old(updates) && cancel == old(cancel) && orderRef == old(orderRef)
        && running == old(running) && currentStep == old(currentStep))
    {
      if page.isRunning {
        page.RunAlgorithm();
        return;
      }
      page.RunAlgorithm();
      AfterRender(flags);
    }
  }
}
