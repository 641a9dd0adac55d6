/** The nodes and edges GraphView (src/components/GraphView.tsx) hands to the network view when
    it mounts: one node per key of `graphData`, labelled "Node <id>", and one edge per listed
    successor, source by source in key order and, within a source, in listed order. Shapes,
    colours and fonts are presentation only and are not modelled. */
module GraphElements {
  import opened Graphs
  import opened GraphConfig

  datatype VisNode = VisNode(id: string, labelText: string)

  datatype VisEdge = VisEdge(from: string, to: string)

  /** The label a node starts with. */
  function PlainLabel(id: string): string {
    "Node " + id
  }

  /** `Object.keys(graphData).map(id => ({ id, label: `Node ${id}` }))`, for the keys in the
      order `Object.keys` yields them. */
  function NodesFor(keys: seq<string>): (r: seq<VisNode>)
    ensures |r| == |keys|
    ensures forall i :: 0 <= i < |r| ==> r[i].id == keys[i] && r[i].labelText == PlainLabel(r[i].id)
  {
    if keys == [] then [] else [VisNode(keys[0], PlainLabel(keys[0]))] + NodesFor(keys[1..])
  }

  /** `targets.map(target => ({ from: source, to: target }))`. */
  function EdgesFrom(source: string, targets: seq<string>): (r: seq<VisEdge>)
    ensures |r| == |targets|
    ensures forall i :: 0 <= i < |r| ==> r[i] == VisEdge(source, targets[i])
  {
    if targets == [] then [] else [VisEdge(source, targets[0])] + EdgesFrom(source, targets[1..])
  }

  /** `Object.entries(graphData).flatMap(...)`: the edges of each key in turn. */
  function EdgesFor(g: Graph, keys: seq<string>): (r: seq<VisEdge>)
    ensures |r| == |AllSuccessors(g, keys)|
  {
    if keys == [] then [] else EdgesFrom(keys[0], Succ(g, keys[0])) + EdgesFor(g, keys[1..])
  }

  /** There is an edge for exactly the pairs of a listed key and one of its successors. */
  lemma {:induction false} EdgesForMembers(g: Graph, keys: seq<string>)
    ensures forall e :: e in EdgesFor(g, keys) <==> e.from in keys && e.to in Succ(g, e.from)
  {
    if keys != [] {
      EdgesForMembers(g, keys[1..]);
      var first := EdgesFrom(keys[0], Succ(g, keys[0]));
      assert forall e :: e in first <==> e.from == keys[0] && e.to in Succ(g, keys[0]) by {
        forall e: VisEdge | e in first ensures e.from == keys[0] && e.to in Succ(g, keys[0]) {
          var i :| 0 <= i < |first| && first[i] == e;
        }
        forall e: VisEdge | e.from == keys[0] && e.to in Succ(g, keys[0]) ensures e in first {
          var i :| 0 <= i < |Succ(g, keys[0])| && Succ(g, keys[0])[i] == e.to;
          assert first[i] == e;
        }
      }
      assert forall k :: k in keys <==> k == keys[0] || k in keys[1..];
    }
  }

  /** Read target by target, the edges list exactly the successor lists in key order. */
  lemma {:induction false} EdgeTargets(g: Graph, keys: seq<string>)
    ensures |EdgesFor(g, keys)| == |AllSuccessors(g, keys)|
    ensures forall i :: 0 <= i < |EdgesFor(g, keys)| ==> EdgesFor(g, keys)[i].to == AllSuccessors(g, keys)[i]
  {
    if keys != [] {
      EdgeTargets(g, keys[1..]);
    }
  }

  /** For keys listed without repeats: one node per key. */
  lemma NodesOfKeys(g: Graph, keys: seq<string>)
    requires NoDup(keys) && Elems(keys) == g.Keys
    ensures var nodes := NodesFor(keys);
      && (forall id :: id in g <==> exists i :: 0 <= i < |nodes| && nodes[i].id == id)
      && (forall i, j :: 0 <= i < j < |nodes| ==> nodes[i].id != nodes[j].id)
  {
    var nodes := NodesFor(keys);
    forall id | id in g ensures exists i :: 0 <= i < |nodes| && nodes[i].id == id {
      var i :| 0 <= i < |keys| && keys[i] == id;
      assert nodes[i].id == id;
    }
  }

  /** For keys whose successors, all listed together, are the keys after the first: one
      edge per listed pair, none repeated. */
  lemma EdgesOfListing(g: Graph, keys: seq<string>)
    requires NoDup(keys) && Elems(keys) == g.Keys && keys != []
    requires AllSuccessors(g, keys) == keys[1..]
    ensures var edges := EdgesFor(g, keys);
      && |edges| == |keys| - 1
      && (forall s, t :: VisEdge(s, t) in edges <==> s in g && t in g[s])
      && (forall i, j :: 0 <= i < j < |edges| ==> edges[i] != edges[j])
  {
    var edges := EdgesFor(g, keys);
    EdgeTargets(g, keys);
    EdgesForMembers(g, keys);
    forall i, j | 0 <= i < j < |edges| ensures edges[i] != edges[j] {
      assert edges[i].to == keys[1..][i] && edges[j].to == keys[1..][j];
    }
  }

  /** The mounted graph has one node per key, each with its plain label, and nineteen edges,
      one per listed successor pair, none repeated. */
  lemma MountedElements()
    ensures var nodes := NodesFor(Keys);
      && |nodes| == |GraphData| == 20
      && (forall id :: id in GraphData <==> exists i :: 0 <= i < |nodes| && nodes[i].id == id)
      && (forall i, j :: 0 <= i < j < |nodes| ==> nodes[i].id != nodes[j].id)
    ensures var edges := EdgesFor(GraphData, Keys);
      && |edges| == 19
      && (forall s, t :: VisEdge(s, t) in edges <==> s in GraphData && t in GraphData[s])
      && (forall i, j :: 0 <= i < j < |edges| ==> edges[i] != edges[j])
  {
    KeysListed();
    KeysAreOneToTwenty();
    SuccessorsListedOnce();
    NodesOfKeys(GraphData, Keys);
    EdgesOfListing(GraphData, Keys);
  }
}
