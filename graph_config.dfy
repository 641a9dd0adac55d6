/** The fixed twenty-node graph every traversal runs on (`graphData`, src/components/graphConfig.ts). */
module GraphConfig {
  import opened Decimal
  import opened Graphs

  /** The adjacency map exactly as listed: identifier to its ordered successors. */
  const GraphData: Graph := map[
    "1" := ["2", "3", "4"],
    "2" := ["5", "6"],
    "3" := ["7", "8"],
    "4" := ["9"],
    "5" := ["10"],
    "6" := ["11", "12"],
    "7" := [],
    "8" := ["13", "14"],
    "9" := ["15", "16"],
    "10" := [],
    "11" := ["17"],
    "12" := [],
    "13" := ["18"],
    "14" := [],
    "15" := [],
    "16" := ["19", "20"],
    "17" := [],
    "18" := [],
    "19" := [],
    "20" := []
  ]

  /** The keys in the order `Object.keys` yields them: integer-like keys ascend numerically,
      which here is also the order of the literal. */
  const Keys: seq<string> := [
    "1", "2", "3", "4", "5", "6", "7", "8", "9", "10",
    "11", "12", "13", "14", "15", "16", "17", "18", "19", "20"
  ]

  /** The start node of every traversal. */
  const Root: string := "1"

  lemma KeysNumbered()
    ensures forall i :: 0 <= i < |Keys| ==> Keys[i] == NatToString(i + 1)
  {
  }

  /** Distinct positions hold distinct numerals, so no key is listed twice. */
  lemma KeysDistinct()
    ensures NoDup(Keys)
  {
    KeysNumbered();
    forall i, j | 0 <= i < j < |Keys| ensures Keys[i] != Keys[j] {
      ParsePrinted(i + 1);
      ParsePrinted(j + 1);
    }
  }

  /** `Keys` lists each key of `graphData` once, the i-th being the numeral of i + 1. */
  lemma KeysListed()
    ensures NoDup(Keys) && Elems(Keys) == GraphData.Keys
    ensures forall i :: 0 <= i < |Keys| ==> Keys[i] == NatToString(i + 1)
  {
    KeysDistinct();
    KeysNumbered();
  }

  /** The first key is the root, and no key is empty. */
  lemma KeysStartAtRoot()
    ensures Keys != [] && Keys[0] == Root && "" !in Keys
  {
  }

  /** The keys are exactly the numerals "1" through "20". */
  lemma KeysAreOneToTwenty()
    ensures |GraphData| == 20
    ensures forall n :: 1 <= n <= 20 ==> NatToString(n) in GraphData
    ensures forall k :: k in GraphData ==> IsNumeral(k) && 1 <= ParseDecimal(k) <= 20
  {
    KeysListed();
    NoDupCard(Keys);
    forall k | k in GraphData ensures IsNumeral(k) && 1 <= ParseDecimal(k) <= 20 {
      var i :| 0 <= i < |Keys| && Keys[i] == k;
      ParsePrinted(i + 1);
    }
    forall n | 1 <= n <= 20 ensures NatToString(n) in GraphData {
      assert Keys[n - 1] in Elems(Keys);
    }
  }

  /** Every listed successor is itself a key: the graph is closed. */
  lemma Closed()
    ensures forall u, w :: u in GraphData && w in GraphData[u] ==> w in GraphData
  {
  }

  /** The numeric reading of an identifier; -1 for one that is not a numeral. */
  function Rank(id: string): int {
    if IsNumeral(id) then ParseDecimal(id) else -1
  }

  /** The i-th key reads as the number i + 1. */
  lemma RankOfKeys()
    ensures forall i :: 0 <= i < |Keys| ==> IsNumeral(Keys[i]) && Rank(Keys[i]) == i + 1
  {
    KeysListed();
    forall i | 0 <= i < |Keys| ensures IsNumeral(Keys[i]) && Rank(Keys[i]) == i + 1 {
      ParsePrinted(i + 1);
    }
  }

  /** For keys read as 1, 2, 3, ... whose successors lie in spans that start after the key
      itself, every edge leads upward. */
  lemma SpansAscend(g: Graph, keys: seq<string>, first: seq<nat>)
    requires Elems(keys) == g.Keys && LevelListing(g, keys, first)
    requires forall j :: 0 <= j < |keys| ==> IsNumeral(keys[j]) && Rank(keys[j]) == j + 1
    ensures forall u, i :: u in g && 0 <= i < |g[u]| ==>
              IsNumeral(u) && IsNumeral(g[u][i]) && Rank(u) < Rank(g[u][i])
  {
    forall u, i | u in g && 0 <= i < |g[u]|
      ensures IsNumeral(u) && IsNumeral(g[u][i]) && Rank(u) < Rank(g[u][i])
    {
      var j :| 0 <= j < |keys| && keys[j] == u;
      assert Succ(g, keys[j]) == keys[first[j]..first[j + 1]];
      assert g[u][i] == keys[first[j] + i];
    }
  }

  /** Every edge leads from a numerically smaller identifier to a larger one. */
  lemma EdgesAscend()
    ensures forall u, i :: u in GraphData && 0 <= i < |GraphData[u]| ==>
              IsNumeral(u) && IsNumeral(GraphData[u][i]) && Rank(u) < Rank(GraphData[u][i])
  {
    RankOfKeys();
    KeysListed();
    ChildSpans();
    SpansAscend(GraphData, Keys, FirstChild);
  }

  /** Along any walk of at least one edge the rank strictly grows, so no walk returns to its start:
      the graph is acyclic. */
  lemma {:induction false} Acyclic(p: seq<string>)
    requires Walk(GraphData, p) && |p| >= 2
    ensures Rank(p[0]) < Rank(p[|p| - 1])
    ensures p[0] != p[|p| - 1]
  {
    EdgesAscend();
    var k := 1;
    while k < |p| - 1
      invariant 1 <= k < |p| && Rank(p[0]) < Rank(p[k])
    {
      assert p[k] in GraphData by { assert p[k + 1] in Succ(GraphData, p[k]); }
      k := k + 1;
    }
  }

  /** All successor lists concatenated in key order. */
  function AllSuccessors(g: Graph, keys: seq<string>): seq<string> {
    if keys == [] then [] else Succ(g, keys[0]) + AllSuccessors(g, keys[1..])
  }

  /** The concatenation lists exactly the successors of the given keys. */
  lemma {:induction false} AllSuccessorsMembers(g: Graph, keys: seq<string>)
    ensures forall w :: w in AllSuccessors(g, keys) <==> exists k :: k in keys && w in Succ(g, k)
  {
    if keys != [] {
      AllSuccessorsMembers(g, keys[1..]);
      assert forall k :: k in keys <==> k == keys[0] || k in keys[1..];
    }
  }

  /** How many times `v` is listed as a successor. */
  function InDegree(v: string): nat {
    Count(AllSuccessors(GraphData, Keys), v)
  }

  /** Where each key's successors begin in `Keys`: the successors of `Keys[i]` are exactly
      `Keys[FirstChild[i]..FirstChild[i + 1]]`. The graph lists its nodes level by level. */
  const FirstChild: seq<nat> := [1, 4, 6, 8, 9, 10, 12, 12, 14, 16, 16, 17, 17, 18, 18, 18, 20, 20, 20, 20, 20]

  /** The successors of each key, one lemma per key. The facts about the literal map are
      split this finely on purpose: proved together, the lookups in the twenty-entry map and
      the slices of the twenty-entry key list make each proof too costly for the solver. */
  lemma ChildSpanOf1()
    ensures Succ(GraphData, Keys[0]) == Keys[FirstChild[0]..FirstChild[1]]
  {
    assert Keys[0] == "1" && FirstChild[0] == 1 && FirstChild[1] == 4;
    assert Keys[1..4] == ["2", "3", "4"];
  }

  lemma ChildSpanOf2()
    ensures Succ(GraphData, Keys[1]) == Keys[FirstChild[1]..FirstChild[2]]
  {
    assert Keys[1] == "2" && FirstChild[1] == 4 && FirstChild[2] == 6;
    assert Keys[4..6] == ["5", "6"];
  }

  lemma ChildSpanOf3()
    ensures Succ(GraphData, Keys[2]) == Keys[FirstChild[2]..FirstChild[3]]
  {
    assert Keys[2] == "3" && FirstChild[2] == 6 && FirstChild[3] == 8;
    assert Keys[6..8] == ["7", "8"];
  }

  lemma ChildSpanOf4()
    ensures Succ(GraphData, Keys[3]) == Keys[FirstChild[3]..FirstChild[4]]
  {
    assert Keys[3] == "4" && FirstChild[3] == 8 && FirstChild[4] == 9;
    assert Keys[8..9] == ["9"];
  }

  lemma ChildSpanOf5()
    ensures Succ(GraphData, Keys[4]) == Keys[FirstChild[4]..FirstChild[5]]
  {
    assert Keys[4] == "5" && FirstChild[4] == 9 && FirstChild[5] == 10;
    assert Keys[9..10] == ["10"];
  }

  lemma ChildSpanOf6()
    ensures Succ(GraphData, Keys[5]) == Keys[FirstChild[5]..FirstChild[6]]
  {
    assert Keys[5] == "6" && FirstChild[5] == 10 && FirstChild[6] == 12;
    assert Keys[10..12] == ["11", "12"];
  }

  lemma ChildSpanOf7()
    ensures Succ(GraphData, Keys[6]) == Keys[FirstChild[6]..FirstChild[7]]
  {
    assert Keys[6] == "7" && FirstChild[6] == 12 && FirstChild[7] == 12;
    assert Keys[12..12] == [];
  }

  lemma ChildSpanOf8()
    ensures Succ(GraphData, Keys[7]) == Keys[FirstChild[7]..FirstChild[8]]
  {
    assert Keys[7] == "8" && FirstChild[7] == 12 && FirstChild[8] == 14;
    assert Keys[12..14] == ["13", "14"];
  }

  lemma ChildSpanOf9()
    ensures Succ(GraphData, Keys[8]) == Keys[FirstChild[8]..FirstChild[9]]
  {
    assert Keys[8] == "9" && FirstChild[8] == 14 && FirstChild[9] == 16;
    assert Keys[14..16] == ["15", "16"];
  }

  lemma ChildSpanOf10()
    ensures Succ(GraphData, Keys[9]) == Keys[FirstChild[9]..FirstChild[10]]
  {
    assert Keys[9] == "10" && FirstChild[9] == 16 && FirstChild[10] == 16;
    assert Keys[16..16] == [];
  }

  lemma ChildSpanOf11()
    ensures Succ(GraphData, Keys[10]) == Keys[FirstChild[10]..FirstChild[11]]
  {
    assert Keys[10] == "11" && FirstChild[10] == 16 && FirstChild[11] == 17;
    assert Keys[16..17] == ["17"];
  }

  lemma ChildSpanOf12()
    ensures Succ(GraphData, Keys[11]) == Keys[FirstChild[11]..FirstChild[12]]
  {
    assert Keys[11] == "12" && FirstChild[11] == 17 && FirstChild[12] == 17;
    assert Keys[17..17] == [];
  }

  lemma ChildSpanOf13()
    ensures Succ(GraphData, Keys[12]) == Keys[FirstChild[12]..FirstChild[13]]
  {
    assert Keys[12] == "13" && FirstChild[12] == 17 && FirstChild[13] == 18;
    assert Keys[17..18] == ["18"];
  }

  lemma ChildSpanOf14()
    ensures Succ(GraphData, Keys[13]) == Keys[FirstChild[13]..FirstChild[14]]
  {
    assert Keys[13] == "14" && FirstChild[13] == 18 && FirstChild[14] == 18;
    assert Keys[18..18] == [];
  }

  lemma ChildSpanOf15()
    ensures Succ(GraphData, Keys[14]) == Keys[FirstChild[14]..FirstChild[15]]
  {
    assert Keys[14] == "15" && FirstChild[14] == 18 && FirstChild[15] == 18;
    assert Keys[18..18] == [];
  }

  lemma ChildSpanOf16()
    ensures Succ(GraphData, Keys[15]) == Keys[FirstChild[15]..FirstChild[16]]
  {
    assert Keys[15] == "16" && FirstChild[15] == 18 && FirstChild[16] == 20;
    assert Keys[18..20] == ["19", "20"];
  }

  lemma ChildSpanOf17()
    ensures Succ(GraphData, Keys[16]) == Keys[FirstChild[16]..FirstChild[17]]
  {
    assert Keys[16] == "17" && FirstChild[16] == 20 && FirstChild[17] == 20;
    assert Keys[20..20] == [];
  }

  lemma ChildSpanOf18()
    ensures Succ(GraphData, Keys[17]) == Keys[FirstChild[17]..FirstChild[18]]
  {
    assert Keys[17] == "18" && FirstChild[17] == 20 && FirstChild[18] == 20;
    assert Keys[20..20] == [];
  }

  lemma ChildSpanOf19()
    ensures Succ(GraphData, Keys[18]) == Keys[FirstChild[18]..FirstChild[19]]
  {
    assert Keys[18] == "19" && FirstChild[18] == 20 && FirstChild[19] == 20;
    assert Keys[20..20] == [];
  }

  lemma ChildSpanOf20()
    ensures Succ(GraphData, Keys[19]) == Keys[FirstChild[19]..FirstChild[20]]
  {
    assert Keys[19] == "20" && FirstChild[19] == 20 && FirstChild[20] == 20;
    assert Keys[20..20] == [];
  }

  lemma ChildSpansFrom0()
    ensures forall i :: 0 <= i < 4 ==> Succ(GraphData, Keys[i]) == Keys[FirstChild[i]..FirstChild[i + 1]]
  {
    ChildSpanOf1();
    ChildSpanOf2();
    ChildSpanOf3();
    ChildSpanOf4();
  }

  lemma ChildSpansFrom4()
    ensures forall i :: 4 <= i < 8 ==> Succ(GraphData, Keys[i]) == Keys[FirstChild[i]..FirstChild[i + 1]]
  {
    ChildSpanOf5();
    ChildSpanOf6();
    ChildSpanOf7();
    ChildSpanOf8();
  }

  lemma ChildSpansFrom8()
    ensures forall i :: 8 <= i < 12 ==> Succ(GraphData, Keys[i]) == Keys[FirstChild[i]..FirstChild[i + 1]]
  {
    ChildSpanOf9();
    ChildSpanOf10();
    ChildSpanOf11();
    ChildSpanOf12();
  }

  lemma ChildSpansFrom12()
    ensures forall i :: 12 <= i < 16 ==> Succ(GraphData, Keys[i]) == Keys[FirstChild[i]..FirstChild[i + 1]]
  {
    ChildSpanOf13();
    ChildSpanOf14();
    ChildSpanOf15();
    ChildSpanOf16();
  }

  lemma ChildSpansFrom16()
    ensures forall i :: 16 <= i < 20 ==> Succ(GraphData, Keys[i]) == Keys[FirstChild[i]..FirstChild[i + 1]]
  {
    ChildSpanOf17();
    ChildSpanOf18();
    ChildSpanOf19();
    ChildSpanOf20();
  }

  /** The table has one entry per key and one more; its spans ascend and start after their parent. */
  lemma FirstChildAscends()
    ensures |FirstChild| == |Keys| + 1 && FirstChild[|Keys|] == |Keys| && FirstChild[0] == 1
    ensures forall j {:trigger FirstChild[j]} :: 0 <= j < |Keys| ==> j < FirstChild[j] <= FirstChild[j + 1] <= |Keys|
  {
  }

  /** The keys are listed level by level, spans given by `FirstChild`. */
  lemma ChildSpans()
    ensures LevelListing(GraphData, Keys, FirstChild) && FirstChild[0] == 1
  {
    FirstChildAscends();
    ChildSpansFrom0();
    ChildSpansFrom4();
    ChildSpansFrom8();
    ChildSpansFrom12();
    ChildSpansFrom16();
  }

  /** Two adjacent slices of a sequence make up the slice from the first one on. Kept as a
      lemma so that `SpansConcatenate` sees only this instance of the slice axioms. */
  lemma SliceJoin(s: seq<string>, a: nat, b: nat)
    requires a <= b <= |s|
    ensures s[a..b] + s[b..] == s[a..]
  {
  }

  /** The successors of `keys[i..]` are those of `keys[i]` followed by those of the rest. */
  lemma AllSuccessorsFrom(g: Graph, keys: seq<string>, i: nat)
    requires i < |keys|
    ensures AllSuccessors(g, keys[i..]) == Succ(g, keys[i]) + AllSuccessors(g, keys[i + 1..])
  {
    assert keys[i..][1..] == keys[i + 1..];
  }

  /** When every key's successors are the span of `keys` between consecutive entries of an
      ascending table, the successors of `keys[i..]` together are `keys[first[i]..]`. */
  lemma {:induction false} SpansConcatenate(g: Graph, keys: seq<string>, first: seq<nat>, i: nat)
    requires LevelListing(g, keys, first) && i <= |keys|
    ensures first[i] <= |keys|
    ensures AllSuccessors(g, keys[i..]) == keys[first[i]..]
    decreases |keys| - i
  {
    if i < |keys| {
      SpansConcatenate(g, keys, first, i + 1);
      var lo, mid := first[i], first[i + 1];
      assert Succ(g, keys[i]) == keys[lo..mid];
      AllSuccessorsFrom(g, keys, i);
      SliceJoin(keys, lo, mid);
    }
  }

  /** Every key but "1" is listed as a successor exactly once, in key order. */
  lemma SuccessorsListedOnce()
    ensures AllSuccessors(GraphData, Keys) == Keys[1..]
  {
    ChildSpans();
    SpansConcatenate(GraphData, Keys, FirstChild, 0);
    assert Keys[0..] == Keys;
  }

  /** When the successors, all listed together, are the keys after the first, the first key
      is nobody's successor and every other key is exactly one key's successor. */
  lemma ListedAfterFirst(g: Graph, keys: seq<string>)
    requires NoDup(keys) && keys != [] && Elems(keys) == g.Keys
    requires AllSuccessors(g, keys) == keys[1..]
    ensures Count(AllSuccessors(g, keys), keys[0]) == 0
    ensures forall v :: v in g && v != keys[0] ==> Count(AllSuccessors(g, keys), v) == 1
  {
    var all := keys[1..];
    forall j | 0 <= j < |all| ensures all[j] != keys[0] {
      assert all[j] == keys[j + 1];
    }
    forall v | v in g && v != keys[0] ensures Count(all, v) == 1 {
      var i :| 0 <= i < |keys| && keys[i] == v;
      assert all[i - 1] == v;
      CountNoDup(all, v);
    }
  }

  /** The root is nobody's successor and every other node is exactly one node's successor:
      together with acyclicity the graph is a tree rooted at "1". */
  lemma TreeRootedAtOne()
    ensures Root in GraphData && InDegree(Root) == 0
    ensures forall v :: v in GraphData && v != Root ==> InDegree(v) == 1
  {
    SuccessorsListedOnce();
    KeysListed();
    ListedAfterFirst(GraphData, Keys);
  }

  /** The listed successor order (which drives traversal order) and the childless nodes. */
  lemma SuccessorLists()
    ensures Succ(GraphData, Root) == ["2", "3", "4"]
    ensures forall k :: k in GraphData ==>
              (GraphData[k] == [] <==> k in ["7", "10", "12", "14", "15", "17", "18", "19", "20"])
  {
  }
}
