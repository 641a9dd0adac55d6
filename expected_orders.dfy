/** The orders runAlgorithm (src/app/page.tsx) produces on the fixed graph of
    src/components/graphConfig.ts: breadth-first visits the nodes in key order, "1" to "20",
    and depth-first visits them in pre-order along the listed successor order. */
module ExpectedOrders {
  import opened Graphs
  import opened GraphConfig
  import opened Traversal

  /** The expected depth-first order. */
  const DfsExpected: seq<string> :=
    ["1", "2", "5", "10", "6", "11", "17", "12", "3", "7", "8", "13", "18", "14", "4", "9", "15", "16", "19", "20"]

  /** Breadth-first search from "1" records every key in key order: the keys are listed
      level by level. */
  lemma BfsVisitsKeysInOrder()
    ensures BfsOrder(GraphData, Root) == Keys
  {
    ChildSpans();
    KeysListed();
    KeysStartAtRoot();
    LevelOrderFromFirst(GraphData, Keys, FirstChild);
  }

  /** Where the subtree of each node of `DfsExpected` ends: the subtree of `DfsExpected[p]`
      occupies positions `p` to `SubtreeEnds[p] - 1`. */
  const SubtreeEnds: seq<nat> := [20, 8, 4, 4, 8, 7, 7, 8, 14, 10, 14, 13, 13, 14, 20, 20, 17, 20, 19, 20]

  /** The row of each position of `DfsExpected`, one lemma per row, grouped below. They are
      split this finely on purpose: checked together, the rows over the literal map and
      tables make each proof too costly for the solver. */
  lemma PreorderRowAt0()
    ensures PreorderRow(GraphData, DfsExpected, SubtreeEnds, 0)
  {
    assert DfsExpected[0] == "1" && SubtreeEnds[0] == 20;
  }

  lemma PreorderRowAt1()
    ensures PreorderRow(GraphData, DfsExpected, SubtreeEnds, 1)
  {
    assert DfsExpected[1] == "2" && SubtreeEnds[1] == 8;
  }

  lemma PreorderRowAt2()
    ensures PreorderRow(GraphData, DfsExpected, SubtreeEnds, 2)
  {
    assert DfsExpected[2] == "5" && SubtreeEnds[2] == 4;
  }

  lemma PreorderRowAt3()
    ensures PreorderRow(GraphData, DfsExpected, SubtreeEnds, 3)
  {
    assert DfsExpected[3] == "10" && SubtreeEnds[3] == 4;
  }

  lemma PreorderRowAt4()
    ensures PreorderRow(GraphData, DfsExpected, SubtreeEnds, 4)
  {
    assert DfsExpected[4] == "6" && SubtreeEnds[4] == 8;
  }

  lemma PreorderRowAt5()
    ensures PreorderRow(GraphData, DfsExpected, SubtreeEnds, 5)
  {
    assert DfsExpected[5] == "11" && SubtreeEnds[5] == 7;
  }

  lemma PreorderRowAt6()
    ensures PreorderRow(GraphData, DfsExpected, SubtreeEnds, 6)
  {
    assert DfsExpected[6] == "17" && SubtreeEnds[6] == 7;
  }

  lemma PreorderRowAt7()
    ensures PreorderRow(GraphData, DfsExpected, SubtreeEnds, 7)
  {
    assert DfsExpected[7] == "12" && SubtreeEnds[7] == 8;
  }

  lemma PreorderRowAt8()
    ensures PreorderRow(GraphData, DfsExpected, SubtreeEnds, 8)
  {
    assert DfsExpected[8] == "3" && SubtreeEnds[8] == 14;
  }

  lemma PreorderRowAt9()
    ensures PreorderRow(GraphData, DfsExpected, SubtreeEnds, 9)
  {
    assert DfsExpected[9] == "7" && SubtreeEnds[9] == 10;
  }

  lemma PreorderRowAt10()
    ensures PreorderRow(GraphData, DfsExpected, SubtreeEnds, 10)
  {
    assert DfsExpected[10] == "8" && SubtreeEnds[10] == 14;
  }

  lemma PreorderRowAt11()
    ensures PreorderRow(GraphData, DfsExpected, SubtreeEnds, 11)
  {
    assert DfsExpected[11] == "13" && SubtreeEnds[11] == 13;
  }

  lemma PreorderRowAt12()
    ensures PreorderRow(GraphData, DfsExpected, SubtreeEnds, 12)
  {
    assert DfsExpected[12] == "18" && SubtreeEnds[12] == 13;
  }

  lemma PreorderRowAt13()
    ensures PreorderRow(GraphData, DfsExpected, SubtreeEnds, 13)
  {
    assert DfsExpected[13] == "14" && SubtreeEnds[13] == 14;
  }

  lemma PreorderRowAt14()
    ensures PreorderRow(GraphData, DfsExpected, SubtreeEnds, 14)
  {
    assert DfsExpected[14] == "4" && SubtreeEnds[14] == 20;
  }

  lemma PreorderRowAt15()
    ensures PreorderRow(GraphData, DfsExpected, SubtreeEnds, 15)
  {
    assert DfsExpected[15] == "9" && SubtreeEnds[15] == 20;
  }

  lemma PreorderRowAt16()
    ensures PreorderRow(GraphData, DfsExpected, SubtreeEnds, 16)
  {
    assert DfsExpected[16] == "15" && SubtreeEnds[16] == 17;
  }

  lemma PreorderRowAt17()
    ensures PreorderRow(GraphData, DfsExpected, SubtreeEnds, 17)
  {
    assert DfsExpected[17] == "16" && SubtreeEnds[17] == 20;
  }

  lemma PreorderRowAt18()
    ensures PreorderRow(GraphData, DfsExpected, SubtreeEnds, 18)
  {
    assert DfsExpected[18] == "19" && SubtreeEnds[18] == 19;
  }

  lemma PreorderRowAt19()
    ensures PreorderRow(GraphData, DfsExpected, SubtreeEnds, 19)
  {
    assert DfsExpected[19] == "20" && SubtreeEnds[19] == 20;
  }

  lemma PreorderRows0()
    ensures forall p :: 0 <= p < 5 ==> PreorderRow(GraphData, DfsExpected, SubtreeEnds, p)
  {
    PreorderRowAt0();
    PreorderRowAt1();
    PreorderRowAt2();
    PreorderRowAt3();
    PreorderRowAt4();
  }

  lemma PreorderRows5()
    ensures forall p :: 5 <= p < 10 ==> PreorderRow(GraphData, DfsExpected, SubtreeEnds, p)
  {
    PreorderRowAt5();
    PreorderRowAt6();
    PreorderRowAt7();
    PreorderRowAt8();
    PreorderRowAt9();
  }

  lemma PreorderRows10()
    ensures forall p :: 10 <= p < 15 ==> PreorderRow(GraphData, DfsExpected, SubtreeEnds, p)
  {
    PreorderRowAt10();
    PreorderRowAt11();
    PreorderRowAt12();
    PreorderRowAt13();
    PreorderRowAt14();
  }

  lemma PreorderRows15()
    ensures forall p :: 15 <= p < 20 ==> PreorderRow(GraphData, DfsExpected, SubtreeEnds, p)
  {
    PreorderRowAt15();
    PreorderRowAt16();
    PreorderRowAt17();
    PreorderRowAt18();
    PreorderRowAt19();
  }

  /** `DfsExpected` lists each key once. */
  lemma DfsExpectedIsPermutation()
    ensures NoDup(DfsExpected) && Elems(DfsExpected) == GraphData.Keys
  {
  }

  /** Depth-first search from "1" records the nodes in pre-order, children in listed order. */
  lemma DfsVisitsPreorder()
    ensures DfsOrder(GraphData, Root) == DfsExpected
  {
    DfsExpectedIsPermutation();
    PreorderRows0();
    PreorderRows5();
    PreorderRows10();
    PreorderRows15();
    PreorderFromFirst(GraphData, DfsExpected, SubtreeEnds);
  }

  /** Every key, and nothing else, is reachable from "1"; both traversals record exactly the
      keys, so they visit the same set. */
  lemma BothVisitEveryKey()
    ensures forall v :: Reachable(GraphData, Root, v) <==> v in GraphData
    ensures Elems(BfsOrder(GraphData, Root)) == GraphData.Keys
    ensures Elems(DfsOrder(GraphData, Root)) == GraphData.Keys
  {
    KeysListed();
    BfsVisitsKeysInOrder();
    DfsVisitsPreorder();
    DfsExpectedIsPermutation();
    DfsOrderSpec(GraphData, Root);
  }

  /** Starting at a leaf such as "7", either traversal records that leaf alone. */
  lemma LeafStartAlone()
    ensures BfsOrder(GraphData, "7") == ["7"] && DfsOrder(GraphData, "7") == ["7"]
  {
    assert Succ(GraphData, "7") == [];
    EmptyStartAlone(GraphData, "7");
  }
}
