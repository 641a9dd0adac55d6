/** Directed graphs given as an adjacency map from node identifier to its ordered successor list,
    where an identifier with no entry has no successors. */
module Graphs {

  type Graph = map<string, seq<string>>

  /** `graph[node] || []`: the listed successors, or none when the key is missing. */
  function Succ(g: Graph, u: string): seq<string> {
    if u in g then g[u] else []
  }

  /** `keys` lists the nodes level by level: the successors of `keys[j]` are exactly the span
      `keys[first[j]..first[j + 1]]` of a table `first` that ascends and starts every span after
      its parent. */
  predicate LevelListing(g: Graph, keys: seq<string>, first: seq<nat>) {
    && |first| == |keys| + 1 && first[|keys|] == |keys|
    && (forall j {:trigger first[j]} :: 0 <= j < |keys| ==> j < first[j] <= first[j + 1] <= |keys|)
    && (forall j :: 0 <= j < |keys| ==> Succ(g, keys[j]) == keys[first[j]..first[j + 1]])
  }

  /** The ids a sequence lists. */
  function Elems(s: seq<string>): set<string> {
    set x | x in s
  }

  predicate NoDup(s: seq<string>) {
    forall i, j :: 0 <= i < j < |s| ==> s[i] != s[j]
  }

  /** Every identifier a traversal from `start` can ever hold: the start, the keys and every listed successor. */
  function Universe(g: Graph, start: string): (u: set<string>)
    ensures start in u && g.Keys <= u
    ensures forall v, w :: v in g && w in g[v] ==> w in u
  {
    {start} + g.Keys + (set v, i | v in g && 0 <= i < |g[v]| :: g[v][i])
  }

  /** Every listed successor lies in `u`. */
  predicate SuccClosed(g: Graph, u: set<string>) {
    forall v, w :: v in g && w in g[v] ==> w in u
  }

  lemma UniverseClosed(g: Graph, start: string)
    ensures SuccClosed(g, Universe(g, start))
  {
  }

  /** Adding an element of `u` that is not yet in `v` leaves fewer elements of `u` outside. */
  lemma FreshShrinks(u: set<string>, v: set<string>, x: string)
    requires x in u && x !in v
    ensures |u - (v + {x})| < |u - v|
  {
    assert u - v == (u - (v + {x})) + {x};
  }

  /** Adding elements never leaves more elements of `u` outside. */
  lemma GrowNoLarger(u: set<string>, v: set<string>, w: set<string>)
    ensures |u - (v + w)| <= |u - v|
  {
    var a, b := u - (v + w), u - v;
    assert b == a + (b - a);
    assert a * (b - a) == {};
  }

  /** `p` follows listed edges from its first to its last element. */
  ghost predicate Walk(g: Graph, p: seq<string>) {
    |p| > 0 && forall i :: 0 <= i < |p| - 1 ==> p[i + 1] in Succ(g, p[i])
  }

  /** `v` is reachable from `s` along a walk none of whose nodes lies in `avoid`. */
  ghost predicate ReachableVia(g: Graph, s: string, v: string, avoid: set<string>) {
    exists p :: Walk(g, p) && p[0] == s && p[|p| - 1] == v && Elems(p) !! avoid
  }

  ghost predicate Reachable(g: Graph, s: string, v: string) {
    ReachableVia(g, s, v, {})
  }

  lemma ReachableStart(g: Graph, s: string, avoid: set<string>)
    requires s !in avoid
    ensures ReachableVia(g, s, s, avoid)
  {
    assert Walk(g, [s]) && Elems([s]) == {s};
  }

  lemma ReachableExtend(g: Graph, s: string, u: string, w: string, avoid: set<string>)
    requires ReachableVia(g, s, u, avoid)
    requires w in Succ(g, u) && w !in avoid
    ensures ReachableVia(g, s, w, avoid)
  {
    var p :| Walk(g, p) && p[0] == s && p[|p| - 1] == u && Elems(p) !! avoid;
    var q := p + [w];
    assert Elems(q) == Elems(p) + {w};
    assert Walk(g, q);
  }

  /** A set that holds `s` and every successor, outside `avoid`, of each of its members
      holds everything reachable from `s` while avoiding `avoid`. */
  lemma {:induction false} ClosedHoldsReachable(g: Graph, s: string, r: set<string>, avoid: set<string>, v: string)
    requires s in r
    requires forall u, w :: u in r && w in Succ(g, u) && w !in avoid ==> w in r
    requires ReachableVia(g, s, v, avoid)
    ensures v in r
  {
    var p :| Walk(g, p) && p[0] == s && p[|p| - 1] == v && Elems(p) !! avoid;
    var k := 0;
    while k < |p| - 1
      invariant 0 <= k < |p| && p[k] in r
    {
      assert p[k + 1] in Succ(g, p[k]) && p[k + 1] in Elems(p);
      k := k + 1;
    }
  }

  /** Avoiding nothing extra costs nothing: when `x` cannot be reached at all, avoiding it changes no answer. */
  lemma AvoidUnreachable(g: Graph, s: string, x: string, v: string)
    requires !Reachable(g, s, x)
    ensures ReachableVia(g, s, v, {x}) <==> Reachable(g, s, v)
  {
    if Reachable(g, s, v) {
      var p :| Walk(g, p) && p[0] == s && p[|p| - 1] == v && Elems(p) !! {};
      forall k | 0 <= k < |p| ensures p[k] != x {
        var q := p[..k + 1];
        assert Walk(g, q) && q[0] == s && Elems(q) !! {};
      }
      assert Elems(p) !! {x};
    }
  }

  /** A list without repetitions has as many distinct members as entries. */
  lemma {:induction false} NoDupCard(s: seq<string>)
    requires NoDup(s)
    ensures |Elems(s)| == |s|
  {
    if s != [] {
      NoDupCard(s[1..]);
      assert Elems(s) == Elems(s[1..]) + {s[0]};
      assert s[0] !in s[1..];
    }
  }

  lemma NoDupConcat(a: seq<string>, b: seq<string>)
    requires NoDup(a) && NoDup(b) && Elems(a) !! Elems(b)
    ensures NoDup(a + b)
  {
    forall i, j | 0 <= i < j < |a + b| ensures (a + b)[i] != (a + b)[j] {
      if j >= |a| && i < |a| {
        assert (a + b)[i] in Elems(a) && (a + b)[j] in Elems(b);
      }
    }
  }

  function Count(s: seq<string>, x: string): (n: nat)
    ensures n <= |s|
    ensures n == 0 <==> x !in s
  {
    if s == [] then 0 else (if s[0] == x then 1 else 0) + Count(s[1..], x)
  }

  /** In a list without repetitions every member occurs exactly once. */
  lemma {:induction false} CountNoDup(s: seq<string>, x: string)
    requires NoDup(s) && x in s
    ensures Count(s, x) == 1
  {
    if s[0] != x {
      CountNoDup(s[1..], x);
    } else {
      assert x !in s[1..];
    }
  }
}
