/** `Graph`: adjacency lists in a dict that gives an empty list for a node
    it does not know, and `find_all_paths`, a depth-first search that
    records every walk from `start` that stops the first time it reaches
    `end`. */
module AllPaths {

  /** The adjacency lists, keyed by node. */
  type AdjMap = map<int, seq<int>>

  /** `graph[u]` as the search sees it: a node without a list has none. */
  function SuccOf(g: AdjMap, u: int): seq<int>
  {
    if u in g then g[u] else []
  }

  /** A ranking of nodes; a node without one has rank 0. */
  type RankMap = map<int, nat>

  function Rank(rank: RankMap, u: int): nat
  {
    if u in rank then rank[u] else 0
  }

  /** Two dicts that give every node the same list. */
  ghost predicate SameSucc(g: AdjMap, h: AdjMap)
  {
    forall u :: SuccOf(g, u) == SuccOf(h, u)
  }

  /** Every walk from `u` that has not yet reached `end` moves to a node of
      lower rank: no cycle that avoids `end` can be reached from `u`. This
      is what makes the search from `u` stop. */
  ghost predicate RankedFrom(g: AdjMap, end: int, rank: RankMap, u: int)
    decreases Rank(rank, u)
  {
    u == end ||
    forall k :: 0 <= k < |SuccOf(g, u)| ==>
      Rank(rank, SuccOf(g, u)[k]) < Rank(rank, u) && RankedFrom(g, end, rank, SuccOf(g, u)[k])
  }

  /** The neighbours in `ns` can each be searched from. */
  ghost predicate AllRanked(g: AdjMap, end: int, rank: RankMap, u: int, ns: seq<int>)
  {
    forall k :: 0 <= k < |ns| ==> Rank(rank, ns[k]) < Rank(rank, u) && RankedFrom(g, end, rank, ns[k])
  }

  /** The paths `dfs(u)` adds when `path` is `p`, in the order it adds them:
      at `end` the path with `u` on it, otherwise the paths through each
      neighbour of `u` in adjacency-list order. */
  ghost function Walks(g: AdjMap, end: int, rank: RankMap, p: seq<int>, u: int): seq<seq<int>>
    requires RankedFrom(g, end, rank, u)
    decreases Rank(rank, u), 1, 0
  {
    if u == end then [p + [u]]
    else WalksAll(g, end, rank, p + [u], u, SuccOf(g, u))
  }

  /** The paths through the neighbours `ns` of `u`, one neighbour after the other. */
  ghost function WalksAll(g: AdjMap, end: int, rank: RankMap, p: seq<int>, u: int, ns: seq<int>): seq<seq<int>>
    requires AllRanked(g, end, rank, u, ns)
    decreases Rank(rank, u), 0, |ns|
  {
    if ns == [] then []
    else WalksAll(g, end, rank, p, u, ns[..|ns| - 1]) + Walks(g, end, rank, p, ns[|ns| - 1])
  }

  /** `q` is a walk along the edges of `g` that reaches `end` at its last
      node and not before. */
  predicate IsWalk(g: AdjMap, end: int, q: seq<int>)
  {
    && |q| >= 1
    && q[|q| - 1] == end
    && forall j :: 0 <= j < |q| - 1 ==> q[j] != end && q[j + 1] in SuccOf(g, q[j])
  }

  lemma RankedNeighbours(g: AdjMap, end: int, rank: RankMap, u: int, m: nat)
    requires RankedFrom(g, end, rank, u) && u != end && m <= |SuccOf(g, u)|
    ensures AllRanked(g, end, rank, u, SuccOf(g, u)[..m])
  {
  }

  /** Searching one more neighbour adds the paths through it. */
  lemma WalksStep(g: AdjMap, end: int, rank: RankMap, p: seq<int>, u: int, ns: seq<int>, k: nat, acc: seq<seq<int>>)
    requires AllRanked(g, end, rank, u, ns) && k < |ns|
    ensures AllRanked(g, end, rank, u, ns[..k]) && AllRanked(g, end, rank, u, ns[..k + 1])
    ensures acc + WalksAll(g, end, rank, p, u, ns[..k]) + Walks(g, end, rank, p, ns[k])
      == acc + WalksAll(g, end, rank, p, u, ns[..k + 1])
  {
    assert ns[..k + 1][..k] == ns[..k];
  }

  /** Every path `dfs(u)` adds is the current path followed by a walk from
      `u` to `end`. */
  lemma {:induction false} WalksValid(g: AdjMap, end: int, rank: RankMap, p: seq<int>, u: int)
    requires RankedFrom(g, end, rank, u)
    ensures forall w :: w in Walks(g, end, rank, p, u) ==>
      |w| > |p| && w[..|p|] == p && w[|p|] == u && IsWalk(g, end, w[|p|..])
    decreases Rank(rank, u), 1, 0
  {
    if u == end {
      forall w | w in Walks(g, end, rank, p, u)
        ensures |w| > |p| && w[..|p|] == p && w[|p|] == u && IsWalk(g, end, w[|p|..])
      {
        assert w == p + [u] && w[|p|..] == [u];
      }
    } else {
      var ns := SuccOf(g, u);
      RankedNeighbours(g, end, rank, u, |ns|);
      assert ns[..|ns|] == ns;
      WalksAllValid(g, end, rank, p + [u], u, ns);
      forall w | w in Walks(g, end, rank, p, u)
        ensures |w| > |p| && w[..|p|] == p && w[|p|] == u && IsWalk(g, end, w[|p|..])
      {
        ExtendWalk(g, end, p, u, w);
      }
    }
  }

  /** A walk from a neighbour of `u`, with `u` in front, is a walk from `u`. */
  lemma ExtendWalk(g: AdjMap, end: int, p: seq<int>, u: int, w: seq<int>)
    requires u != end && |w| > |p| + 1 && w[..|p| + 1] == p + [u]
    requires w[|p| + 1] in SuccOf(g, u) && IsWalk(g, end, w[|p| + 1..])
    ensures w[..|p|] == p && w[|p|] == u && IsWalk(g, end, w[|p|..])
  {
    assert w[..|p|] == w[..|p| + 1][..|p|];
    var q := w[|p|..];
    assert q[1..] == w[|p| + 1..];
    forall j | 0 <= j < |q| - 1
      ensures q[j] != end && q[j + 1] in SuccOf(g, q[j])
    {
      if j > 0 {
        assert q[j] == q[1..][j - 1] && q[j + 1] == q[1..][j];
      }
    }
  }

  lemma {:induction false} WalksAllValid(g: AdjMap, end: int, rank: RankMap, p: seq<int>, u: int, ns: seq<int>)
    requires AllRanked(g, end, rank, u, ns)
    ensures forall w :: w in WalksAll(g, end, rank, p, u, ns) ==>
      |w| > |p| && w[..|p|] == p && w[|p|] in ns && IsWalk(g, end, w[|p|..])
    decreases Rank(rank, u), 0, |ns|
  {
    if ns != [] {
      var init, last := ns[..|ns| - 1], ns[|ns| - 1];
      assert AllRanked(g, end, rank, u, init);
      WalksAllValid(g, end, rank, p, u, init);
      WalksValid(g, end, rank, p, last);
      forall w | w in WalksAll(g, end, rank, p, u, ns)
        ensures |w| > |p| && w[..|p|] == p && w[|p|] in ns && IsWalk(g, end, w[|p|..])
      {
        if w in WalksAll(g, end, rank, p, u, init) {
          assert w[|p|] in init;
        }
      }
    }
  }

  /** Every walk from `u` to `end` is among the paths `dfs(u)` adds. */
  lemma {:induction false} WalksComplete(g: AdjMap, end: int, rank: RankMap, p: seq<int>, q: seq<int>)
    requires IsWalk(g, end, q) && RankedFrom(g, end, rank, q[0])
    ensures p + q in Walks(g, end, rank, p, q[0])
    decreases |q|
  {
    var u := q[0];
    if u == end {
      assert q == [u];
    } else {
      assert |q| > 1 && q[0] != end;
      var ns := SuccOf(g, u);
      var r := q[1..];
      assert IsWalk(g, end, r) by {
        forall j | 0 <= j < |r| - 1
          ensures r[j] != end && r[j + 1] in SuccOf(g, r[j])
        {
          assert r[j] == q[j + 1] && r[j + 1] == q[j + 2];
        }
      }
      assert r[0] in ns by {
        assert q[1] in SuccOf(g, q[0]);
      }
      var k :| 0 <= k < |ns| && ns[k] == r[0];
      WalksComplete(g, end, rank, p + [u], r);
      assert (p + [u]) + r == p + q;
      RankedNeighbours(g, end, rank, u, |ns|);
      assert ns[..|ns|] == ns;
      WalksAllContains(g, end, rank, p + [u], u, ns, k);
    }
  }

  /** The paths through one neighbour are among the paths through all of them. */
  lemma {:induction false} WalksAllContains(g: AdjMap, end: int, rank: RankMap, p: seq<int>, u: int, ns: seq<int>, k: nat)
    requires AllRanked(g, end, rank, u, ns) && k < |ns|
    ensures forall w :: w in Walks(g, end, rank, p, ns[k]) ==> w in WalksAll(g, end, rank, p, u, ns)
    decreases |ns|
  {
    var init := ns[..|ns| - 1];
    if k < |ns| - 1 {
      assert AllRanked(g, end, rank, u, init);
      assert init[k] == ns[k];
      WalksAllContains(g, end, rank, p, u, init, k);
    }
  }

  /** The graph object; `graph` is a `defaultdict(list)`. */
  class Graph {
    var graph: AdjMap

    constructor ()
      ensures graph == map[]
    {
      graph := map[];
    }

    /** `add_edge(u, v)`: `v` goes at the end of `u`'s list, which is
        created empty first if `u` has none. */
    method AddEdge(u: int, v: int)
      modifies this
      ensures graph == old(graph)[u := SuccOf(old(graph), u) + [v]]
      ensures forall w :: w != u ==> SuccOf(graph, w) == SuccOf(old(graph), w)
    {
      if u !in graph {
        graph := graph[u := []];
      }
      graph := graph[u := graph[u] + [v]];
    }

    /** `dfs(current)`, with the shared `path` and `result` lists passed in
        and handed back. Reading `graph[current]` inserts an empty list for a
        node without one, which changes no node's neighbours; `g0` is the
        graph as the search began. */
    method Dfs(current: int, end: int, ghost g0: AdjMap, ghost rank: RankMap,
               path: seq<int>, result: seq<seq<int>>)
      returns (path': seq<int>, result': seq<seq<int>>)
      requires SameSucc(graph, g0) && RankedFrom(g0, end, rank, current)
      modifies this
      ensures SameSucc(graph, g0)
      ensures path' == path
      ensures result' == result + Walks(g0, end, rank, path, current)
      decreases Rank(rank, current), 1
    {
      path' := path + [current];
      if current == end {
        result' := result + [path'];
      } else {
        if current !in graph {
          graph := graph[current := []];
        }
        var ns := graph[current];
        assert ns == SuccOf(g0, current);
        RankedNeighbours(g0, end, rank, current, |ns|);
        assert ns[..|ns|] == ns;
        path', result' := SearchNeighbours(current, end, g0, rank, ns, path', result);
      }
      path' := path'[..|path'| - 1];
    }

    /** The loop `for neighbor in graph[current]: dfs(neighbor)`, with
        `current` already on the path. */
    method SearchNeighbours(current: int, end: int, ghost g0: AdjMap, ghost rank: RankMap,
                            ns: seq<int>, path: seq<int>, result: seq<seq<int>>)
      returns (path': seq<int>, result': seq<seq<int>>)
      requires SameSucc(graph, g0) && AllRanked(g0, end, rank, current, ns)
      modifies this
      ensures SameSucc(graph, g0)
      ensures path' == path
      ensures result' == result + WalksAll(g0, end, rank, path, current, ns)
      decreases Rank(rank, current), 0
    {
      path', result' := path, result;
      for k := 0 to |ns|
        invariant SameSucc(graph, g0)
        invariant path' == path
        invariant AllRanked(g0, end, rank, current, ns[..k])
        invariant result' == result + WalksAll(g0, end, rank, path, current, ns[..k])
      {
        WalksStep(g0, end, rank, path, current, ns, k, result);
        path', result' := Dfs(ns[k], end, g0, rank, path', result');
      }
      assert ns[..|ns|] == ns;
    }

    /** `find_all_paths(start, end)`, on a graph where no cycle that avoids
        `end` can be reached from `start`. */
    method FindAllPaths(start: int, end: int, ghost rank: RankMap) returns (result: seq<seq<int>>)
      requires RankedFrom(graph, end, rank, start)
      modifies this
      ensures SameSucc(graph, old(graph))
      ensures result == Walks(old(graph), end, rank, [], start)
      ensures start == end ==> result == [[start]]
    {
      ghost var g0 := graph;
      assert [] + [start] == [start];
      var path: seq<int> := [];
      path, result := Dfs(start, end, g0, rank, path, []);
    }
  }

  /** Every path `find_all_paths` returns goes from `start` to `end` along
      edges and meets `end` only at its last node, and every such walk is
      returned. */
  lemma FindAllPathsExact(g: AdjMap, start: int, end: int, rank: RankMap, q: seq<int>)
    requires RankedFrom(g, end, rank, start)
    ensures q in Walks(g, end, rank, [], start) <==> IsWalk(g, end, q) && q[0] == start
  {
    if q in Walks(g, end, rank, [], start) {
      WalksValid(g, end, rank, [], start);
      assert q[0..] == q;
    }
    if IsWalk(g, end, q) && q[0] == start {
      WalksComplete(g, end, rank, [], q);
      assert [] + q == q;
    }
  }

  /** The demo graph: 0 -> 1, 0 -> 2, 1 -> 2, 2 -> 0, 2 -> 3, 3 -> 3. */
  function SampleGraph(): AdjMap
  {
    map[0 := [1, 2], 1 := [2], 2 := [0, 3], 3 := [3]]
  }

  /** From 2 the demo search can go 2 -> 0 -> 2 without meeting 3, so no
      ranking exists and the search from 2 does not stop. */
  lemma SampleUnranked(rank: RankMap)
    ensures !RankedFrom(SampleGraph(), 3, rank, 2)
  {
    var g := SampleGraph();
    assert SuccOf(g, 2)[0] == 0 && SuccOf(g, 0)[1] == 2;
    if RankedFrom(g, 3, rank, 2) {
      assert RankedFrom(g, 3, rank, 0);
    }
  }
}
