/** `Graph` of `Ford_fulkerson.py`: a residual-capacity matrix, a
    breadth-first search for a path of positive residual capacity, and the
    Ford-Fulkerson loop that pushes the bottleneck capacity along each path
    found until none remains. The properties are stated over the matrix as a
    value; the class keeps that value equal to its array. */
module MaxFlow {

  /** A matrix of capacities, row by row: `m[u][v]` is the capacity of the
      edge from `u` to `v`. */
  type Matrix = seq<seq<int>>

  ghost predicate IsSquare(m: Matrix, n: int)
  {
    |m| == n && forall x :: 0 <= x < n ==> |m[x]| == n
  }

  /** The nodes of `p` are pairwise different. */
  ghost predicate Distinct(p: seq<int>)
  {
    forall i, j :: 0 <= i < j < |p| ==> p[i] != p[j]
  }

  /** `w` walks from `s` to `t` over edges of positive residual capacity. */
  ghost predicate PositiveWalk(m: Matrix, w: seq<int>, s: int, t: int)
  {
    && |w| >= 1 && w[0] == s && w[|w| - 1] == t
    && (forall k :: 0 <= k < |w| ==> 0 <= w[k] < |m|)
    && forall k :: 0 < k < |w| ==> w[k] < |m[w[k - 1]]| && m[w[k - 1]][w[k]] > 0
  }

  /** `parent` leads back along `p`, one node at a time. */
  ghost predicate Follows(parent: seq<int>, p: seq<int>)
  {
    && (forall k :: 0 <= k < |p| ==> 0 <= p[k] < |parent|)
    && forall k :: 0 < k < |p| ==> parent[p[k]] == p[k - 1]
  }

  /** What `bfs` leaves behind when it returns `True`: a path from `s` to
      `t`, without repeated nodes (so `t != s`), over positive residual
      capacities, that `parent` traces back from `t`. */
  ghost predicate AugmentingPath(m: Matrix, parent: seq<int>, p: seq<int>, s: int, t: int)
  {
    |p| >= 2 && PositiveWalk(m, p, s, t) && Distinct(p) && Follows(parent, p)
  }

  /** The number of `false` entries: the nodes not yet visited. */
  function Unvisited(a: seq<bool>): (n: nat)
    ensures n <= |a|
  {
    if a == [] then 0 else (if a[0] then 0 else 1) + Unvisited(a[1..])
  }

  /** Visiting one more node lowers the count by one. */
  lemma {:induction false} UnvisitedMark(a: seq<bool>, v: nat)
    requires v < |a| && !a[v]
    ensures Unvisited(a[v := true]) == Unvisited(a) - 1
  {
    if v > 0 {
      assert a[v := true][1..] == a[1..][v - 1 := true];
      UnvisitedMark(a[1..], v - 1);
    }
  }

  /** The search tree of a breadth-first search: nodes in discovery order,
      each after the first discovered from the earlier node `disc[pidx[j]]`
      over a positive edge, which `parent` records. */
  ghost predicate Tree(m: Matrix, parent: seq<int>, disc: seq<int>, pidx: seq<int>)
  {
    && |disc| >= 1 && |pidx| == |disc|
    && (forall j :: 0 <= j < |disc| ==> 0 <= disc[j] < |m| && disc[j] < |parent|)
    && Distinct(disc)
    && forall j :: 0 < j < |disc| ==>
         && 0 <= pidx[j] < j && parent[disc[j]] == disc[pidx[j]]
         && disc[j] < |m[disc[pidx[j]]]| && m[disc[pidx[j]]][disc[j]] > 0
  }

  /** Following `pidx` from the `j`-th discovered node back to the first. */
  ghost function Chain(disc: seq<int>, pidx: seq<int>, j: nat): (c: seq<int>)
    requires j < |disc| == |pidx| && forall k :: 0 < k < |pidx| ==> 0 <= pidx[k] < k
    ensures |c| >= 1 && c[0] == disc[0] && c[|c| - 1] == disc[j]
    ensures j > 0 ==> |c| >= 2
    decreases j
  {
    if j == 0 then [disc[0]] else Chain(disc, pidx, pidx[j]) + [disc[j]]
  }

  /** Every node of the chain back from the `j`-th discovered node was
      discovered no later than it. */
  lemma {:induction false} ChainWithin(disc: seq<int>, pidx: seq<int>, j: nat)
    requires j < |disc| == |pidx| && forall k :: 0 < k < |pidx| ==> 0 <= pidx[k] < k
    ensures forall k :: 0 <= k < |Chain(disc, pidx, j)| ==> Chain(disc, pidx, j)[k] in disc[..j + 1]
    decreases j
  {
    if j > 0 {
      var i := pidx[j];
      ChainWithin(disc, pidx, i);
      var c0 := Chain(disc, pidx, i);
      assert disc[..i + 1] <= disc[..j + 1];
      assert disc[j] == disc[..j + 1][j];
      assert Chain(disc, pidx, j) == c0 + [disc[j]];
    }
  }

  /** The chain back from a discovered node repeats no node. */
  lemma {:induction false} ChainDistinct(disc: seq<int>, pidx: seq<int>, j: nat)
    requires j < |disc| == |pidx| && (forall k :: 0 < k < |pidx| ==> 0 <= pidx[k] < k) && Distinct(disc)
    ensures Distinct(Chain(disc, pidx, j))
    decreases j
  {
    if j > 0 {
      var i := pidx[j];
      ChainDistinct(disc, pidx, i);
      ChainWithin(disc, pidx, i);
      var c0 := Chain(disc, pidx, i);
      forall k | 0 <= k < |c0|
        ensures c0[k] != disc[j]
      {
        assert c0[k] in disc[..i + 1];
        var n :| 0 <= n < i + 1 && disc[n] == c0[k];
      }
      assert Chain(disc, pidx, j) == c0 + [disc[j]];
    }
  }

  /** A positive walk extended by a positive edge out of its last node. */
  lemma WalkSnoc(m: Matrix, w: seq<int>, s: int, x: int)
    requires |w| >= 1 && PositiveWalk(m, w, s, w[|w| - 1])
    requires 0 <= x < |m| && x < |m[w[|w| - 1]]| && m[w[|w| - 1]][x] > 0
    ensures PositiveWalk(m, w + [x], s, x)
  {
  }

  /** A path `parent` traces, extended by a node whose parent is its last node. */
  lemma FollowsSnoc(parent: seq<int>, w: seq<int>, x: int)
    requires |w| >= 1 && Follows(parent, w) && 0 <= x < |parent| && parent[x] == w[|w| - 1]
    ensures Follows(parent, w + [x])
  {
  }

  /** The chain back from a discovered node is a positive walk that
      `parent` traces. */
  lemma {:induction false} ChainWalk(m: Matrix, parent: seq<int>, disc: seq<int>, pidx: seq<int>, j: nat)
    requires Tree(m, parent, disc, pidx) && j < |disc|
    ensures PositiveWalk(m, Chain(disc, pidx, j), disc[0], disc[j])
    ensures Follows(parent, Chain(disc, pidx, j))
    decreases j
  {
    if j > 0 {
      var i := pidx[j];
      ChainWalk(m, parent, disc, pidx, i);
      WalkSnoc(m, Chain(disc, pidx, i), disc[0], disc[j]);
      FollowsSnoc(parent, Chain(disc, pidx, i), disc[j]);
    }
  }

  /** The chain back from a discovered node is a positive path without
      repeated nodes that `parent` traces. */
  lemma ChainPath(m: Matrix, parent: seq<int>, disc: seq<int>, pidx: seq<int>, j: nat)
    requires Tree(m, parent, disc, pidx) && j < |disc|
    ensures PositiveWalk(m, Chain(disc, pidx, j), disc[0], disc[j])
    ensures Follows(parent, Chain(disc, pidx, j))
    ensures Distinct(Chain(disc, pidx, j))
  {
    ChainWalk(m, parent, disc, pidx, j);
    ChainDistinct(disc, pidx, j);
  }

  /** The state of `bfs` between steps: `visited` marks exactly the
      discovered nodes, `t` was not discovered after `s`, and the first
      `done` discovered nodes have had all their positive edges followed. */
  ghost predicate Searching(m: Matrix, parent: seq<int>, visited: seq<bool>,
                            disc: seq<int>, pidx: seq<int>, s: int, t: int, done: int)
  {
    && Tree(m, parent, disc, pidx) && disc[0] == s && |visited| == |m|
    && (forall v :: 0 <= v < |visited| ==> (visited[v] <==> v in disc))
    && (forall j :: 0 < j < |disc| ==> disc[j] != t)
    && 0 <= done <= |disc|
    && forall j, v :: 0 <= j < done && 0 <= v < |visited| && v < |m[disc[j]]| && m[disc[j]][v] > 0 ==> visited[v]
  }

  /** Discovering `v` from the `k`-th discovered node extends the tree. */
  lemma DiscoverTree(m: Matrix, parent: seq<int>, disc: seq<int>, pidx: seq<int>, k: nat, v: int)
    requires Tree(m, parent, disc, pidx) && k < |disc| && 0 <= v < |parent| && v < |m| && v !in disc
    requires v < |m[disc[k]]| && m[disc[k]][v] > 0
    ensures Tree(m, parent[v := disc[k]], disc + [v], pidx + [k])
  {
    var parent', disc', pidx' := parent[v := disc[k]], disc + [v], pidx + [k];
    forall j | 0 < j < |disc'|
      ensures 0 <= pidx'[j] < j && parent'[disc'[j]] == disc'[pidx'[j]]
    {
      if j < |disc| {
        assert disc'[j] == disc[j] != v;
      }
    }
  }

  /** Lines 16-19 of `bfs` keep the search state when the new node is not `t`. */
  lemma DiscoverKeeps(m: Matrix, parent: seq<int>, visited: seq<bool>, disc: seq<int>, pidx: seq<int>,
                      s: int, t: int, done: int, k: nat, v: int)
    requires Searching(m, parent, visited, disc, pidx, s, t, done)
    requires k < |disc| && 0 <= v < |visited| && v < |parent| && !visited[v] && v != t
    requires v < |m[disc[k]]| && m[disc[k]][v] > 0
    ensures Searching(m, parent[v := disc[k]], visited[v := true], disc + [v], pidx + [k], s, t, done)
  {
    DiscoverTree(m, parent, disc, pidx, k, v);
    var visited', disc' := visited[v := true], disc + [v];
    forall j, w | 0 <= j < done && 0 <= w < |visited'| && w < |m[disc'[j]]| && m[disc'[j]][w] > 0
      ensures visited'[w]
    {
      assert disc'[j] == disc[j];
    }
  }

  /** Once every positive edge out of the next discovered node has been
      followed, that node counts as done. */
  lemma FinishRow(m: Matrix, parent: seq<int>, visited: seq<bool>, disc: seq<int>, pidx: seq<int>,
                  s: int, t: int, done: int)
    requires Searching(m, parent, visited, disc, pidx, s, t, done) && done < |disc|
    requires ScannedTo(m, visited, disc[done], |visited|)
    ensures Searching(m, parent, visited, disc, pidx, s, t, done + 1)
  {
  }

  /** The positive edges out of `u` to the nodes below `n` lead to marked nodes. */
  ghost predicate ScannedTo(m: Matrix, visited: seq<bool>, u: int, n: int)
    requires 0 <= u < |m|
  {
    forall y :: 0 <= y < n && y < |visited| && y < |m[u]| && m[u][y] > 0 ==> visited[y]
  }

  /** Marking the node at `n` extends the scan past it. */
  lemma ScanMark(m: Matrix, visited: seq<bool>, u: int, n: int)
    requires 0 <= u < |m| && ScannedTo(m, visited, u, n) && 0 <= n < |visited|
    ensures ScannedTo(m, visited[n := true], u, n + 1)
  {
  }

  /** The state of the scan of row `u` at column `v`: the node `u` was
      taken from the queue as the `head`-th discovered node, the columns
      before `v` have been followed, and the measure has not grown. */
  ghost predicate Scanning(m: Matrix, parent: seq<int>, visited: seq<bool>, disc: seq<int>, pidx: seq<int>,
                           s: int, t: int, head: int, u: int, v: int, queue: seq<int>, bound: int)
  {
    && Searching(m, parent, visited, disc, pidx, s, t, head - 1)
    && 1 <= head <= |disc| && u == disc[head - 1] && queue == disc[head..]
    && 0 <= v <= |visited| && ScannedTo(m, visited, u, v)
    && 2 * Unvisited(visited) + |queue| <= bound
  }

  /** A column that is visited already or has no capacity is passed over. */
  lemma ScanSkip(m: Matrix, parent: seq<int>, visited: seq<bool>, disc: seq<int>, pidx: seq<int>,
                 s: int, t: int, head: int, u: int, v: int, queue: seq<int>, bound: int)
    requires Scanning(m, parent, visited, disc, pidx, s, t, head, u, v, queue, bound)
    requires v < |visited| && v < |m[u]| && (visited[v] || m[u][v] <= 0)
    ensures Scanning(m, parent, visited, disc, pidx, s, t, head, u, v + 1, queue, bound)
  {
  }

  /** An unvisited column with capacity, other than `t`, is discovered:
      marked, given `u` as parent and queued. */
  lemma ScanDiscover(m: Matrix, parent: seq<int>, visited: seq<bool>, disc: seq<int>, pidx: seq<int>,
                     s: int, t: int, head: int, u: int, v: int, queue: seq<int>, bound: int)
    requires Scanning(m, parent, visited, disc, pidx, s, t, head, u, v, queue, bound)
    requires v < |visited| && v < |parent| && v < |m[u]| && !visited[v] && m[u][v] > 0 && v != t
    ensures v != s
    ensures Scanning(m, parent[v := u], visited[v := true], disc + [v], pidx + [head - 1],
                     s, t, head, u, v + 1, queue + [v], bound)
  {
    UnvisitedMark(visited, v);
    DiscoverKeeps(m, parent, visited, disc, pidx, s, t, head - 1, head - 1, v);
    ScanMark(m, visited, u, v);
    assert (disc + [v])[head..] == queue + [v];
  }

  /** Discovering `t` leaves the path back from it in `parent`. */
  lemma ScanFound(m: Matrix, parent: seq<int>, visited: seq<bool>, disc: seq<int>, pidx: seq<int>,
                  s: int, t: int, head: int, u: int, v: int, queue: seq<int>, bound: int)
    requires Scanning(m, parent, visited, disc, pidx, s, t, head, u, v, queue, bound)
    requires v < |visited| && v < |parent| && v < |m[u]| && !visited[v] && m[u][v] > 0 && v == t
    ensures v != s
    ensures AugmentingPath(m, parent[v := u], Chain(disc + [v], pidx + [head - 1], |disc|), s, t)
  {
    DiscoverTree(m, parent, disc, pidx, head - 1, v);
    ChainPath(m, parent[v := u], disc + [v], pidx + [head - 1], |disc|);
  }

  /** A row scanned to its end leaves its node done. */
  lemma ScanEnd(m: Matrix, parent: seq<int>, visited: seq<bool>, disc: seq<int>, pidx: seq<int>,
                s: int, t: int, head: int, u: int, queue: seq<int>, bound: int)
    requires Scanning(m, parent, visited, disc, pidx, s, t, head, u, |visited|, queue, bound)
    ensures Searching(m, parent, visited, disc, pidx, s, t, head)
  {
    FinishRow(m, parent, visited, disc, pidx, s, t, head - 1);
  }

  /** The nodes reachable over positive edges from a marked node are marked. */
  ghost predicate ClosedSet(m: Matrix, visited: seq<bool>)
  {
    forall x, y ::
      (0 <= x < |visited| && 0 <= y < |visited| && x < |m| && y < |m[x]| && visited[x] && m[x][y] > 0)
      ==> visited[y]
  }

  /** With every discovered node done, the marked set is closed. */
  lemma SearchClosed(m: Matrix, parent: seq<int>, visited: seq<bool>, disc: seq<int>, pidx: seq<int>, s: int, t: int)
    requires Searching(m, parent, visited, disc, pidx, s, t, |disc|)
    ensures ClosedSet(m, visited)
  {
    forall x, y | 0 <= x < |visited| && 0 <= y < |visited| && x < |m| && y < |m[x]| && visited[x] && m[x][y] > 0
      ensures visited[y]
    {
      var j :| 0 <= j < |disc| && disc[j] == x;
    }
  }

  /** A walk from a marked node stays inside a closed marked set. */
  lemma {:induction false} WalkStaysMarked(m: Matrix, visited: seq<bool>, w: seq<int>, s: int, t: int)
    requires ClosedSet(m, visited) && PositiveWalk(m, w, s, t)
    requires |m| == |visited| && 0 <= s < |visited| && visited[s]
    ensures visited[t]
    decreases |w|
  {
    if |w| > 1 {
      var w' := w[..|w| - 1];
      assert PositiveWalk(m, w', s, w'[|w'| - 1]);
      WalkStaysMarked(m, visited, w', s, w'[|w'| - 1]);
      assert m[w[|w| - 2]][w[|w| - 1]] > 0;
    }
  }

  /** Lines 38-39 of `ford_fulkerson` for one edge: `f` comes off the edge
      from `u` to `v` and is added to the reverse edge. */
  function Push(m: Matrix, u: nat, v: nat, f: int): (r: Matrix)
    requires u < |m| && v < |m| && v < |m[u]| && u < |m[v]|
    ensures |r| == |m| && forall x :: 0 <= x < |m| ==> |r[x]| == |m[x]|
  {
    var m1 := m[u := m[u][v := m[u][v] - f]];
    m1[v := m1[v][u := m1[v][u] + f]]
  }

  /** The one or two entries `Push` changes. */
  lemma PushEntry(m: Matrix, u: nat, v: nat, f: int, x: nat, y: nat)
    requires IsSquare(m, |m|) && u < |m| && v < |m| && u != v && x < |m| && y < |m|
    ensures Push(m, u, v, f)[x][y] ==
      if x == u && y == v then m[u][v] - f
      else if x == v && y == u then m[v][u] + f
      else m[x][y]
  {
  }

  /** The matrix once the edges of `p` after position `k` have been pushed,
      from the last edge back, as lines 35-40 of `ford_fulkerson` do. */
  ghost function Pushed(m: Matrix, p: seq<int>, f: int, k: nat): (r: Matrix)
    requires IsSquare(m, |m|) && forall i :: 0 <= i < |p| ==> 0 <= p[i] < |m|
    ensures IsSquare(r, |m|)
    decreases |p| - k
  {
    if k + 1 >= |p| then m else Push(Pushed(m, p, f, k + 1), p[k], p[k + 1], f)
  }

  /** The change pushing along `p` from position `i` on makes to entry
      `[x][y]`: `-f` for each edge of the path, `+f` for each reverse edge. */
  function Net(p: seq<int>, i: nat, f: int, x: int, y: int): int
    decreases |p| - i
  {
    if i + 1 >= |p| then 0
    else
      (if p[i] == x && p[i + 1] == y then -f
       else if p[i] == y && p[i + 1] == x then f
       else 0)
      + Net(p, i + 1, f, x, y)
  }

  /** Pushing along a path without a repeated node adds `Net` to each entry. */
  lemma {:induction false} PushedNet(m: Matrix, p: seq<int>, f: int, k: nat)
    requires IsSquare(m, |m|) && (forall i :: 0 <= i < |p| ==> 0 <= p[i] < |m|) && Distinct(p)
    ensures forall x, y :: 0 <= x < |m| && 0 <= y < |m| ==> Pushed(m, p, f, k)[x][y] == m[x][y] + Net(p, k, f, x, y)
    decreases |p| - k
  {
    if k + 1 < |p| {
      PushedNet(m, p, f, k + 1);
      assert p[k] != p[k + 1];
    }
  }

  /** A node the rest of the path does not visit gains or loses nothing. */
  lemma {:induction false} NetAbsent(p: seq<int>, i: nat, f: int, x: int, y: int)
    requires forall k :: i <= k < |p| ==> p[k] != x
    ensures Net(p, i, f, x, y) == 0 && Net(p, i, f, y, x) == 0
    decreases |p| - i
  {
    if i + 1 < |p| {
      NetAbsent(p, i + 1, f, x, y);
    }
  }

  /** On a path without repeated nodes an entry changes by at most `f`, and
      loses `f` only when it is an edge of the path. */
  lemma {:induction false} NetOnce(p: seq<int>, i: nat, f: int, x: int, y: int)
    requires Distinct(p)
    ensures Net(p, i, f, x, y) == 0 || Net(p, i, f, x, y) == f ||
      (Net(p, i, f, x, y) == -f && exists k :: i < k < |p| && p[k - 1] == x && p[k] == y)
    decreases |p| - i
  {
    if i + 1 < |p| {
      if p[i] == x && p[i + 1] == y {
        NetAbsent(p, i + 1, f, x, y);
        assert p[i + 1 - 1] == x;
      } else if p[i] == y && p[i + 1] == x {
        NetAbsent(p, i + 1, f, y, x);
      } else {
        NetOnce(p, i + 1, f, x, y);
      }
    }
  }

  /** What an entry loses its reverse gains. */
  lemma {:induction false} NetPair(p: seq<int>, i: nat, f: int, x: int, y: int)
    requires Distinct(p)
    ensures Net(p, i, f, x, y) + Net(p, i, f, y, x) == 0
    decreases |p| - i
  {
    if i + 1 < |p| {
      NetPair(p, i + 1, f, x, y);
    }
  }

  /** Along a path from `p[0]`, row `p[0]` changes only at the first edge, by `-f`. */
  lemma NetSourceRow(p: seq<int>, f: int, y: int)
    requires Distinct(p) && |p| >= 2
    ensures Net(p, 0, f, p[0], y) == if y == p[1] then -f else 0
  {
    NetAbsent(p, 1, f, p[0], y);
  }

  /** Row `p[i]` of a path without repeated nodes changes only at the next
      node of the path, by `-f`, and at the one before it, by `f`. */
  lemma {:induction false} NetAt(p: seq<int>, i: nat, j: nat, f: int, y: int)
    requires Distinct(p) && 0 < i < |p| && j < i
    ensures Net(p, j, f, p[i], y) ==
      if i + 1 < |p| && y == p[i + 1] then -f else if y == p[i - 1] then f else 0
    decreases i - j
  {
    if j + 1 < i {
      NetAt(p, i, j + 1, f, y);
      assert p[j] != p[i] && p[j + 1] != p[i];
    } else {
      NetAbsent(p, i + 1, f, p[i], y);
      assert p[i - 1] != p[i];
      if i + 1 < |p| {
        assert p[i + 1] != p[i - 1] && p[i + 1] != p[i];
      }
    }
  }

  function Sum(r: seq<int>): int
  {
    if r == [] then 0 else Sum(r[..|r| - 1]) + r[|r| - 1]
  }

  /** The lowest value an entry can fall to: an entry starting at or above 0
      never drops below 0, a negative one never drops below where it started. */
  function Floor(c: int): int
  {
    if c < 0 then c else 0
  }

  function FloorSum(r: seq<int>): int
  {
    if r == [] then 0 else FloorSum(r[..|r| - 1]) + Floor(r[|r| - 1])
  }

  /** The positive capacity out of a row: the most the source can send. */
  function Capacity(r: seq<int>): nat
  {
    if r == [] then 0 else Capacity(r[..|r| - 1]) + (if r[|r| - 1] > 0 then r[|r| - 1] else 0)
  }

  lemma {:induction false} SumSplit(r: seq<int>)
    ensures Sum(r) == Capacity(r) + FloorSum(r)
  {
    if r != [] {
      SumSplit(r[..|r| - 1]);
    }
  }

  /** Lowering one entry by `f` lowers the sum by `f`. */
  lemma {:induction false} SumLower(r: seq<int>, k: nat, f: int)
    requires k < |r|
    ensures Sum(r[k := r[k] - f]) == Sum(r) - f
  {
    var r' := r[k := r[k] - f];
    if k < |r| - 1 {
      assert r'[..|r| - 1] == r[..|r| - 1][k := r[k] - f];
      SumLower(r[..|r| - 1], k, f);
    } else {
      assert r'[..|r| - 1] == r[..|r| - 1];
    }
  }

  /** Entries above their floors sum above the floors' sum. */
  lemma {:induction false} SumAboveFloors(r: seq<int>, l: seq<int>)
    requires |r| == |l| && forall y :: 0 <= y < |r| ==> r[y] >= Floor(l[y])
    ensures Sum(r) >= FloorSum(l)
  {
    if r != [] {
      SumAboveFloors(r[..|r| - 1], l[..|l| - 1]);
    }
  }

  /** What `ford_fulkerson` keeps true of the residual matrix `m` with
      respect to the capacities `orig` it started from: each entry plus its
      reverse is unchanged, and no entry is below its floor. */
  ghost predicate Residual(m: Matrix, orig: Matrix)
  {
    && IsSquare(m, |orig|) && IsSquare(orig, |orig|)
    && forall x, y :: 0 <= x < |orig| && 0 <= y < |orig| ==>
         m[x][y] + m[y][x] == orig[x][y] + orig[y][x] && m[x][y] >= Floor(orig[x][y])
  }

  /** Pushing at most the bottleneck along a path without repeated nodes
      keeps `Residual`. */
  lemma PushedResidual(m: Matrix, orig: Matrix, p: seq<int>, f: int, s: int, t: int)
    requires Residual(m, orig) && PositiveWalk(m, p, s, t) && Distinct(p)
    requires f > 0 && forall k :: 0 < k < |p| ==> f <= m[p[k - 1]][p[k]]
    ensures Residual(Pushed(m, p, f, 0), orig)
  {
    var m' := Pushed(m, p, f, 0);
    PushedNet(m, p, f, 0);
    forall x, y | 0 <= x < |orig| && 0 <= y < |orig|
      ensures m'[x][y] + m'[y][x] == orig[x][y] + orig[y][x] && m'[x][y] >= Floor(orig[x][y])
    {
      NetPair(p, 0, f, x, y);
      NetOnce(p, 0, f, x, y);
    }
  }

  /** Pushing along a path from `s` changes row `s` only at the first edge. */
  lemma PushedSourceRow(m: Matrix, p: seq<int>, f: int, s: int, t: int)
    requires IsSquare(m, |m|) && |p| >= 2 && PositiveWalk(m, p, s, t) && Distinct(p)
    ensures Pushed(m, p, f, 0)[s] == m[s][p[1] := m[s][p[1]] - f]
  {
    var m' := Pushed(m, p, f, 0);
    PushedNet(m, p, f, 0);
    forall y | 0 <= y < |m|
      ensures m'[s][y] == m[s][p[1] := m[s][p[1]] - f][y]
    {
      NetSourceRow(p, f, y);
    }
  }

  /** One entry of row `p[i]` after pushing along the path. */
  lemma PushedEntryAt(m: Matrix, p: seq<int>, f: int, s: int, t: int, i: nat, y: int)
    requires IsSquare(m, |m|) && PositiveWalk(m, p, s, t) && Distinct(p) && 0 < i < |p| && 0 <= y < |m|
    ensures Pushed(m, p, f, 0)[p[i]][y] ==
      m[p[i]][y] + (if i + 1 < |p| && y == p[i + 1] then -f else if y == p[i - 1] then f else 0)
  {
    PushedNet(m, p, f, 0);
    NetAt(p, i, 0, f, y);
  }

  /** Pushing along a path changes the sum of row `p[i]` by the `f` its
      previous node sends in, less the `f` it sends on, if there is a next node. */
  lemma PushedRowAt(m: Matrix, p: seq<int>, f: int, s: int, t: int, i: nat)
    requires IsSquare(m, |m|) && PositiveWalk(m, p, s, t) && Distinct(p) && 0 < i < |p|
    ensures Sum(Pushed(m, p, f, 0)[p[i]]) == Sum(m[p[i]]) + f - (if i + 1 < |p| then f else 0)
  {
    var x, a, b := p[i], p[i - 1], if i + 1 < |p| then p[i + 1] else p[i - 1];
    var r1 := if i + 1 < |p| then m[x][b := m[x][b] - f] else m[x];
    if i + 1 < |p| {
      assert b != a;
      SumLower(m[x], b, f);
    }
    var r2 := r1[a := r1[a] + f];
    forall y | 0 <= y < |m|
      ensures Pushed(m, p, f, 0)[x][y] == r2[y]
    {
      PushedEntryAt(m, p, f, s, t, i, y);
    }
    assert Pushed(m, p, f, 0)[x] == r2;
    SumLower(r1, a, -f);
  }

  /** A row the path does not pass through is left as it was. */
  lemma PushedRowAbsent(m: Matrix, p: seq<int>, f: int, x: int)
    requires IsSquare(m, |m|) && (forall i :: 0 <= i < |p| ==> 0 <= p[i] < |m|) && Distinct(p)
    requires 0 <= x < |m| && forall i :: 0 <= i < |p| ==> p[i] != x
    ensures Pushed(m, p, f, 0)[x] == m[x]
  {
    PushedNet(m, p, f, 0);
    forall y | 0 <= y < |m|
      ensures Pushed(m, p, f, 0)[x][y] == m[x][y]
    {
      NetAbsent(p, 0, f, x, y);
    }
  }

  /** Pushing along a path from `s` to `t` keeps the sum of every other row:
      what a node on the way receives it sends on. */
  lemma PushedConserves(m: Matrix, p: seq<int>, f: int, s: int, t: int, x: int)
    requires IsSquare(m, |m|) && PositiveWalk(m, p, s, t) && Distinct(p)
    requires 0 <= x < |m| && x != s && x != t
    ensures Sum(Pushed(m, p, f, 0)[x]) == Sum(m[x])
  {
    if i :| 0 <= i < |p| && p[i] == x {
      PushedRowAt(m, p, f, s, t, i);
    } else {
      PushedRowAbsent(m, p, f, x);
    }
  }

  /** One round of `ford_fulkerson` keeps `Residual` and takes exactly the
      bottleneck `f` out of row `s`. */
  lemma RoundKeeps(m: Matrix, orig: Matrix, p: seq<int>, f: int, s: int, t: int)
    requires Residual(m, orig) && |p| >= 2 && PositiveWalk(m, p, s, t) && Distinct(p)
    requires f > 0 && forall k :: 0 < k < |p| ==> f <= m[p[k - 1]][p[k]]
    ensures Residual(Pushed(m, p, f, 0), orig)
    ensures Sum(Pushed(m, p, f, 0)[s]) == Sum(m[s]) - f
  {
    PushedResidual(m, orig, p, f, s, t);
    PushedSourceRow(m, p, f, s, t);
    SumLower(m[s], p[1], f);
  }

  /** Entries at or above their floors keep a row's sum at or above the floors' sum. */
  lemma ResidualFloor(m: Matrix, orig: Matrix, s: int)
    requires Residual(m, orig) && 0 <= s < |orig|
    ensures Sum(m[s]) >= FloorSum(orig[s])
  {
    forall y | 0 <= y < |orig|
      ensures m[s][y] >= Floor(orig[s][y])
    {
      assert m[s][y] + m[y][s] == orig[s][y] + orig[y][s];
    }
    SumAboveFloors(m[s], orig[s]);
  }

  /** The capacities are their own residual before any flow is pushed. */
  lemma ResidualStart(m: Matrix)
    requires IsSquare(m, |m|)
    ensures Residual(m, m)
  {
    forall x, y | 0 <= x < |m| && 0 <= y < |m|
      ensures m[x][y] >= Floor(m[x][y])
    {
    }
  }

  /** Flow conservation: every row other than those of `s` and `t` keeps
      its sum, so what flows into such a node flows out of it again. */
  ghost predicate Conserved(m: Matrix, orig: Matrix, s: int, t: int)
    requires |m| == |orig|
  {
    forall x :: 0 <= x < |orig| && x != s && x != t ==> Sum(m[x]) == Sum(orig[x])
  }

  /** The state of `ford_fulkerson` between rounds: `m` is a residual of
      `orig`, and `flow` is what has left row `s`, which stays above its
      floors, and what has reached row `t`; every other row is conserved,
      and nothing leaves row `s` when `s` is `t`. */
  ghost predicate Progress(m: Matrix, orig: Matrix, s: int, t: int, flow: int)
  {
    && Residual(m, orig) && 0 <= s < |orig| && 0 <= t < |orig|
    && 0 <= flow && flow + Sum(m[s]) == Sum(orig[s])
    && (s != t ==> Sum(m[t]) == Sum(orig[t]) + flow)
    && Conserved(m, orig, s, t)
    && (s == t ==> flow == 0)
    && Sum(m[s]) >= FloorSum(orig[s])
  }

  lemma ProgressStart(m: Matrix, s: int, t: int)
    requires IsSquare(m, |m|) && 0 <= s < |m| && 0 <= t < |m|
    ensures Progress(m, m, s, t, 0)
  {
    ResidualStart(m);
    ResidualFloor(m, m, s);
  }

  /** A round keeps every row other than those of `s` and `t` conserved,
      and adds `f` to the row of `t`. */
  lemma ConservedRound(m: Matrix, orig: Matrix, p: seq<int>, f: int, s: int, t: int)
    requires IsSquare(m, |m|) && |m| == |orig| && Conserved(m, orig, s, t)
    requires |p| >= 2 && PositiveWalk(m, p, s, t) && Distinct(p)
    ensures Conserved(Pushed(m, p, f, 0), orig, s, t)
    ensures Sum(Pushed(m, p, f, 0)[t]) == Sum(m[t]) + f
  {
    forall x | 0 <= x < |orig| && x != s && x != t
      ensures Sum(Pushed(m, p, f, 0)[x]) == Sum(orig[x])
    {
      PushedConserves(m, p, f, s, t, x);
    }
    PushedRowAt(m, p, f, s, t, |p| - 1);
  }

  /** A round along an augmenting path adds its bottleneck to the flow and
      lowers the sum of row `s`. */
  lemma ProgressRound(m: Matrix, orig: Matrix, p: seq<int>, f: int, s: int, t: int, flow: int)
    requires Progress(m, orig, s, t, flow) && |p| >= 2 && PositiveWalk(m, p, s, t) && Distinct(p)
    requires f > 0 && forall k :: 0 < k < |p| ==> f <= m[p[k - 1]][p[k]]
    ensures Progress(Pushed(m, p, f, 0), orig, s, t, flow + f)
    ensures Sum(Pushed(m, p, f, 0)[s]) < Sum(m[s])
  {
    RoundKeeps(m, orig, p, f, s, t);
    ConservedRound(m, orig, p, f, s, t);
    ResidualFloor(Pushed(m, p, f, 0), orig, s);
    assert p[0] != p[|p| - 1];
  }

  /** The flow never exceeds the positive capacity out of `s`. */
  lemma ProgressBound(m: Matrix, orig: Matrix, s: int, t: int, flow: int)
    requires Progress(m, orig, s, t, flow)
    ensures flow <= Capacity(orig[s])
  {
    SumSplit(orig[s]);
  }

  class Graph {
    /** `self.graph`: the residual capacities, `graph[u, v]` for the edge from `u` to `v`. */
    const graph: array2<int>
    /** `self.ROW`: the number of nodes. */
    const row: nat
    /** The residual capacities as a value. */
    ghost var residual: Matrix

    ghost predicate Valid()
      reads this, graph
    {
      && graph.Length0 == row && graph.Length1 == row && IsSquare(residual, row)
      && forall x, y :: 0 <= x < row && 0 <= y < row ==> graph[x, y] == residual[x][y]
    }

    /** `Graph(graph)`: the capacities are copied row by row into a new
        matrix, so later changes leave the caller's rows alone. */
    constructor (m: Matrix)
      requires IsSquare(m, |m|)
      ensures Valid() && row == |m| && residual == m && fresh(graph)
    {
      var a := new int[|m|, |m|];
      for x := 0 to |m|
        invariant forall x', y :: 0 <= x' < x && 0 <= y < |m| ==> a[x', y] == m[x'][y]
      {
        for y := 0 to |m|
          invariant forall x', y' :: 0 <= x' < x && 0 <= y' < |m| ==> a[x', y'] == m[x'][y']
          invariant forall y' :: 0 <= y' < y ==> a[x, y'] == m[x][y']
        {
          a[x, y] := m[x][y];
        }
      }
      graph := a;
      row := |m|;
      residual := m;
    }

    /** `bfs(s, t, parent)`: a breadth-first search from `s` over positive
        residual capacities that stops as soon as it discovers `t`. The ghost
        `disc` lists the discovered nodes in order, `head` how many of them
        have left the queue, and `P`, `V` are `parent` and `visited` as values. */
    method Bfs(s: int, t: int, parent: array<int>) returns (found: bool, ghost p: seq<int>)
      requires Valid() && 0 <= s < row && 0 <= t < row && parent.Length == row
      modifies parent
      ensures parent[s] == old(parent[s])
      ensures found ==> AugmentingPath(residual, parent[..], p, s, t)
      ensures !found ==> s == t || forall w :: !PositiveWalk(residual, w, s, t)
    {
      p := [];
      var visited := new bool[row](_ => false);
      var queue := [s];
      visited[s] := true;
      ghost var P, V := parent[..], visited[..];
      ghost var disc, pidx, head := [s], [0], 0;
      while queue != []
        invariant visited.Length == row && parent[..] == P && visited[..] == V
        invariant Searching(residual, P, V, disc, pidx, s, t, head)
        invariant head <= |disc| && queue == disc[head..]
        invariant P[s] == old(parent[s])
        decreases 2 * Unvisited(V) + |queue|
      {
        var u := queue[0];
        queue := queue[1..];
        head := head + 1;
        found, queue, P, V, disc, pidx, p := ScanRow(s, t, u, parent, visited, queue, P, V, disc, pidx, head);
        if found {
          return;
        }
      }
      found := false;
      SearchClosed(residual, P, V, disc, pidx, s, t);
      forall w | PositiveWalk(residual, w, s, t)
        ensures s == t
      {
        WalkStaysMarked(residual, V, w, s, t);
      }
    }

    /** Lines 13-21 of `bfs`: the positive edges out of `u`, the node just
        taken from the queue, in order; each unvisited end is marked, gets
        `u` as its parent and joins the queue, and discovering `t` ends the
        search. */
    method ScanRow(s: int, t: int, u: int, parent: array<int>, visited: array<bool>, queue: seq<int>,
                   ghost P: seq<int>, ghost V: seq<bool>, ghost disc: seq<int>, ghost pidx: seq<int>, ghost head: nat)
      returns (found: bool, queue': seq<int>,
               ghost P': seq<int>, ghost V': seq<bool>, ghost disc': seq<int>, ghost pidx': seq<int>, ghost p: seq<int>)
      requires Valid() && 0 <= t < row && parent.Length == row && visited.Length == row
      requires parent[..] == P && visited[..] == V
      requires Searching(residual, P, V, disc, pidx, s, t, head - 1)
      requires 1 <= head <= |disc| && u == disc[head - 1] && queue == disc[head..]
      modifies parent, visited
      ensures parent[..] == P' && visited[..] == V' && P'[s] == P[s]
      ensures found ==> AugmentingPath(residual, P', p, s, t)
      ensures !found ==> Searching(residual, P', V', disc', pidx', s, t, head)
      ensures !found ==> head <= |disc'| && queue' == disc'[head..]
      ensures !found ==> 2 * Unvisited(V') + |queue'| <= 2 * Unvisited(V) + |queue|
    {
      queue', P', V', disc', pidx', p := queue, P, V, disc, pidx, [];
      ghost var bound := 2 * Unvisited(V) + |queue|;
      for v := 0 to row
        invariant parent[..] == P' && visited[..] == V' && P'[s] == P[s]
        invariant Scanning(residual, P', V', disc', pidx', s, t, head, u, v, queue', bound)
      {
        if !visited[v] && graph[u, v] > 0 {
          if v == t {
            ScanFound(residual, P', V', disc', pidx', s, t, head, u, v, queue', bound);
          } else {
            ScanDiscover(residual, P', V', disc', pidx', s, t, head, u, v, queue', bound);
          }
          queue' := queue' + [v];
          visited[v] := true;
          parent[v] := u;
          P', V' := P'[v := u], V'[v := true];
          if v == t {
            return true, queue', P', V', disc', pidx', Chain(disc' + [v], pidx' + [head - 1], |disc'|);
          }
          disc', pidx' := disc' + [v], pidx' + [head - 1];
        } else {
          ScanSkip(residual, P', V', disc', pidx', s, t, head, u, v, queue', bound);
        }
      }
      found := false;
      ScanEnd(residual, P', V', disc', pidx', s, t, head, u, queue', bound);
    }

    /** Lines 29-34 of `ford_fulkerson`: the smallest residual capacity along
        the path `parent` traces back from `t`. `path_flow` starts at
        infinity, so the first `min` yields the capacity of the last edge;
        here it starts at that capacity, which the first `min` then keeps. */
    method PathFlow(s: int, t: int, parent: array<int>, ghost p: seq<int>) returns (f: int)
      requires Valid() && parent.Length == row && AugmentingPath(residual, parent[..], p, s, t)
      ensures f > 0
      ensures forall k :: 0 < k < |p| ==> f <= residual[p[k - 1]][p[k]]
      ensures exists k :: 0 < k < |p| && f == residual[p[k - 1]][p[k]]
    {
      var v := t;
      ghost var i := |p| - 1;
      assert parent[v] == p[i - 1];
      f := graph[parent[v], v];
      ghost var w := i;
      while v != s
        invariant 0 <= i < |p| && v == p[i]
        invariant forall k :: i < k < |p| ==> f <= residual[p[k - 1]][p[k]]
        invariant i <= w < |p| && 0 < w && f == residual[p[w - 1]][p[w]]
        decreases i
      {
        var u := parent[v];
        assert u == p[i - 1];
        if graph[u, v] < f {
          f := graph[u, v];
          w := i;
        }
        v := parent[v];
        i := i - 1;
      }
      assert i == 0 by {
        assert p[i] == p[0];
      }
    }

    /** Lines 35-40 of `ford_fulkerson`: `f` comes off every edge of the path
        and is added to its reverse, from the last edge back. */
    method Augment(s: int, t: int, parent: array<int>, ghost p: seq<int>, f: int)
      requires Valid() && parent.Length == row && AugmentingPath(residual, parent[..], p, s, t)
      modifies this, graph
      ensures Valid() && residual == Pushed(old(residual), p, f, 0)
    {
      var v := t;
      ghost var i := |p| - 1;
      ghost var m0 := residual;
      while v != s
        invariant Valid() && 0 <= i < |p| && v == p[i]
        invariant residual == Pushed(m0, p, f, i)
        decreases i
      {
        var u := parent[v];
        assert u == p[i - 1] && u != v;
        PushEdge(u, v, f);
        v := parent[v];
        i := i - 1;
      }
      assert i == 0 by {
        assert p[i] == p[0];
      }
    }

    /** Lines 38-39 of `ford_fulkerson`: `f` comes off the edge from `u` to
        `v` and is added to the reverse edge. */
    method PushEdge(u: int, v: int, f: int)
      requires Valid() && 0 <= u < row && 0 <= v < row && u != v
      modifies this, graph
      ensures Valid() && residual == Push(old(residual), u, v, f)
    {
      graph[u, v] := graph[u, v] - f;
      graph[v, u] := graph[v, u] + f;
      ghost var before := residual;
      residual := Push(residual, u, v, f);
      forall x, y | 0 <= x < row && 0 <= y < row
        ensures graph[x, y] == residual[x][y]
      {
        PushEntry(before, u, v, f, x, y);
      }
    }

    /** Lines 29-41 of `ford_fulkerson`: one round along the path `bfs`
        found, returning the flow it adds. */
    method Round(source: int, sink: int, parent: array<int>, ghost p: seq<int>, ghost orig: Matrix, ghost flow: int)
      returns (f: int)
      requires Valid() && parent.Length == row && AugmentingPath(residual, parent[..], p, source, sink)
      requires Progress(residual, orig, source, sink, flow)
      modifies this, graph
      ensures Valid() && Progress(residual, orig, source, sink, flow + f)
      ensures Sum(residual[source]) < Sum(old(residual)[source])
    {
      f := PathFlow(source, sink, parent, p);
      ProgressRound(residual, orig, p, f, source, sink, flow);
      Augment(source, sink, parent, p, f);
    }

    /** `ford_fulkerson(source, sink)`. Every round keeps `Residual` and
        moves its bottleneck from row `source` into `max_flow` and into row
        `sink`, and leaves every other row's sum as it was; the source row's
        sum, bounded below by the floors, falls by at least one each round.
        When it stops no positive path from `source` to `sink` is left. */
    method FordFulkerson(source: int, sink: int) returns (maxFlow: int)
      requires Valid() && 0 <= source < row && 0 <= sink < row
      modifies this, graph
      ensures Valid() && Residual(residual, old(residual))
      ensures maxFlow == Sum(old(residual)[source]) - Sum(residual[source])
      ensures 0 <= maxFlow <= Capacity(old(residual)[source])
      ensures source != sink ==> Sum(residual[sink]) == Sum(old(residual)[sink]) + maxFlow
      ensures Conserved(residual, old(residual), source, sink)
      ensures source == sink ==> maxFlow == 0
      ensures source != sink ==> forall w :: !PositiveWalk(residual, w, source, sink)
    {
      var parent := new int[row](_ => -1);
      maxFlow := 0;
      ghost var orig := residual;
      ProgressStart(orig, source, sink);
      var found;
      ghost var p;
      found, p := Bfs(source, sink, parent);
      while found
        invariant Valid() && parent.Length == row
        invariant found ==> AugmentingPath(residual, parent[..], p, source, sink)
        invariant !found ==> source == sink || forall w :: !PositiveWalk(residual, w, source, sink)
        invariant Progress(residual, orig, source, sink, maxFlow)
        decreases Sum(residual[source]) - FloorSum(orig[source])
      {
        var f := Round(source, sink, parent, p, orig, maxFlow);
        maxFlow := maxFlow + f;
        found, p := Bfs(source, sink, parent);
      }
      ProgressBound(residual, orig, source, sink, maxFlow);
    }
  }
}
