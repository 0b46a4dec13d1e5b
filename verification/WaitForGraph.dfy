/** Paths and cycles in the wait-for graph kept by the lock table. */
module WaitForGraph {

  /** Transactions are named by UUIDs; only their identity matters here. */
  type TxnId = nat

  /** `g[a]` is the set of transactions that `a` waits for. */
  type Graph = map<TxnId, set<TxnId>>

  function Successors(g: Graph, a: TxnId): set<TxnId> {
    if a in g then g[a] else {}
  }

  ghost predicate Edge(g: Graph, a: TxnId, b: TxnId) {
    a in g && b in g[a]
  }

  ghost predicate Walk(g: Graph, p: seq<TxnId>) {
    |p| >= 1 && forall i :: 0 <= i < |p| - 1 ==> Edge(g, p[i], p[i + 1])
  }

  /** `p` follows wait-for edges from `s` back to `s`. */
  ghost predicate CycleAt(g: Graph, s: TxnId, p: seq<TxnId>) {
    |p| >= 2 && Walk(g, p) && p[0] == s && p[|p| - 1] == s
  }

  ghost predicate OnCycle(g: Graph, s: TxnId) {
    exists p :: CycleAt(g, s, p)
  }

  ghost predicate ShortestCycleAt(g: Graph, s: TxnId, p: seq<TxnId>) {
    CycleAt(g, s, p) && forall q :: CycleAt(g, s, q) ==> |p| <= |q|
  }

  ghost predicate Acyclic(g: Graph) {
    forall s, p :: !CycleAt(g, s, p)
  }

  /** Every node that occurs in the graph, as a waiter or as a target. */
  function Nodes(g: Graph): set<TxnId> {
    g.Keys + (set a, b | a in g && b in g[a] :: b)
  }

  /** A cycle avoiding new edges is an old cycle; a cycle through `t` can be started at `t`. */
  lemma CycleIsOldOrThroughSource(g: Graph, h: Graph, t: TxnId, s: TxnId, p: seq<TxnId>)
    requires CycleAt(h, s, p)
    requires forall a, b :: a != t && Edge(h, a, b) ==> Edge(g, a, b)
    ensures CycleAt(g, s, p) || OnCycle(h, t)
  {
    if i :| 0 <= i < |p| - 1 && p[i] == t {
      CycleRotates(h, s, p, i);
    }
  }

  /** Adding edges out of `t` alone can only close cycles through `t`. */
  lemma NewEdgesCloseCyclesAtSource(g: Graph, h: Graph, t: TxnId)
    requires Acyclic(g)
    requires forall a, b :: a != t && Edge(h, a, b) ==> Edge(g, a, b)
    requires !OnCycle(h, t)
    ensures Acyclic(h)
  {
    forall s, p ensures !CycleAt(h, s, p) {
      if CycleAt(h, s, p) {
        CycleIsOldOrThroughSource(g, h, t, s, p);
      }
    }
  }

  lemma SubgraphAcyclic(g: Graph, h: Graph)
    requires Acyclic(g)
    requires forall a, b :: Edge(h, a, b) ==> Edge(g, a, b)
    ensures Acyclic(h)
  {
    forall s, p ensures !CycleAt(h, s, p) {
      assert CycleAt(h, s, p) ==> CycleAt(g, s, p);
    }
  }

  lemma CycleRotates(h: Graph, s: TxnId, p: seq<TxnId>, i: nat)
    requires CycleAt(h, s, p) && i < |p| - 1
    ensures CycleAt(h, p[i], p[i..] + p[1..i + 1])
  {
    var q := p[i..] + p[1..i + 1];
    assert |q| == |p|;
    forall j | 0 <= j < |q| - 1 ensures Edge(h, q[j], q[j + 1]) {
      if j < |p| - 1 - i {
        assert q[j] == p[i + j] && q[j + 1] == p[i + j + 1];
      } else {
        var k := j - (|p| - 1 - i);
        assert q[j + 1] == p[k + 1];
        assert q[j] == p[k];
      }
    }
  }

  // ---- Breadth-first search ------------------------------------------------

  /** Some queued path reaches `v` in at most `d` steps. */
  ghost predicate Queued(queue: seq<seq<TxnId>>, v: TxnId, d: int) {
    exists j :: 0 <= j < |queue| && |queue[j]| >= 1 && queue[j][|queue[j]| - 1] == v && |queue[j]| - 1 <= d
  }

  /** `v` was visited, or is queued, within `d` steps of the start. */
  ghost predicate Reached(queue: seq<seq<TxnId>>, depth: map<TxnId, int>, v: TxnId, d: int) {
    (v in depth && depth[v] <= d) || Queued(queue, v, d)
  }

  /**
   * The breadth-first frontier: everything one step beyond the start or a
   * visited node has been reached at its breadth-first distance.
   */
  ghost predicate Frontier(g: Graph, start: TxnId, queue: seq<seq<TxnId>>, depth: map<TxnId, int>) {
    && (forall w :: Edge(g, start, w) ==> Reached(queue, depth, w, 1))
    && (forall v, w :: v in depth && Edge(g, v, w) ==> Reached(queue, depth, w, depth[v] + 1))
  }

  /** Along any walk from the start, the last node is visited or some queued path is no longer than the walk. */
  lemma {:induction false} WalkReached(g: Graph, start: TxnId, queue: seq<seq<TxnId>>, depth: map<TxnId, int>,
                                       p: seq<TxnId>, i: nat)
    requires Frontier(g, start, queue, depth) && start !in depth
    requires Walk(g, p) && p[0] == start && 1 <= i < |p|
    ensures (p[i] in depth && depth[p[i]] <= i) || exists k :: 1 <= k <= i && Queued(queue, p[k], k)
    decreases i
  {
    assert Edge(g, p[i - 1], p[i]);
    if i == 1 {
      assert Reached(queue, depth, p[1], 1);
    } else {
      WalkReached(g, start, queue, depth, p, i - 1);
      if p[i - 1] in depth && depth[p[i - 1]] <= i - 1 {
        assert Reached(queue, depth, p[i], depth[p[i - 1]] + 1);
        if Queued(queue, p[i], depth[p[i - 1]] + 1) {
          assert Queued(queue, p[i], i);
        }
      }
    }
  }

  /** Paths are queued in order of length, and two queued lengths differ by at most one. */
  ghost predicate OrderedQueue(queue: seq<seq<TxnId>>) {
    forall i, j :: 0 <= i < j < |queue| ==> |queue[i]| <= |queue[j]| <= |queue[0]| + 1
  }

  ghost predicate QueueOfWalks(g: Graph, start: TxnId, queue: seq<seq<TxnId>>) {
    forall i :: 0 <= i < |queue| ==> |queue[i]| >= 2 && Walk(g, queue[i]) && queue[i][0] == start
  }

  /** The loop invariant of the search: `depth` gives the breadth-first distance of each visited node. */
  ghost predicate Search(g: Graph, start: TxnId, queue: seq<seq<TxnId>>, depth: map<TxnId, int>) {
    && QueueOfWalks(g, start, queue) && OrderedQueue(queue)
    && start !in depth && depth.Keys <= Nodes(g)
    && (forall v, j :: v in depth && 0 <= j < |queue| ==> depth[v] <= |queue[j]| - 1)
    && Frontier(g, start, queue, depth)
  }

  /** The paths that extend `p` by one wait-for edge, each once, in some order. */
  ghost predicate Extensions(p: seq<TxnId>, targets: set<TxnId>, paths: seq<seq<TxnId>>) {
    && (forall j :: 0 <= j < |paths| ==> |paths[j]| == |p| + 1 && paths[j][..|p|] == p && paths[j][|p|] in targets)
    && (forall w :: w in targets ==> p + [w] in paths)
    && (forall i, j :: 0 <= i < j < |paths| ==> paths[i] != paths[j])
  }

  lemma SearchStarts(g: Graph, start: TxnId, paths: seq<seq<TxnId>>)
    requires Extensions([start], Successors(g, start), paths)
    ensures Search(g, start, paths, map[])
  {
    ExtensionsAreWalks(g, start, [start], paths);
    forall w | Edge(g, start, w) ensures Reached(paths, map[], w, 1) {
      var j :| 0 <= j < |paths| && paths[j] == [start] + [w];
    }
  }

  /** The first queued path, when it has come back to the start, is a shortest cycle. */
  lemma FirstReturnIsShortest(g: Graph, start: TxnId, queue: seq<seq<TxnId>>, depth: map<TxnId, int>)
    requires Search(g, start, queue, depth)
    requires |queue| > 0 && queue[0][|queue[0]| - 1] == start
    ensures ShortestCycleAt(g, start, queue[0])
  {
    forall q | CycleAt(g, start, q) ensures |queue[0]| <= |q| {
      WalkReached(g, start, queue, depth, q, |q| - 1);
    }
  }

  lemma EmptyQueueMeansNoCycle(g: Graph, start: TxnId, depth: map<TxnId, int>)
    requires Search(g, start, [], depth)
    ensures !OnCycle(g, start)
  {
    if q :| CycleAt(g, start, q) {
      WalkReached(g, start, [], depth, q, |q| - 1);
    }
  }

  /** Dropping a path whose end was already visited. */
  lemma SkipVisited(g: Graph, start: TxnId, queue: seq<seq<TxnId>>, depth: map<TxnId, int>)
    requires Search(g, start, queue, depth)
    requires |queue| > 0 && queue[0][|queue[0]| - 1] in depth
    ensures Search(g, start, queue[1..], depth)
  {
    forall w, d | Reached(queue, depth, w, d) ensures Reached(queue[1..], depth, w, d) {
      DropFirst(queue, depth, depth, w, d);
    }
  }

  lemma DropFirst(queue: seq<seq<TxnId>>, depth: map<TxnId, int>, depth': map<TxnId, int>, w: TxnId, d: int)
    requires |queue| > 0 && |queue[0]| >= 2
    requires forall v :: v in depth ==> v in depth' && depth'[v] == depth[v]
    requires queue[0][|queue[0]| - 1] in depth' && depth'[queue[0][|queue[0]| - 1]] <= |queue[0]| - 1
    requires Reached(queue, depth, w, d)
    ensures Reached(queue[1..], depth', w, d)
  {
    if !(w in depth && depth[w] <= d) {
      var j :| 0 <= j < |queue| && |queue[j]| >= 1 && queue[j][|queue[j]| - 1] == w && |queue[j]| - 1 <= d;
      if j > 0 {
        assert queue[1..][j - 1] == queue[j];
      }
    }
  }

  /** Visiting the end of the first path and queueing its extensions. */
  lemma Visit(g: Graph, start: TxnId, queue: seq<seq<TxnId>>, depth: map<TxnId, int>, paths: seq<seq<TxnId>>)
    requires Search(g, start, queue, depth)
    requires |queue| > 0 && queue[0][|queue[0]| - 1] != start && queue[0][|queue[0]| - 1] !in depth
    requires Extensions(queue[0], Successors(g, queue[0][|queue[0]| - 1]), paths)
    ensures queue[0][|queue[0]| - 1] in Nodes(g)
    ensures Search(g, start, queue[1..] + paths, depth[queue[0][|queue[0]| - 1] := |queue[0]| - 1])
  {
    var p := queue[0];
    var current := p[|p| - 1];
    assert Edge(g, p[|p| - 2], current);
    VisitKeepsFrontier(g, start, queue, depth, paths);
    ExtensionsAreWalks(g, start, p, paths);
  }

  lemma ExtensionsAreWalks(g: Graph, start: TxnId, p: seq<TxnId>, paths: seq<seq<TxnId>>)
    requires Walk(g, p) && p[0] == start
    requires Extensions(p, Successors(g, p[|p| - 1]), paths)
    ensures forall j :: 0 <= j < |paths| ==> |paths[j]| == |p| + 1 && Walk(g, paths[j]) && paths[j][0] == start
  {
    forall j | 0 <= j < |paths| ensures |paths[j]| == |p| + 1 && Walk(g, paths[j]) && paths[j][0] == start {
      var q := paths[j];
      forall i | 0 <= i < |q| - 1 ensures Edge(g, q[i], q[i + 1]) {
        assert q[i] == q[..|p|][i];
        if i < |p| - 1 {
          assert q[i + 1] == q[..|p|][i + 1];
        }
      }
      assert q[0] == q[..|p|][0];
    }
  }

  lemma VisitKeepsFrontier(g: Graph, start: TxnId, queue: seq<seq<TxnId>>, depth: map<TxnId, int>, paths: seq<seq<TxnId>>)
    requires Frontier(g, start, queue, depth)
    requires |queue| > 0 && |queue[0]| >= 2
    requires queue[0][|queue[0]| - 1] !in depth
    requires Extensions(queue[0], Successors(g, queue[0][|queue[0]| - 1]), paths)
    ensures Frontier(g, start, queue[1..] + paths, depth[queue[0][|queue[0]| - 1] := |queue[0]| - 1])
  {
    var p := queue[0];
    var current := p[|p| - 1];
    var depth' := depth[current := |p| - 1];
    var queue' := queue[1..] + paths;
    forall w, d | Reached(queue, depth, w, d) ensures Reached(queue', depth', w, d) {
      DropFirst(queue, depth, depth', w, d);
      QueueGrows(queue[1..], paths, depth', w, d);
    }
    forall w | Edge(g, current, w) ensures Reached(queue', depth', w, |p|) {
      var j :| 0 <= j < |paths| && paths[j] == p + [w];
      assert queue'[|queue| - 1 + j] == p + [w];
    }
  }

  lemma QueueGrows(queue: seq<seq<TxnId>>, paths: seq<seq<TxnId>>, depth: map<TxnId, int>, w: TxnId, d: int)
    requires Reached(queue, depth, w, d)
    ensures Reached(queue + paths, depth, w, d)
  {
    if !(w in depth && depth[w] <= d) {
      var j :| 0 <= j < |queue| && |queue[j]| >= 1 && queue[j][|queue[j]| - 1] == w && |queue[j]| - 1 <= d;
      assert (queue + paths)[j] == queue[j];
    }
  }
}
