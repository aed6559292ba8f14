/**
 The clustering of the memory consolidator: deterministic DBSCAN with a work list over a given
 distance matrix, and what its labels mean in terms of the matrix.
 */
module Dbscan {

  const UNVISITED := -2
  const NOISE := -1

  /** The parameters of one clustering: the matrix, the radius and the density threshold. */
  datatype Problem = Problem(dist: seq<seq<real>>, eps: real, minSamples: int) {
    ghost predicate Valid() {
      forall i | 0 <= i < |dist| :: |dist[i]| == |dist|
    }

    function N(): nat {
      |dist|
    }

    predicate Near(i: nat, j: nat)
      requires Valid() && i < N() && j < N()
    {
      dist[i][j] <= eps
    }

    /** The neighbours of i among the first m points, in index order. */
    function NeighboursBelow(i: nat, m: nat): (near: seq<nat>)
      requires Valid() && i < N() && m <= N()
      ensures forall k | 0 <= k < |near| :: near[k] < m && Near(i, near[k])
      ensures forall j: nat | j < m && Near(i, j) :: j in near
      ensures forall k, l | 0 <= k < l < |near| :: near[k] < near[l]
    {
      if m == 0 then []
      else NeighboursBelow(i, m - 1) + if Near(i, m - 1) then [m - 1] else []
    }

    function Neighbours(i: nat): seq<nat>
      requires Valid() && i < N()
    {
      NeighboursBelow(i, N())
    }

    predicate Core(i: nat)
      requires Valid() && i < N()
    {
      |Neighbours(i)| >= minSamples
    }

    /** i and j are core points and j is within reach of i. */
    predicate CoreStep(i: nat, j: nat)
      requires Valid()
    {
      i < N() && j < N() && Core(i) && Core(j) && Near(i, j)
    }

    /** A chain of core points, each within reach of the one before. */
    ghost predicate IsChain(path: seq<nat>, a: nat, b: nat)
      requires Valid()
    {
      && path != [] && path[0] == a && path[|path| - 1] == b
      && a < N() && Core(a)
      && forall k | 0 <= k < |path| - 1 :: CoreStep(path[k], path[k + 1])
    }

    ghost predicate Linked(a: nat, b: nat)
      requires Valid()
    {
      exists path :: IsChain(path, a, b)
    }

    ghost predicate Symmetric()
      requires Valid()
    {
      forall i: nat, j: nat | i < N() && j < N() :: Near(i, j) == Near(j, i)
    }
  }

  // ── What the labels mean ──────────────────────────────────────────

  /** A core point whose cluster is complete has drawn everything within its reach into its cluster or an earlier one. */
  ghost predicate Absorbed(p: Problem, labels: seq<int>, c: nat)
    requires p.Valid() && |labels| == p.N() && c < p.N()
  {
    forall q: nat | q < p.N() && p.Near(c, q) :: 0 <= labels[q] <= labels[c]
  }

  /** Some core point of the same cluster reaches q. */
  ghost predicate Reached(p: Problem, labels: seq<int>, q: nat)
    requires p.Valid() && |labels| == p.N() && q < p.N()
  {
    exists c: nat :: c < p.N() && p.Core(c) && labels[c] == labels[q] && p.Near(c, q)
  }

  /** The clusters begin at these points: core, in increasing order, each the smallest core point of its cluster. */
  ghost predicate Begins(p: Problem, labels: seq<int>, starts: seq<nat>)
    requires p.Valid() && |labels| == p.N()
  {
    && (forall c | 0 <= c < |starts| :: starts[c] < p.N() && p.Core(starts[c]) && labels[starts[c]] == c)
    && (forall c, d | 0 <= c < d < |starts| :: starts[c] < starts[d])
    && (forall q: nat | q < p.N() :: Rooted(p, labels, starts, q))
  }

  /** A core point is linked to the beginning of its cluster, which is no later. */
  ghost predicate Rooted(p: Problem, labels: seq<int>, starts: seq<nat>, q: nat)
    requires p.Valid() && |labels| == p.N() && q < p.N()
  {
    p.Core(q) && 0 <= labels[q] < |starts| ==> starts[labels[q]] <= q && p.Linked(starts[labels[q]], q)
  }

  /** The labelling that the work list leaves, for any matrix. */
  ghost predicate Clustered(p: Problem, labels: seq<int>, starts: seq<nat>)
    requires p.Valid()
  {
    && |labels| == p.N()
    && (forall q | 0 <= q < p.N() :: NOISE <= labels[q] < |starts|)
    && (forall q: nat | q < p.N() && p.Core(q) :: labels[q] >= 0 && Absorbed(p, labels, q))
    && (forall q: nat | q < p.N() && !p.Core(q) && labels[q] >= 0 :: Reached(p, labels, q))
    && Begins(p, labels, starts)
  }

  // ── The algorithm ─────────────────────────────────────────────────

  /** The state between two rounds of the outer loop: the first i points have been visited. */
  ghost predicate Between(p: Problem, labels: seq<int>, starts: seq<nat>, i: nat)
    requires p.Valid()
  {
    && |labels| == p.N() && i <= p.N()
    && (forall q | 0 <= q < p.N() :: UNVISITED <= labels[q] < |starts|)
    && (forall q | 0 <= q < i :: labels[q] != UNVISITED)
    && (forall c | 0 <= c < |starts| :: starts[c] < i)
    && (forall q: nat | q < p.N() && labels[q] == NOISE :: !p.Core(q))
    && (forall q: nat | q < p.N() && p.Core(q) && labels[q] >= 0 :: Absorbed(p, labels, q))
    && (forall q: nat | q < p.N() && !p.Core(q) && labels[q] >= 0 :: Reached(p, labels, q))
    && Begins(p, labels, starts)
  }

  /** The points whose neighbourhood has been computed: each once, and exactly those with a label. */
  ghost predicate AskedOnce(labels: seq<int>, asked: seq<nat>) {
    && (forall k, l | 0 <= k < l < |asked| :: asked[k] != asked[l])
    && (forall q: nat :: q in asked <==> q < |labels| && labels[q] != UNVISITED)
  }

  /** Within the cluster k = |starts| - 1: as Between, but its core points may still wait for seeds. */
  ghost predicate Growing(p: Problem, labels: seq<int>, starts: seq<nat>, i: nat, seeds: seq<nat>, cursor: nat)
    requires p.Valid()
  {
    var k := |starts| - 1;
    && |labels| == p.N() && i < p.N() && k >= 0 && starts[k] == i && cursor <= |seeds|
    && (forall q | 0 <= q <= i :: labels[q] != UNVISITED)
    && (forall q: nat | q < p.N() :: Fits(p, labels, k, seeds, cursor, q))
    && Begins(p, labels, starts)
  }

  /** The point's label is right so far, while the cluster k grows. */
  ghost predicate Fits(p: Problem, labels: seq<int>, k: int, seeds: seq<nat>, cursor: nat, q: nat)
    requires p.Valid() && |labels| == p.N() && q < p.N() && cursor <= |seeds|
  {
    && UNVISITED <= labels[q] <= k
    && if labels[q] < 0 then labels[q] == NOISE ==> !p.Core(q)
       else if !p.Core(q) then Reached(p, labels, q)
       else if labels[q] < k then Absorbed(p, labels, q)
       else Drawn(p, labels, seeds, cursor, q)
  }

  /** Everything within reach of c has a label or waits among the seeds. */
  ghost predicate Drawn(p: Problem, labels: seq<int>, seeds: seq<nat>, cursor: nat, c: nat)
    requires p.Valid() && |labels| == p.N() && c < p.N() && cursor <= |seeds|
  {
    forall q: nat | q < p.N() && p.Near(c, q) :: 0 <= labels[q] <= labels[c] || q in seeds[cursor..]
  }

  /** The seeds are distinct points, each within reach of a core point of the cluster; visited ones have a label. */
  ghost predicate SeedsOk(p: Problem, labels: seq<int>, k: int, seeds: seq<nat>, cursor: nat)
    requires p.Valid()
  {
    && |labels| == p.N() && cursor <= |seeds|
    && (forall a, b | 0 <= a < b < |seeds| :: seeds[a] != seeds[b])
    && (forall a | 0 <= a < |seeds| :: seeds[a] < p.N() && Discovered(p, labels, k, seeds[a]))
    && (forall a | 0 <= a < cursor :: 0 <= labels[seeds[a]] <= k)
  }

  ghost predicate Discovered(p: Problem, labels: seq<int>, k: int, q: nat)
    requires p.Valid() && |labels| == p.N() && q < p.N()
  {
    exists c: nat :: c < p.N() && p.Core(c) && labels[c] == k && p.Near(c, q)
  }

  lemma DistinctBelow(xs: seq<nat>, n: nat)
    requires forall a, b | 0 <= a < b < |xs| :: xs[a] != xs[b]
    requires forall a | 0 <= a < |xs| :: xs[a] < n
    ensures |xs| <= n
  {
    if xs != [] {
      assert xs[0] < n;
    }
    if n - 1 in xs {
      var j :| 0 <= j < |xs| && xs[j] == n - 1;
      DistinctBelow(xs[..j] + xs[j + 1..], n - 1);
    } else if n > 0 {
      DistinctBelow(xs, n - 1);
    }
  }

  lemma StepTo(p: Problem, i: nat, j: nat)
    requires p.Valid() && i < p.N() && j < p.N() && p.Core(i) && p.Core(j) && p.Near(i, j)
    ensures p.CoreStep(i, j)
  {
  }

  lemma LinkExtends(p: Problem, a: nat, b: nat, c: nat)
    requires p.Valid() && p.Linked(a, b) && p.CoreStep(b, c)
    ensures p.Linked(a, c)
  {
    var path :| p.IsChain(path, a, b);
    assert p.IsChain(path + [c], a, c);
  }

  lemma LinkSelf(p: Problem, a: nat)
    requires p.Valid() && a < p.N() && p.Core(a)
    ensures p.Linked(a, a)
  {
    assert p.IsChain([a], a, a);
  }

  // ── Rounds of the work list ───────────────────────────────────────

  /** The outer loop meets a point that is not core. */
  lemma MarkNoise(p: Problem, labels: seq<int>, starts: seq<nat>, i: nat)
    requires p.Valid() && Between(p, labels, starts, i) && i < p.N()
    requires labels[i] == UNVISITED && !p.Core(i)
    ensures Between(p, labels[i := NOISE], starts, i + 1)
  {
    hide Problem.Core, Problem.Near, Problem.Linked;
    KeepsReached(p, labels, i, NOISE);
    var labels' := labels[i := NOISE];
    forall q: nat | q < p.N()
      ensures Rooted(p, labels', starts, q)
    {
      assert Rooted(p, labels, starts, q);
    }
  }

  /** Giving an unlabelled or noise point a label takes no reached point away from its core point. */
  lemma KeepsReached(p: Problem, labels: seq<int>, i: nat, mark: int)
    requires p.Valid() && |labels| == p.N() && i < p.N() && labels[i] < 0
    ensures forall q: nat | q < p.N() && q != i && labels[q] >= 0 && Reached(p, labels, q) ::
      Reached(p, labels[i := mark], q)
  {
    hide Problem.Core, Problem.Near;
    forall q: nat | q < p.N() && q != i && labels[q] >= 0 && Reached(p, labels, q)
      ensures Reached(p, labels[i := mark], q)
    {
      var c: nat :| c < p.N() && p.Core(c) && labels[c] == labels[q] && p.Near(c, q);
      assert labels[i := mark][c] == labels[c];
    }
  }

  /** The outer loop meets a core point: a new cluster begins, its neighbours being the seeds. */
  lemma Begin(p: Problem, labels: seq<int>, starts: seq<nat>, i: nat, seeds: seq<nat>)
    requires p.Valid() && Between(p, labels, starts, i) && i < p.N()
    requires labels[i] == UNVISITED && p.Core(i)
    requires forall q: nat :: q in seeds <==> q < p.N() && p.Near(i, q) && q != i
    requires forall a, b | 0 <= a < b < |seeds| :: seeds[a] != seeds[b]
    ensures Growing(p, labels[i := |starts|], starts + [i], i, seeds, 0)
    ensures SeedsOk(p, labels[i := |starts|], |starts|, seeds, 0)
  {
    hide Problem.Core, Problem.Near, Problem.Linked;
    KeepsReached(p, labels, i, |starts|);
    LinkSelf(p, i);
    var labels', starts' := labels[i := |starts|], starts + [i];
    assert seeds[0..] == seeds;
    assert Drawn(p, labels', seeds, 0, i);
    forall q: nat | q < p.N()
      ensures Fits(p, labels', |starts|, seeds, 0, q) && Rooted(p, labels', starts', q)
    {
      assert Rooted(p, labels, starts, q);
    }
    forall a | 0 <= a < |seeds|
      ensures seeds[a] < p.N() && Discovered(p, labels', |starts|, seeds[a])
    {
      assert seeds[a] in seeds;
    }
    assert Begins(p, labels', starts');
  }

  /** What one round of the work list does to labels and seeds. */
  ghost predicate Popped(p: Problem, labels: seq<int>, k: int, seeds: seq<nat>, cursor: nat, labels': seq<int>, seeds': seq<nat>)
    requires p.Valid() && |labels| == p.N() && cursor < |seeds| && seeds[cursor] < p.N()
  {
    var point := seeds[cursor];
    && seeds <= seeds' && |labels'| == p.N()
    && if labels[point] >= 0 then labels' == labels
       else
         && labels' == labels[point := k]
         && (p.Core(point) ==> Drawn(p, labels', seeds', cursor + 1, point))
  }

  lemma PopFits(
    p: Problem, labels: seq<int>, k: int, seeds: seq<nat>, cursor: nat, labels': seq<int>, seeds': seq<nat>, q: nat)
    requires p.Valid() && |labels| == p.N() && cursor < |seeds| && seeds[cursor] < p.N() && q < p.N() && k >= 0
    requires Popped(p, labels, k, seeds, cursor, labels', seeds')
    requires Fits(p, labels, k, seeds, cursor, q) && Discovered(p, labels, k, seeds[cursor])
    requires labels[seeds[cursor]] <= k
    ensures Fits(p, labels', k, seeds', cursor + 1, q)
  {
    hide Problem.Core, Problem.Near;
    assert seeds[cursor..] == [seeds[cursor]] + seeds[cursor + 1..];
    assert seeds'[cursor + 1..] == seeds[cursor + 1..] + seeds'[|seeds|..];
    var point := seeds[cursor];
    if labels[point] < 0 {
      KeepsReached(p, labels, point, k);
      KeepsDiscovered(p, labels, k, point);
    }
  }

  lemma PopRooted(
    p: Problem, labels: seq<int>, starts: seq<nat>, seeds: seq<nat>, cursor: nat, labels': seq<int>, seeds': seq<nat>, q: nat)
    requires p.Valid() && |labels| == p.N() && cursor < |seeds| && seeds[cursor] < p.N() && q < p.N()
    requires |starts| > 0 && Popped(p, labels, |starts| - 1, seeds, cursor, labels', seeds')
    requires forall c: nat | c < p.N() :: Rooted(p, labels, starts, c)
    requires Discovered(p, labels, |starts| - 1, seeds[cursor])
    requires labels[seeds[cursor]] < 0 && p.Core(seeds[cursor]) ==> starts[|starts| - 1] <= seeds[cursor]
    ensures Rooted(p, labels', starts, q)
  {
    hide Problem.Core, Problem.Near, Problem.Linked;
    assert Rooted(p, labels, starts, q);
    if q == seeds[cursor] && labels[q] < 0 && p.Core(q) {
      var c: nat :| c < p.N() && p.Core(c) && labels[c] == |starts| - 1 && p.Near(c, q);
      assert Rooted(p, labels, starts, c);
      StepTo(p, c, q);
      LinkExtends(p, starts[|starts| - 1], c, q);
    }
  }

  /** One round keeps the invariants of the work list; the new seeds are only those a core point draws. */
  lemma Pop(
    p: Problem, labels: seq<int>, starts: seq<nat>, i: nat, seeds: seq<nat>, cursor: nat, labels': seq<int>, more: seq<nat>)
    requires p.Valid() && Growing(p, labels, starts, i, seeds, cursor) && cursor < |seeds|
    requires SeedsOk(p, labels, |starts| - 1, seeds, cursor)
    requires Popped(p, labels, |starts| - 1, seeds, cursor, labels', seeds + more)
    requires more == [] || (p.Core(seeds[cursor]) && labels[seeds[cursor]] < 0)
    requires forall a, b | 0 <= a < b < |seeds + more| :: (seeds + more)[a] != (seeds + more)[b]
    requires forall r <- more :: r < p.N() && p.Near(seeds[cursor], r)
    ensures Growing(p, labels', starts, i, seeds + more, cursor + 1)
    ensures SeedsOk(p, labels', |starts| - 1, seeds + more, cursor + 1)
  {
    hide Problem.Core, Problem.Near, Problem.Linked, Rooted, Fits, Discovered;
    var k, point, seeds', next := |starts| - 1, seeds[cursor], seeds + more, cursor + 1;
    assert labels[point] <= k && (labels[point] == NOISE ==> !p.Core(point)) && labels[point] >= UNVISITED by {
      assert Fits(p, labels, k, seeds, cursor, point);
      UnlabelledFits(p, labels, k, seeds, cursor, point);
    }
    forall q: nat | q < p.N()
      ensures Fits(p, labels', k, seeds', next, q) && Rooted(p, labels', starts, q)
    {
      PopFits(p, labels, k, seeds, cursor, labels', seeds', q);
      PopRooted(p, labels, starts, seeds, cursor, labels', seeds', q);
    }
    assert Begins(p, labels', starts);
    if labels[point] < 0 {
      KeepsDiscovered(p, labels, k, point);
    }
    forall a | 0 <= a < |seeds'|
      ensures seeds'[a] < p.N() && Discovered(p, labels', k, seeds'[a])
    {
      if a >= |seeds| {
        assert seeds'[a] in more;
        DiscoveredBy(p, labels', k, point, seeds'[a]);
      }
    }
    assert SeedsOk(p, labels', k, seeds', next);
  }

  lemma UnlabelledFits(p: Problem, labels: seq<int>, k: int, seeds: seq<nat>, cursor: nat, q: nat)
    requires p.Valid() && |labels| == p.N() && q < p.N() && cursor <= |seeds|
    requires Fits(p, labels, k, seeds, cursor, q)
    ensures UNVISITED <= labels[q] <= k && (labels[q] == NOISE ==> !p.Core(q))
  {
    hide Problem.Core;
  }

  lemma DiscoveredBy(p: Problem, labels: seq<int>, k: int, c: nat, q: nat)
    requires p.Valid() && |labels| == p.N() && q < p.N()
    requires c < p.N() && p.Core(c) && labels[c] == k && p.Near(c, q)
    ensures Discovered(p, labels, k, q)
  {
  }

  /** `more` are the unlabelled points within reach of `point` that were not queued before, each once. */
  ghost predicate ExtendedBy(p: Problem, labels: seq<int>, seeds: seq<nat>, more: seq<nat>, point: nat)
    requires p.Valid() && |labels| == p.N() && point < p.N()
  {
    && (forall a, b | 0 <= a < b < |seeds + more| :: (seeds + more)[a] != (seeds + more)[b])
    && (forall q <- more :: q < p.N() && p.Near(point, q))
    && (forall q: nat | q < p.N() && p.Near(point, q) && labels[q] < 0 :: q in seeds || q in more)
  }

  lemma KeepsDiscovered(p: Problem, labels: seq<int>, k: int, point: nat)
    requires p.Valid() && |labels| == p.N() && point < p.N() && k >= 0 && labels[point] < 0
    ensures forall q: nat | q < p.N() && Discovered(p, labels, k, q) :: Discovered(p, labels[point := k], k, q)
  {
    hide Problem.Core, Problem.Near;
    forall q: nat | q < p.N() && Discovered(p, labels, k, q)
      ensures Discovered(p, labels[point := k], k, q)
    {
      var c: nat :| c < p.N() && p.Core(c) && labels[c] == k && p.Near(c, q);
      assert labels[point := k][c] == k;
    }
  }

  /** When the seeds run out the cluster is complete. */
  lemma Complete(p: Problem, labels: seq<int>, starts: seq<nat>, i: nat, seeds: seq<nat>)
    requires p.Valid() && Growing(p, labels, starts, i, seeds, |seeds|)
    ensures Between(p, labels, starts, i + 1)
  {
    hide Problem.Core, Problem.Near, Problem.Linked, Rooted;
    var k := |starts| - 1;
    forall q: nat | q < p.N()
      ensures UNVISITED <= labels[q] <= k && (labels[q] == NOISE ==> !p.Core(q))
      ensures p.Core(q) && labels[q] >= 0 ==> Absorbed(p, labels, q)
      ensures !p.Core(q) && labels[q] >= 0 ==> Reached(p, labels, q)
    {
      assert Fits(p, labels, k, seeds, |seeds|, q);
    }
  }

  lemma AskOne(labels: seq<int>, asked: seq<nat>, q: nat, mark: int)
    requires AskedOnce(labels, asked) && q < |labels| && labels[q] == UNVISITED && mark != UNVISITED
    ensures AskedOnce(labels[q := mark], asked + [q])
  {
  }

  /**
   `_cluster` up to its labels. `starts` and `asked` are history: the point each cluster began
   at, and the points whose neighbourhood was computed, in order.
   */
  method Label(p: Problem) returns (result: seq<int>, clusters: nat, ghost starts: seq<nat>, ghost asked: seq<nat>)
    requires p.Valid()
    ensures Clustered(p, result, starts) && clusters == |starts|
    ensures forall k, l | 0 <= k < l < |asked| :: asked[k] != asked[l]
    ensures forall q: nat :: q in asked <==> q < p.N()
  {
    var labels := new int[p.N()](_ => UNVISITED);
    clusters, starts, asked := 0, [], [];
    for i := 0 to p.N()
      invariant fresh(labels) && labels.Length == p.N() && clusters == |starts|
      invariant Between(p, labels[..], starts, i)
      invariant AskedOnce(labels[..], asked)
    {
      if labels[i] != UNVISITED { continue; }
      ghost var before := labels[..];
      var near := p.Neighbours(i);
      asked := asked + [i];
      if |near| < p.minSamples {
        MarkNoise(p, before, starts, i);
        AskOne(before, asked[..|asked| - 1], i, NOISE);
        labels[i] := NOISE;
        assert labels[..] == before[i := NOISE];
        continue;
      }
      labels[i] := clusters;
      assert labels[..] == before[i := clusters];
      var seeds := Without(near, i);
      Begin(p, before, starts, i, seeds);
      AskOne(before, asked[..|asked| - 1], i, clusters);
      starts := starts + [i];
      ghost var queue;
      asked, queue := GrowCluster(p, labels, clusters, i, seeds, starts, asked);
      clusters := clusters + 1;
    }
    result := labels[..];
  }

  /** `[j for j in near if j != i]` */
  function Without(near: seq<nat>, i: nat): (seeds: seq<nat>)
    ensures forall q: nat :: q in seeds <==> q in near && q != i
    ensures (forall a, b | 0 <= a < b < |near| :: near[a] != near[b]) ==>
              forall a, b | 0 <= a < b < |seeds| :: seeds[a] != seeds[b]
  {
    if near == [] then []
    else
      var rest := Without(near[1..], i);
      assert near == [near[0]] + near[1..];
      if near[0] == i then rest
      else
        assert near[0] in rest ==> near[0] in near[1..];
        [near[0]] + rest
  }

  /** What the loop reads off the invariants of the work list. */
  lemma WorkListFacts(p: Problem, labels: seq<int>, starts: seq<nat>, i: nat, seeds: seq<nat>, cursor: nat)
    requires p.Valid() && Growing(p, labels, starts, i, seeds, cursor)
    requires SeedsOk(p, labels, |starts| - 1, seeds, cursor)
    ensures |labels| == p.N() && cursor <= |seeds|
    ensures forall a, b | 0 <= a < b < |seeds| :: seeds[a] != seeds[b]
    ensures forall a | 0 <= a < |seeds| :: seeds[a] < p.N()
    ensures forall a | 0 <= a < cursor :: 0 <= labels[seeds[a]] <= |starts| - 1
    ensures forall q: nat | q < p.N() ::
      UNVISITED <= labels[q] <= |starts| - 1 && (labels[q] == NOISE ==> !p.Core(q))
  {
    hide Problem.Core, Begins, Discovered, Fits;
    forall q: nat | q < p.N()
      ensures UNVISITED <= labels[q] <= |starts| - 1 && (labels[q] == NOISE ==> !p.Core(q))
    {
      assert Fits(p, labels, |starts| - 1, seeds, cursor, q);
      UnlabelledFits(p, labels, |starts| - 1, seeds, cursor, q);
    }
  }

  lemma PlainPop(p: Problem, labels: seq<int>, k: int, seeds: seq<nat>, cursor: nat, labels': seq<int>)
    requires p.Valid() && |labels| == p.N() && cursor < |seeds| && seeds[cursor] < p.N()
    requires var point := seeds[cursor];
      if labels[point] >= 0 then labels' == labels else !p.Core(point) && labels' == labels[point := k]
    ensures Popped(p, labels, k, seeds, cursor, labels', seeds)
  {
    hide Problem.Core;
  }

  lemma CorePop(p: Problem, labels: seq<int>, k: int, seeds: seq<nat>, cursor: nat, labels': seq<int>, more: seq<nat>)
    requires p.Valid() && |labels| == p.N() && cursor < |seeds| && seeds[cursor] < p.N()
    requires var point := seeds[cursor]; labels[point] < 0 && labels' == labels[point := k] && k >= 0
    requires forall q: nat | q < p.N() :: labels'[q] <= k
    requires forall a | 0 <= a < cursor :: seeds[a] < p.N() && labels[seeds[a]] >= 0
    requires ExtendedBy(p, labels', seeds, more, seeds[cursor])
    ensures Popped(p, labels, k, seeds, cursor, labels', seeds + more)
    ensures forall a, b | 0 <= a < b < |seeds + more| :: (seeds + more)[a] != (seeds + more)[b]
    ensures forall r <- more :: r < p.N() && p.Near(seeds[cursor], r)
  {
    hide Problem.Core, Problem.Near;
    var point := seeds[cursor];
    assert (seeds + more)[cursor + 1..] == seeds[cursor + 1..] + more;
    forall q: nat | q < p.N() && p.Near(point, q) && labels'[q] < 0
      ensures q in (seeds + more)[cursor + 1..]
    {
      if q in seeds {
        var a :| 0 <= a < |seeds| && seeds[a] == q;
        assert a > cursor;
      }
    }
  }

  /** The work list of one cluster. `queue` is history: the points that were ever on it, in order. */
  method GrowCluster(
    p: Problem, labels: array<int>, cluster: nat, i: nat, first: seq<nat>, ghost starts: seq<nat>, ghost before: seq<nat>)
    returns (ghost asked: seq<nat>, ghost queue: seq<nat>)
    requires p.Valid() && labels.Length == p.N() && cluster == |starts| - 1
    requires Growing(p, labels[..], starts, i, first, 0) && SeedsOk(p, labels[..], cluster, first, 0)
    requires AskedOnce(labels[..], before)
    modifies labels
    ensures Between(p, labels[..], starts, i + 1)
    ensures AskedOnce(labels[..], asked)
    ensures first <= queue && forall a, b | 0 <= a < b < |queue| :: queue[a] != queue[b]
    ensures forall a | 0 <= a < |queue| :: queue[a] < p.N() && 0 <= labels[queue[a]] <= cluster
  {
    hide Growing, SeedsOk, Problem.Near, Popped, ExtendedBy;
    var seeds, cursor := first, 0;
    var queued := set q <- seeds;
    asked := before;
    WorkListFacts(p, labels[..], starts, i, seeds, 0);
    DistinctBelow(seeds, p.N());
    while cursor < |seeds|
      invariant Growing(p, labels[..], starts, i, seeds, cursor) && SeedsOk(p, labels[..], cluster, seeds, cursor)
      invariant queued == set q <- seeds
      invariant |seeds| <= p.N() && first <= seeds
      invariant AskedOnce(labels[..], asked)
      decreases p.N() - cursor
    {
      ghost var was := labels[..];
      WorkListFacts(p, was, starts, i, seeds, cursor);
      var point := seeds[cursor];
      cursor := cursor + 1;
      if labels[point] == NOISE {
        labels[point] := cluster;
        assert labels[..] == was[point := cluster];
      }
      if labels[point] != UNVISITED {
        assert seeds + [] == seeds;
        PlainPop(p, was, cluster, seeds, cursor - 1, labels[..]);
        Pop(p, was, starts, i, seeds, cursor - 1, labels[..], []);
        continue;
      }
      labels[point] := cluster;
      assert labels[..] == was[point := cluster];
      var near := p.Neighbours(point);
      AskOne(was, asked, point, cluster);
      asked := asked + [point];
      if |near| >= p.minSamples {
        var more;
        more, queued := NewSeeds(p, labels, point, near, seeds, queued);
        CorePop(p, was, cluster, seeds, cursor - 1, labels[..], more);
        Pop(p, was, starts, i, seeds, cursor - 1, labels[..], more);
        seeds := seeds + more;
        WorkListFacts(p, labels[..], starts, i, seeds, cursor);
        DistinctBelow(seeds, p.N());
      } else {
        assert seeds + [] == seeds;
        PlainPop(p, was, cluster, seeds, cursor - 1, labels[..]);
        Pop(p, was, starts, i, seeds, cursor - 1, labels[..], []);
      }
    }
    WorkListFacts(p, labels[..], starts, i, seeds, cursor);
    Complete(p, labels[..], starts, i, seeds);
    queue := seeds;
  }

  /** The candidates a core point adds to the work list, and the enlarged set of queued points. */
  method NewSeeds(p: Problem, labels: array<int>, ghost point: nat, near: seq<nat>, ghost seeds: seq<nat>, queued: set<nat>)
    returns (more: seq<nat>, queued': set<nat>)
    requires p.Valid() && labels.Length == p.N() && point < p.N() && near == p.Neighbours(point)
    requires forall q | 0 <= q < p.N() :: UNVISITED <= labels[q]
    requires queued == set q <- seeds
    requires forall a, b | 0 <= a < b < |seeds| :: seeds[a] != seeds[b]
    ensures ExtendedBy(p, labels[..], seeds, more, point)
    ensures queued' == set q <- seeds + more
  {
    more, queued' := [], queued;
    for j := 0 to |near|
      invariant queued' == set q <- seeds + more
      invariant forall a, b | 0 <= a < b < |seeds + more| :: (seeds + more)[a] != (seeds + more)[b]
      invariant forall q <- more :: q < p.N() && p.Near(point, q)
      invariant forall a | 0 <= a < j && labels[near[a]] < 0 :: near[a] in queued'
    {
      var candidate := near[j];
      if candidate !in queued' && labels[candidate] in {UNVISITED, NOISE} {
        assert seeds + (more + [candidate]) == (seeds + more) + [candidate];
        more := more + [candidate];
        queued' := queued' + {candidate};
      }
    }
    assert forall q: nat | q < p.N() && p.Near(point, q) && labels[q] < 0 :: q in near;
  }

  // ── Density connectivity ──────────────────────────────────────────

  lemma {:induction false} LinkedShareALabel(p: Problem, labels: seq<int>, starts: seq<nat>, path: seq<nat>, a: nat, b: nat)
    requires p.Valid() && p.Symmetric() && Clustered(p, labels, starts) && p.IsChain(path, a, b)
    ensures b < p.N() && p.Core(b) && labels[a] == labels[b]
    decreases |path|
  {
    hide Problem.Core, Problem.Near, Begins, Reached;
    if |path| > 1 {
      var prefix, c := path[..|path| - 1], path[|path| - 2];
      assert p.IsChain(prefix, a, c);
      LinkedShareALabel(p, labels, starts, prefix, a, c);
      assert p.CoreStep(c, b);
      assert Absorbed(p, labels, c) && Absorbed(p, labels, b);
    }
  }

  lemma {:induction false} Turned(p: Problem, path: seq<nat>, a: nat, b: nat)
    requires p.Valid() && p.Symmetric() && p.IsChain(path, a, b)
    ensures b < p.N() && p.Core(b) && p.Linked(b, a)
    decreases |path|
  {
    hide Problem.Core, Problem.Near;
    if |path| == 1 {
      LinkSelf(p, a);
    } else {
      var prefix, c := path[..|path| - 1], path[|path| - 2];
      assert p.IsChain(prefix, a, c);
      Turned(p, prefix, a, c);
      assert p.CoreStep(c, b);
      var back :| p.IsChain(back, c, a);
      assert p.CoreStep(b, c);
      assert p.IsChain([b] + back, b, a) by {
        assert forall k | 1 <= k < |back| :: ([b] + back)[k] == back[k - 1];
      }
    }
  }

  lemma Joined(p: Problem, a: nat, b: nat, c: nat)
    requires p.Valid() && p.Linked(a, b) && p.Linked(b, c)
    ensures p.Linked(a, c)
  {
    hide Problem.Core, Problem.Near, Problem.CoreStep;
    var one :| p.IsChain(one, a, b);
    var two :| p.IsChain(two, b, c);
    var path := one + two[1..];
    forall k | 0 <= k < |path| - 1
      ensures p.CoreStep(path[k], path[k + 1])
    {
      if k >= |one| - 1 {
        assert path[k] == two[k - (|one| - 1)] && path[k + 1] == two[k + 1 - (|one| - 1)];
      }
    }
    assert p.IsChain(path, a, c);
  }

  /** Two core points have the same label exactly when a chain of core points joins them. */
  lemma DensityConnectivity(p: Problem, labels: seq<int>, starts: seq<nat>, a: nat, b: nat)
    requires p.Valid() && p.Symmetric() && Clustered(p, labels, starts)
    requires a < p.N() && b < p.N() && p.Core(a) && p.Core(b)
    ensures labels[a] == labels[b] <==> p.Linked(a, b)
  {
    hide Problem.Core, Problem.Near, Problem.Linked, Problem.IsChain, Problem.Symmetric, Absorbed, Reached;
    assert Rooted(p, labels, starts, a) && Rooted(p, labels, starts, b);
    if labels[a] == labels[b] {
      var s := starts[labels[a]];
      LinkTurns(p, s, a);
      Joined(p, a, s, b);
    }
    if p.Linked(a, b) {
      var path := ChainOf(p, a, b);
      LinkedShareALabel(p, labels, starts, path, a, b);
    }
  }

  lemma LinkTurns(p: Problem, a: nat, b: nat)
    requires p.Valid() && p.Symmetric() && p.Linked(a, b)
    ensures p.Linked(b, a)
  {
    Turned(p, ChainOf(p, a, b), a, b);
  }

  ghost function ChainOf(p: Problem, a: nat, b: nat): (path: seq<nat>)
    requires p.Valid() && p.Linked(a, b)
    ensures p.IsChain(path, a, b)
  {
    var path :| p.IsChain(path, a, b);
    path
  }

  /** q is the smallest point of its class of linked core points. */
  ghost predicate Leader(p: Problem, q: nat)
    requires p.Valid()
  {
    q < p.N() && p.Core(q) && forall r: nat | r < p.N() && p.Core(r) && p.Linked(q, r) :: q <= r
  }

  /** The cluster with id c is the class of the c-th leader, leaders being taken in index order. */
  lemma IdsFollowTheLeaders(p: Problem, labels: seq<int>, starts: seq<nat>, q: nat)
    requires p.Valid() && p.Symmetric() && Clustered(p, labels, starts)
    ensures q in starts <==> Leader(p, q)
    ensures forall c, d | 0 <= c < d < |starts| :: starts[c] < starts[d]
    ensures forall c | 0 <= c < |starts| :: labels[starts[c]] == c
  {
    hide Problem.Core, Problem.Near, Problem.Linked, Problem.Symmetric, Absorbed, Reached;
    if q in starts {
      forall r: nat | r < p.N() && p.Core(r) && p.Linked(q, r)
        ensures q <= r
      {
        DensityConnectivity(p, labels, starts, q, r);
        assert Rooted(p, labels, starts, r);
      }
    }
    if Leader(p, q) {
      assert Rooted(p, labels, starts, q);
      LinkTurns(p, starts[labels[q]], q);
    }
  }

  // ── Noise and border points ───────────────────────────────────────

  /** For any matrix, symmetric or not. */
  lemma NoiseIsUnreachable(p: Problem, labels: seq<int>, starts: seq<nat>, q: nat)
    requires p.Valid() && Clustered(p, labels, starts) && q < p.N()
    ensures labels[q] == NOISE <==> !p.Core(q) && forall c: nat | c < p.N() && p.Core(c) :: !p.Near(c, q)
  {
    hide Problem.Core, Problem.Near, Begins;
    forall c: nat | c < p.N() && p.Core(c) && p.Near(c, q)
      ensures labels[q] >= 0
    {
      assert Absorbed(p, labels, c);
    }
  }

  /** A border point joins the lowest of the clusters that reach it; for any matrix. */
  lemma BorderTakesTheLowest(p: Problem, labels: seq<int>, starts: seq<nat>, q: nat)
    requires p.Valid() && Clustered(p, labels, starts) && q < p.N() && !p.Core(q) && labels[q] != NOISE
    ensures exists c: nat :: c < p.N() && p.Core(c) && p.Near(c, q) && labels[c] == labels[q]
    ensures forall c: nat | c < p.N() && p.Core(c) && p.Near(c, q) :: labels[q] <= labels[c]
  {
    hide Problem.Core, Problem.Near, Begins;
    assert Reached(p, labels, q);
    forall c: nat | c < p.N() && p.Core(c) && p.Near(c, q)
      ensures labels[q] <= labels[c]
    {
      assert Absorbed(p, labels, c);
    }
  }

  // ── The labelling is determined ───────────────────────────────────

  lemma FirstIsIn(xs: seq<nat>)
    ensures xs == [] || xs[0] in xs
  {
  }

  lemma {:induction false} SameIncreasing(xs: seq<nat>, ys: seq<nat>)
    requires forall i, j | 0 <= i < j < |xs| :: xs[i] < xs[j]
    requires forall i, j | 0 <= i < j < |ys| :: ys[i] < ys[j]
    requires forall q: nat :: q in xs <==> q in ys
    ensures xs == ys
  {
    FirstIsIn(xs);
    FirstIsIn(ys);
    if xs != [] {
      assert xs[0] in ys;
      assert ys[0] in xs;
      assert xs == [xs[0]] + xs[1..] && ys == [ys[0]] + ys[1..];
      assert xs[0] == ys[0];
      assert xs[0] !in xs[1..] && ys[0] !in ys[1..];
      forall q: nat
        ensures q in xs[1..] <==> q in ys[1..]
      {
        assert q in xs <==> q == xs[0] || q in xs[1..];
        assert q in ys <==> q == ys[0] || q in ys[1..];
      }
      SameIncreasing(xs[1..], ys[1..]);
    }
  }

  /** Whatever order the work list is served in, a symmetric matrix has one labelling of this kind. */
  lemma LabellingIsDetermined(
    p: Problem, labels: seq<int>, starts: seq<nat>, labels': seq<int>, starts': seq<nat>)
    requires p.Valid() && p.Symmetric() && Clustered(p, labels, starts) && Clustered(p, labels', starts')
    ensures labels == labels' && starts == starts'
  {
    hide Problem.Core, Problem.Near, Problem.Linked, Problem.Symmetric, Clustered, Leader;
    forall q: nat
      ensures q in starts <==> q in starts'
    {
      IdsFollowTheLeaders(p, labels, starts, q);
      IdsFollowTheLeaders(p, labels', starts', q);
    }
    IdsFollowTheLeaders(p, labels, starts, 0);
    IdsFollowTheLeaders(p, labels', starts', 0);
    SameIncreasing(starts, starts');
    assert |labels| == p.N() == |labels'| by { Sizes(p, labels, starts); Sizes(p, labels', starts'); }
    forall q: nat | q < p.N() && p.Core(q)
      ensures labels[q] == labels'[q]
    {
      CoreLabelDetermined(p, labels, labels', starts, q);
    }
    forall q: nat | q < p.N()
      ensures labels[q] == labels'[q]
    {
      if !p.Core(q) { OtherLabelDetermined(p, labels, labels', starts, q); }
    }
  }

  lemma Sizes(p: Problem, labels: seq<int>, starts: seq<nat>)
    requires p.Valid() && Clustered(p, labels, starts)
    ensures |labels| == p.N()
  {
  }

  lemma CoreLabelDetermined(p: Problem, labels: seq<int>, labels': seq<int>, starts: seq<nat>, q: nat)
    requires p.Valid() && p.Symmetric() && Clustered(p, labels, starts) && Clustered(p, labels', starts)
    requires q < p.N() && p.Core(q)
    ensures labels[q] == labels'[q]
  {
    hide Problem.Core, Problem.Near, Problem.Linked, Problem.Symmetric, Absorbed, Reached;
    assert Rooted(p, labels', starts, q);
    var s := starts[labels'[q]];
    DensityConnectivity(p, labels, starts, s, q);
  }

  lemma OtherLabelDetermined(p: Problem, labels: seq<int>, labels': seq<int>, starts: seq<nat>, q: nat)
    requires p.Valid() && Clustered(p, labels, starts) && Clustered(p, labels', starts)
    requires q < p.N() && !p.Core(q)
    requires forall c: nat | c < p.N() && p.Core(c) :: labels[c] == labels'[c]
    ensures labels[q] == labels'[q]
  {
    hide Problem.Core, Problem.Near, Begins;
    NoiseIsUnreachable(p, labels, starts, q);
    NoiseIsUnreachable(p, labels', starts, q);
    if labels[q] != NOISE {
      BorderTakesTheLowest(p, labels, starts, q);
      BorderTakesTheLowest(p, labels', starts, q);
    }
  }

  // ── Buckets ───────────────────────────────────────────────────────

  /** The points below m with this label, in index order. */
  function MembersBelow(labels: seq<int>, c: int, m: nat): (members: seq<nat>)
    requires m <= |labels|
    ensures forall k | 0 <= k < |members| :: members[k] < m && labels[members[k]] == c
    ensures forall q: nat | q < m && labels[q] == c :: q in members
    ensures forall k, l | 0 <= k < l < |members| :: members[k] < members[l]
  {
    if m == 0 then []
    else MembersBelow(labels, c, m - 1) + if labels[m - 1] == c then [m - 1] else []
  }

  function Pick<T>(episodes: seq<T>, members: seq<nat>): (bucket: seq<T>)
    requires forall k | 0 <= k < |members| :: members[k] < |episodes|
  {
    seq(|members|, k requires 0 <= k < |members| => episodes[members[k]])
  }

  /** The returned mapping: one bucket for each id that occurs below m, its episodes in index order. */
  ghost predicate Bucketed<T>(episodes: seq<T>, labels: seq<int>, m: nat, clusters: map<int, seq<T>>) {
    && m <= |labels| == |episodes|
    && (forall c :: c in clusters <==> c >= 0 && MembersBelow(labels, c, m) != [])
    && (forall c | c in clusters :: clusters[c] == Pick(episodes, MembersBelow(labels, c, m)))
  }

  lemma NothingFiled<T>(episodes: seq<T>, labels: seq<int>)
    requires |labels| == |episodes|
    ensures Bucketed(episodes, labels, 0, map[])
  {
  }

  /** `clusters.setdefault(label, []).append(episode)`, unless the label is noise. */
  function Filed<T>(clusters: map<int, seq<T>>, c: int, episode: T): map<int, seq<T>> {
    if c < 0 then clusters
    else clusters[c := (if c in clusters then clusters[c] else []) + [episode]]
  }

  lemma BucketStep<T>(episodes: seq<T>, labels: seq<int>, m: nat, clusters: map<int, seq<T>>)
    requires Bucketed(episodes, labels, m, clusters) && m < |labels|
    ensures Bucketed(episodes, labels, m + 1, Filed(clusters, labels[m], episodes[m]))
  {
    var c := labels[m];
    var next := m + 1;
    var clusters' := Filed(clusters, c, episodes[m]);
    forall d
      ensures d in clusters' <==> d >= 0 && MembersBelow(labels, d, next) != []
      ensures d in clusters' ==> clusters'[d] == Pick(episodes, MembersBelow(labels, d, next))
    {
      var was := MembersBelow(labels, d, m);
      assert MembersBelow(labels, d, next) == if d == c then was + [m] else was;
      assert d == c ==> Pick(episodes, was + [m]) == Pick(episodes, was) + [episodes[m]];
      assert d in clusters <==> d >= 0 && was != [];
    }
  }

  /** The last loop of `_cluster`. */
  method Buckets<T>(episodes: seq<T>, labels: seq<int>) returns (clusters: map<int, seq<T>>)
    requires |labels| == |episodes|
    ensures Bucketed(episodes, labels, |episodes|, clusters)
  {
    hide MembersBelow, Pick;
    clusters := map[];
    NothingFiled(episodes, labels);
    for idx := 0 to |episodes|
      invariant Bucketed(episodes, labels, idx, clusters)
    {
      hide Bucketed;
      var c := labels[idx];
      BucketStep(episodes, labels, idx, clusters);
      if c >= 0 {
        clusters := clusters[c := (if c in clusters then clusters[c] else []) + [episodes[idx]]];
      }
    }
  }

  /** The buckets of a labelling with the clustering properties, one for each id. */
  ghost predicate IsClustering<T(!new)>(p: Problem, episodes: seq<T>, clusters: map<int, seq<T>>)
    requires p.Valid() && |episodes| == p.N()
  {
    exists labels, starts ::
      && Clustered(p, labels, starts)
      && Bucketed(episodes, labels, p.N(), clusters)
      && forall c :: c in clusters <==> 0 <= c < |starts|
  }

  /** `_cluster`. */
  method Cluster<T(!new)>(p: Problem, episodes: seq<T>) returns (clusters: map<int, seq<T>>)
    requires p.Valid() && |episodes| == p.N()
    ensures IsClustering(p, episodes, clusters)
  {
    ghost var starts, asked;
    var labels, count;
    labels, count, starts, asked := Label(p);
    clusters := Buckets(episodes, labels);
    KeysAreIds(p, labels, starts, episodes, clusters);
  }

  lemma KeysAreIds<T>(p: Problem, labels: seq<int>, starts: seq<nat>, episodes: seq<T>, clusters: map<int, seq<T>>)
    requires p.Valid() && |episodes| == p.N()
    requires Clustered(p, labels, starts) && Bucketed(episodes, labels, p.N(), clusters)
    ensures forall c :: c in clusters <==> 0 <= c < |starts|
  {
    hide Problem.Core, Problem.Near, Problem.Linked, Absorbed, Reached, Rooted;
    forall c: int
      ensures c in clusters <==> 0 <= c < |starts|
    {
      var members := MembersBelow(labels, c, p.N());
      if c in clusters {
        assert members[0] in members;
      }
      if 0 <= c < |starts| {
        assert starts[c] in members;
      }
    }
  }

  // ── The default density: two points ───────────────────────────────

  /** A path in the graph whose edges are the pairs within reach. */
  ghost predicate IsPath(p: Problem, path: seq<nat>, a: nat, b: nat)
    requires p.Valid()
  {
    && path != [] && path[0] == a && path[|path| - 1] == b
    && (forall k | 0 <= k < |path| :: path[k] < p.N())
    && (forall k | 0 <= k < |path| - 1 :: p.Near(path[k], path[k + 1]))
  }

  ghost predicate Connected(p: Problem, a: nat, b: nat)
    requires p.Valid()
  {
    exists path :: IsPath(p, path, a, b)
  }

  ghost predicate Reflexive(p: Problem)
    requires p.Valid()
  {
    forall i: nat | i < p.N() :: p.Near(i, i)
  }

  /** With pairs as the density, a point is core exactly when another point is within its reach. */
  lemma CoreMeansCompany(p: Problem, q: nat)
    requires p.Valid() && p.minSamples == 2 && Reflexive(p) && q < p.N()
    ensures p.Core(q) <==> exists r: nat :: r < p.N() && r != q && p.Near(q, r)
  {
    var near := p.Neighbours(q);
    assert q in near;
    if p.Core(q) {
      assert near[0] != near[1];
      assert near[0] in near && near[1] in near;
    }
    if r: nat :| r < p.N() && r != q && p.Near(q, r) {
      assert r in near;
    }
  }

  /** No border points: a clustered point is core. */
  lemma NoBorderPoints(p: Problem, labels: seq<int>, starts: seq<nat>, q: nat)
    requires p.Valid() && p.minSamples == 2 && Reflexive(p) && p.Symmetric()
    requires Clustered(p, labels, starts) && q < p.N()
    ensures labels[q] >= 0 <==> p.Core(q)
  {
    hide Problem.Core, Problem.Near, Begins, Absorbed;
    if !p.Core(q) && labels[q] >= 0 {
      assert Reached(p, labels, q);
      var c: nat :| c < p.N() && p.Core(c) && labels[c] == labels[q] && p.Near(c, q);
      CoreMeansCompany(p, q);
    }
  }

  lemma {:induction false} PathIsChain(p: Problem, path: seq<nat>, a: nat, b: nat)
    requires p.Valid() && p.minSamples == 2 && Reflexive(p) && p.Symmetric() && a < p.N() && p.Core(a)
    requires IsPath(p, path, a, b)
    ensures b < p.N() && p.Core(b) && p.Linked(a, b)
    decreases |path|
  {
    hide Problem.Core, Problem.Near, Problem.Linked;
    if |path| == 1 {
      LinkSelf(p, a);
    } else {
      var prefix, c := path[..|path| - 1], path[|path| - 2];
      assert IsPath(p, prefix, a, c);
      PathIsChain(p, prefix, a, c);
      if b != c { CoreMeansCompany(p, b); }
      StepTo(p, c, b);
      LinkExtends(p, a, c, b);
    }
  }

  lemma ChainIsPath(p: Problem, a: nat, b: nat)
    requires p.Valid() && p.Linked(a, b)
    ensures Connected(p, a, b)
  {
    hide Problem.Core, Problem.Near;
    var path := ChainOf(p, a, b);
    forall k | 0 <= k < |path|
      ensures path[k] < p.N()
    {
      if k > 0 { assert p.CoreStep(path[k - 1], path[k]); }
    }
    forall k | 0 <= k < |path| - 1
      ensures p.Near(path[k], path[k + 1])
    {
      assert p.CoreStep(path[k], path[k + 1]);
    }
    assert IsPath(p, path, a, b);
  }

  /** The clusters are the connected components with at least two points; everything else is noise. */
  lemma ClustersAreComponents(p: Problem, labels: seq<int>, starts: seq<nat>, a: nat, b: nat)
    requires p.Valid() && p.minSamples == 2 && Reflexive(p) && p.Symmetric() && Clustered(p, labels, starts)
    requires a < p.N() && b < p.N() && a != b
    ensures labels[a] >= 0 && labels[a] == labels[b] <==> Connected(p, a, b)
  {
    hide Problem.Core, Problem.Near, Problem.Linked, Problem.Symmetric, Clustered, Reflexive;
    Sizes(p, labels, starts);
    NoBorderPoints(p, labels, starts, a);
    NoBorderPoints(p, labels, starts, b);
    if labels[a] >= 0 && labels[a] == labels[b] {
      DensityConnectivity(p, labels, starts, a, b);
      ChainIsPath(p, a, b);
    }
    if Connected(p, a, b) {
      var path :| IsPath(p, path, a, b);
      FirstStepLeaves(p, path, a, b);
      PathIsChain(p, path, a, b);
      DensityConnectivity(p, labels, starts, a, b);
    }
  }

  lemma {:induction false} FirstStepLeaves(p: Problem, path: seq<nat>, a: nat, b: nat)
    requires p.Valid() && p.minSamples == 2 && Reflexive(p) && IsPath(p, path, a, b) && a != b
    ensures p.Core(a)
    decreases |path|
  {
    hide Problem.Core, Problem.Near;
    if path[1] == a {
      FirstStepLeaves(p, path[1..], a, b);
    } else {
      CoreMeansCompany(p, a);
    }
  }

  /** Each bucket holds two episodes or more, so the cycle's size check skips none. */
  lemma NoBucketIsSkipped<T>(
    p: Problem, labels: seq<int>, starts: seq<nat>, episodes: seq<T>, clusters: map<int, seq<T>>, c: int)
    requires p.Valid() && p.minSamples == 2 && Reflexive(p) && p.Symmetric() && Clustered(p, labels, starts)
    requires |episodes| == p.N() && Bucketed(episodes, labels, p.N(), clusters) && c in clusters
    ensures |clusters[c]| >= 2
  {
    hide Problem.Core, Problem.Near, Clustered, Problem.Symmetric, Reflexive;
    var members := MembersBelow(labels, c, p.N());
    var q := members[0];
    assert q in members;
    NoBorderPoints(p, labels, starts, q);
    CoreMeansCompany(p, q);
    var r: nat :| r < p.N() && r != q && p.Near(q, r);
    assert IsPath(p, [q, r], q, r);
    ClustersAreComponents(p, labels, starts, q, r);
    assert r in members;
  }
}
