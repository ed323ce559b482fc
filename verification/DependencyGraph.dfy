/** Dependency chains in a finite graph: reachability, cycles, and the longest chain from a node. */
module DependencyGraph {

  /** Each node and what it depends on. */
  type Graph = map<string, set<string>>

  ghost predicate IsChain(g: Graph, p: seq<string>) {
    && |p| > 0
    && (forall i :: 0 <= i < |p| ==> p[i] in g)
    && (forall i :: 0 < i < |p| ==> p[i] in g[p[i - 1]])
  }

  ghost predicate ChainFrom(g: Graph, v: string, p: seq<string>) {
    IsChain(g, p) && p[0] == v
  }

  ghost predicate Reaches(g: Graph, v: string, w: string) {
    exists p :: ChainFrom(g, v, p) && p[|p| - 1] == w
  }

  ghost predicate Repeats(p: seq<string>, i: int, j: int) {
    0 <= i < j < |p| && p[i] == p[j]
  }

  /** Some chain from v comes back to a node it has already visited. */
  ghost predicate CycleReachable(g: Graph, v: string) {
    exists p, i, j :: ChainFrom(g, v, p) && Repeats(p, i, j)
  }

  /** n is the length of the longest dependency chain from v, counted in edges. */
  ghost predicate IsDepth(g: Graph, v: string, n: int) {
    && (exists p :: ChainFrom(g, v, p) && |p| == n + 1)
    && (forall p :: ChainFrom(g, v, p) ==> |p| <= n + 1)
  }

  /** Some chain from v has at least n nodes. */
  ghost predicate LongChain(g: Graph, v: string, n: int) {
    exists p :: ChainFrom(g, v, p) && |p| >= n
  }

  /** Everything needed by a node reachable from root is in the graph. */
  ghost predicate Complete(g: Graph, root: string) {
    forall v, d :: Reaches(g, root, v) && d in g[v] ==> d in g
  }

  // ---------------------------------------------------------------- chains

  lemma ReachesSelf(g: Graph, v: string)
    requires v in g
    ensures Reaches(g, v, v)
  {
    assert ChainFrom(g, v, [v]) && [v][|[v]| - 1] == v;
  }

  lemma ChainStep(g: Graph, p: seq<string>, i: nat)
    requires IsChain(g, p) && 0 < i < |p|
    ensures p[i - 1] in g && p[i] in g[p[i - 1]]
  {
  }

  lemma Extend(g: Graph, v: string, p: seq<string>, d: string)
    requires ChainFrom(g, v, p) && d in g[p[|p| - 1]] && d in g
    ensures ChainFrom(g, v, p + [d])
  {
  }

  lemma ReachesStep(g: Graph, root: string, v: string, d: string)
    requires Reaches(g, root, v) && d in g[v] && d in g
    ensures Reaches(g, root, d)
  {
    var p :| ChainFrom(g, root, p) && p[|p| - 1] == v;
    Extend(g, root, p, d);
    assert (p + [d])[|p + [d]| - 1] == d;
  }

  lemma ReachesInGraph(g: Graph, root: string, v: string)
    requires Reaches(g, root, v)
    ensures v in g && root in g
  {
  }

  /** p followed by q, where p ends at q's start. */
  lemma Join(g: Graph, v: string, p: seq<string>, w: string, q: seq<string>)
    requires ChainFrom(g, v, p) && p[|p| - 1] == w && ChainFrom(g, w, q)
    ensures ChainFrom(g, v, p + q[1..])
  {
    var r := p + q[1..];
    forall i | 0 < i < |r| ensures r[i] in g[r[i - 1]] {
      if i >= |p| {
        assert r[i] == q[i - |p| + 1];
        assert r[i - 1] == q[i - |p|];
      }
    }
  }

  /** A chain stays in any set of nodes closed under dependencies. */
  lemma {:induction false} ChainStays(g: Graph, s: set<string>, p: seq<string>, i: nat)
    requires IsChain(g, p) && p[0] in s && i < |p|
    requires forall v, d :: v in s && v in g && d in g[v] ==> d in s
    ensures p[i] in s
  {
    if i > 0 {
      ChainStays(g, s, p, i - 1);
      assert p[i] in g[p[i - 1]];
    }
  }

  lemma ReachesStays(g: Graph, s: set<string>, root: string, v: string)
    requires Reaches(g, root, v) && root in s
    requires forall v, d :: v in s && v in g && d in g[v] ==> d in s
    ensures v in s
  {
    var p :| ChainFrom(g, root, p) && p[|p| - 1] == v;
    ChainStays(g, s, p, |p| - 1);
  }

  lemma LongChainOne(g: Graph, v: string)
    requires v in g
    ensures LongChain(g, v, 1)
  {
    assert ChainFrom(g, v, [v]);
  }

  lemma LongChainStep(g: Graph, v: string, d: string, n: int)
    requires v in g && d in g[v] && LongChain(g, d, n)
    ensures LongChain(g, v, n + 1)
  {
    var p :| ChainFrom(g, d, p) && |p| >= n;
    assert ChainFrom(g, v, [v]);
    Extend(g, v, [v], d);
    Join(g, v, [v] + [d], d, p);
  }

  // ---------------------------------------------------------------- cycles

  /** Among more nodes than s has, one occurs twice. */
  lemma {:induction false} Pigeonhole(p: seq<string>, s: set<string>) returns (i: int, j: int)
    requires |p| > |s| && forall k :: 0 <= k < |p| ==> p[k] in s
    ensures Repeats(p, i, j)
  {
    var n := |p| - 1;
    if k :| 0 <= k < n && p[k] == p[n] {
      i, j := k, n;
    } else {
      i, j := Pigeonhole(p[..n], s - {p[n]});
    }
  }

  lemma LongChainRepeats(g: Graph, s: set<string>, v: string)
    requires LongChain(g, v, |s| + 1) && v in s
    requires forall v, d :: v in s && v in g && d in g[v] ==> d in s
    ensures CycleReachable(g, v)
  {
    var p :| ChainFrom(g, v, p) && |p| >= |s| + 1;
    forall k | 0 <= k < |p| ensures p[k] in s {
      ChainStays(g, s, p, k);
    }
    var i, j := Pigeonhole(p, s);
  }

  /** Going round a cycle makes chains as long as one likes. */
  lemma {:induction false} Pump(g: Graph, v: string, p: seq<string>, i: int, j: int, n: int) returns (q: seq<string>)
    requires ChainFrom(g, v, p) && Repeats(p, i, j)
    ensures ChainFrom(g, v, q) && |q| >= n
    decreases n - |p|
  {
    if |p| >= n {
      q := p;
    } else {
      var r := p[..j] + p[i..];
      forall k | 0 < k < |r| ensures r[k] in g[r[k - 1]] {
        if k >= j {
          assert r[k] == p[i + k - j];
          assert r[k - 1] == if k == j then p[j - 1] else p[i + k - j - 1];
        }
      }
      q := Pump(g, v, r, i, j, n);
    }
  }

  lemma DepthMeansNoCycle(g: Graph, v: string, n: int)
    requires IsDepth(g, v, n)
    ensures !CycleReachable(g, v)
  {
    if CycleReachable(g, v) {
      var p, i, j :| ChainFrom(g, v, p) && Repeats(p, i, j);
      var q := Pump(g, v, p, i, j, n + 2);
    }
  }

  // ---------------------------------------------------------------- depths

  lemma DepthOfLeaf(g: Graph, v: string)
    requires v in g && g[v] == {}
    ensures IsDepth(g, v, 0)
  {
    assert ChainFrom(g, v, [v]);
    forall p | ChainFrom(g, v, p) ensures |p| <= 1 {
      if |p| > 1 {
        ChainStep(g, p, 1);
      }
    }
  }

  /** One more than the deepest dependency. */
  lemma DepthOfNode(g: Graph, v: string, depth: map<string, int>, n: int, deepest: string)
    requires v in g && deepest in g[v] && deepest in g
    requires forall d :: d in g[v] ==> d in depth && IsDepth(g, d, depth[d]) && depth[d] + 1 <= n
    requires depth[deepest] + 1 == n
    ensures IsDepth(g, v, n)
  {
    var q :| ChainFrom(g, deepest, q) && |q| == n;
    Extend(g, v, [v], deepest);
    Join(g, v, [v] + [deepest], deepest, q);
    assert |[v] + [deepest] + q[1..]| == n + 1;
    forall p | ChainFrom(g, v, p) ensures |p| <= n + 1 {
      if |p| > 1 {
        assert p[1] in g[v];
        assert ChainFrom(g, p[1], p[1..]);
      }
    }
  }

  /** A dependency is strictly less deep. */
  lemma DepthDecreases(g: Graph, v: string, n: int, d: string, k: int)
    requires IsDepth(g, v, n) && IsDepth(g, d, k) && v in g && d in g[v] && d in g
    ensures k < n
  {
    var q :| ChainFrom(g, d, q) && |q| == k + 1;
    Extend(g, v, [v], d);
    Join(g, v, [v] + [d], d, q);
  }

  /** So is anything else that can be reached. */
  lemma DepthOfReached(g: Graph, root: string, n: int, v: string, k: int)
    requires IsDepth(g, root, n) && IsDepth(g, v, k) && Reaches(g, root, v) && v != root
    ensures k < n
  {
    var p :| ChainFrom(g, root, p) && p[|p| - 1] == v;
    var q :| ChainFrom(g, v, q) && |q| == k + 1;
    Join(g, root, p, v, q);
  }
}
