/** The workspace dependency graph: reachability and shortest paths. */
module DependencyGraph {
  import opened Options

  datatype Name = Name(text: string)

  /** Packages by name. A list stands for the ordered set the code iterates over; nothing
      below depends on its order or on repetitions. */
  datatype Graph = Graph(members: seq<Name>, edges: map<Name, seq<Name>>)

  function Deps(g: Graph, pkg: Name): seq<Name> {
    if pkg in g.edges then g.edges[pkg] else []
  }

  predicate Edge(g: Graph, a: Name, b: Name) {
    b in Deps(g, a)
  }

  /** A non-empty chain of names, each depending on the next. */
  predicate IsPath(g: Graph, p: seq<Name>) {
    p != [] && forall i :: 0 <= i < |p| - 1 ==> Edge(g, p[i], p[i + 1])
  }

  predicate PathFromTo(g: Graph, p: seq<Name>, a: Name, b: Name) {
    IsPath(g, p) && p[0] == a && p[|p| - 1] == b
  }

  ghost predicate Reaches(g: Graph, a: Name, b: Name) {
    exists p :: PathFromTo(g, p, a, b)
  }

  /** Every name a search from `root` can meet. */
  ghost function Names(g: Graph, root: Name): set<Name> {
    {root} + set k, i | k in g.edges && 0 <= i < |g.edges[k]| :: g.edges[k][i]
  }

  lemma ReachesSelf(g: Graph, a: Name)
    ensures Reaches(g, a, a)
  {
    assert PathFromTo(g, [a], a, a);
  }

  lemma ReachesStep(g: Graph, a: Name, b: Name, c: Name)
    requires Reaches(g, a, b) && Edge(g, b, c)
    ensures Reaches(g, a, c)
  {
    var p :| PathFromTo(g, p, a, b);
    assert PathFromTo(g, p + [c], a, c);
  }

  /** A set closed under dependencies holds everything a path from it can reach. */
  lemma {:induction false} ClosedHoldsPath(g: Graph, s: set<Name>, p: seq<Name>)
    requires IsPath(g, p) && p[0] in s
    requires forall v, d :: v in s && Edge(g, v, d) ==> d in s
    ensures p[|p| - 1] in s
  {
    if |p| > 1 {
      var tail := p[1..];
      assert Edge(g, p[0], p[1]);
      assert forall i :: 0 <= i < |tail| - 1 ==> tail[i] == p[i + 1] && Edge(g, tail[i], tail[i + 1]);
      ClosedHoldsPath(g, s, tail);
    }
  }

  /** `reachable_from`: exactly the packages reachable from `root`, without `root`. */
  method ReachableFrom(g: Graph, root: Name) returns (r: set<Name>)
    ensures forall v :: v in r <==> v != root && Reaches(g, root, v)
  {
    var seen: set<Name> := {};
    var queue := [root];
    ghost var names := Names(g, root);
    ReachesSelf(g, root);
    while queue != []
      invariant seen <= names
      invariant forall v :: v in seen || v in queue ==> Reaches(g, root, v)
      invariant forall v :: v in seen + {root} ==> v in queue || forall d :: Edge(g, v, d) ==> d in seen
      decreases names - seen, |queue|
    {
      var pkg := queue[0];
      ghost var before, was := seen, queue;
      queue := queue[1..];
      var deps := Deps(g, pkg);
      for i := 0 to |deps|
        invariant before <= seen <= names
        invariant seen == before ==> queue == was[1..]
        invariant forall v :: v in was ==> v == pkg || v in queue
        invariant forall v :: v in seen || v in queue ==> Reaches(g, root, v)
        invariant forall d :: d in seen ==> d in before || d in queue
        invariant forall k :: 0 <= k < i ==> deps[k] in seen
      {
        var dep := deps[i];
        ReachesStep(g, root, pkg, dep);
        assert dep in names;
        if dep !in seen {
          seen := seen + {dep};
          queue := queue + [dep];
        }
      }
    }
    forall v | Reaches(g, root, v) ensures v in seen + {root} {
      var p :| PathFromTo(g, p, root, v);
      ClosedHoldsPath(g, seen + {root}, p);
    }
    r := seen - {root};
  }

  function Reverse(s: seq<Name>): (r: seq<Name>)
    ensures |r| == |s| && forall i :: 0 <= i < |s| ==> r[i] == s[|s| - 1 - i]
  {
    seq(|s|, i requires 0 <= i < |s| => s[|s| - 1 - i])
  }

  /** Breadth-first state: `dist` gives each package met its distance along `prev`. */
  ghost predicate SearchTree(g: Graph, root: Name, prev: map<Name, Name>, dist: map<Name, nat>) {
    && root in dist && dist[root] == 0 && root !in prev
    && (forall v :: v in dist && v != root ==> v in prev)
    && (forall v :: v in prev ==> v in dist && prev[v] in dist && Edge(g, prev[v], v) && dist[v] == dist[prev[v]] + 1)
  }

  /** Processed packages are no target, and everything they depend on has been met one
      step further on at most. */
  ghost predicate Processed(g: Graph, targets: set<Name>, done: set<Name>, dist: map<Name, nat>) {
    forall v :: v in done ==>
      v in dist && v !in targets && forall d :: Edge(g, v, d) ==> d in dist && dist[d] <= dist[v] + 1
  }

  lemma {:induction false} DoneDistance(g: Graph, root: Name, targets: set<Name>, done: set<Name>,
                                        dist: map<Name, nat>, p: seq<Name>, j: nat)
    requires root in dist && dist[root] == 0 && Processed(g, targets, done, dist)
    requires IsPath(g, p) && p[0] == root && j < |p| && forall i :: 0 <= i < j ==> p[i] in done
    ensures p[j] in dist && dist[p[j]] <= j
  {
    if j > 0 {
      DoneDistance(g, root, targets, done, dist, p, j - 1);
      assert Edge(g, p[j - 1], p[j]);
    }
  }

  /** No path to a target is shorter than the distance of the nearest unprocessed package. */
  lemma NoShorterPath(g: Graph, root: Name, targets: set<Name>, done: set<Name>, dist: map<Name, nat>, k: nat,
                      p: seq<Name>)
    requires root in dist && dist[root] == 0 && Processed(g, targets, done, dist)
    requires forall v :: v in dist ==> v in done || dist[v] >= k
    requires IsPath(g, p) && p[0] == root && p[|p| - 1] in targets
    ensures |p| - 1 >= k
  {
    var j := 0;
    while j < |p| && p[j] in done
      invariant j <= |p| && forall i :: 0 <= i < j ==> p[i] in done
    {
      j := j + 1;
    }
    if j < |p| {
      DoneDistance(g, root, targets, done, dist, p, j);
    }
  }

  /** The predecessor walk: terminates, and yields a real path of the recorded length. */
  method TracePath(g: Graph, root: Name, prev: map<Name, Name>, ghost dist: map<Name, nat>, pkg: Name)
    returns (path: seq<Name>)
    requires SearchTree(g, root, prev, dist) && pkg in dist
    ensures PathFromTo(g, path, root, pkg) && |path| == dist[pkg] + 1
  {
    path := [pkg];
    var cur := pkg;
    while cur in prev
      invariant cur in dist && path != [] && path[0] == pkg && path[|path| - 1] == cur
      invariant |path| + dist[cur] == dist[pkg] + 1
      invariant forall i :: 0 <= i < |path| - 1 ==> Edge(g, path[i + 1], path[i])
      decreases dist[cur]
    {
      cur := prev[cur];
      path := path + [cur];
    }
    path := Reverse(path);
  }

  /** Between two rounds: packages met are processed or queued, and the queue runs from
      nearest to farthest with at most one step between its ends. */
  ghost predicate Frontier(g: Graph, root: Name, targets: set<Name>, queue: seq<Name>,
                           prev: map<Name, Name>, dist: map<Name, nat>, done: set<Name>) {
    && SearchTree(g, root, prev, dist) && Processed(g, targets, done, dist)
    && (forall v :: v in dist ==> v in done || v in queue)
    && (forall i :: 0 <= i < |queue| ==> queue[i] in dist)
    && (forall v, i :: v in done && 0 <= i < |queue| ==> dist[v] <= dist[queue[i]])
    && (forall i, j :: 0 <= i < j < |queue| ==> dist[queue[i]] <= dist[queue[j]] <= dist[queue[0]] + 1)
  }

  /** While `pkg` is being expanded: as above, with `pkg` out of the queue. */
  ghost predicate Expanding(pkg: Name, queue: seq<Name>, dist: map<Name, nat>, done: set<Name>) {
    && pkg in dist
    && (forall v :: v in dist ==> v == pkg || v in done || v in queue)
    && (forall v :: v in done ==> v in dist && dist[v] <= dist[pkg])
    && (forall i :: 0 <= i < |queue| ==> queue[i] in dist && dist[pkg] <= dist[queue[i]] <= dist[pkg] + 1)
    && (forall i, j :: 0 <= i < j < |queue| ==> dist[queue[i]] <= dist[queue[j]])
  }

  lemma StartExpanding(g: Graph, root: Name, targets: set<Name>, queue: seq<Name>,
                       prev: map<Name, Name>, dist: map<Name, nat>, done: set<Name>)
    requires Frontier(g, root, targets, queue, prev, dist, done) && queue != []
    ensures Expanding(queue[0], queue[1..], dist, done)
  {
    hide SearchTree;
  }

  lemma Discover(pkg: Name, queue: seq<Name>, dist: map<Name, nat>, done: set<Name>, dep: Name)
    requires Expanding(pkg, queue, dist, done) && dep !in dist
    ensures Expanding(pkg, queue + [dep], dist[dep := dist[pkg] + 1], done)
  {
    var queue', dist' := queue + [dep], dist[dep := dist[pkg] + 1];
    forall v | v in dist' ensures v == pkg || v in done || v in queue' {
      if v == dep { assert queue'[|queue|] == dep; }
    }
  }

  lemma GrowTree(g: Graph, root: Name, pkg: Name, prev: map<Name, Name>, dist: map<Name, nat>, dep: Name)
    requires SearchTree(g, root, prev, dist) && pkg in dist && dep !in dist && Edge(g, pkg, dep)
    ensures SearchTree(g, root, prev[dep := pkg], dist[dep := dist[pkg] + 1])
  {}

  /** The head of the queue is as near to the root as any target can be. */
  lemma HeadIsNearest(g: Graph, root: Name, targets: set<Name>, queue: seq<Name>,
                      prev: map<Name, Name>, dist: map<Name, nat>, done: set<Name>)
    requires Frontier(g, root, targets, queue, prev, dist, done) && queue != []
    ensures SearchTree(g, root, prev, dist) && queue[0] in dist
    ensures forall p :: IsPath(g, p) && p[0] == root && p[|p| - 1] in targets ==> dist[queue[0]] + 1 <= |p|
  {
    forall p | IsPath(g, p) && p[0] == root && p[|p| - 1] in targets ensures dist[queue[0]] + 1 <= |p| {
      NoShorterPath(g, root, targets, done, dist, dist[queue[0]], p);
    }
  }

  lemma FinishExpanding(g: Graph, root: Name, targets: set<Name>, pkg: Name, queue: seq<Name>,
                        prev: map<Name, Name>, dist0: map<Name, nat>, dist: map<Name, nat>, done: set<Name>)
    requires SearchTree(g, root, prev, dist) && Expanding(pkg, queue, dist, done) && Processed(g, targets, done, dist0)
    requires forall v :: v in dist0 ==> v in dist && dist[v] == dist0[v]
    requires pkg !in targets && forall d :: Edge(g, pkg, d) ==> d in dist
    ensures Frontier(g, root, targets, queue, prev, dist, done + {pkg})
  {
    hide SearchTree;
    assert Processed(g, targets, done + {pkg}, dist);
  }

  /** `shortest_path_to_any`: a real path from `root` to a target that no other beats, and
      `None` exactly when no target is reachable. */
  method ShortestPathToAny(g: Graph, root: Name, targets: set<Name>) returns (r: Option<seq<Name>>)
    ensures r.Some? ==>
      && IsPath(g, r.value) && r.value[0] == root && r.value[|r.value| - 1] in targets
      && forall p :: IsPath(g, p) && p[0] == root && p[|p| - 1] in targets ==> |r.value| <= |p|
    ensures r.Some? <==> root in targets || exists t :: t in targets && t != root && Reaches(g, root, t)
  {
    hide Frontier, SearchTree, Names;
    var prev: map<Name, Name> := map[];
    var seen := {root};
    var queue := [root];
    ghost var dist: map<Name, nat>, done: set<Name> := map[root := 0], {};
    StartSearch(g, root, targets);
    while queue != []
      invariant seen == dist.Keys && seen <= Names(g, root)
      invariant Frontier(g, root, targets, queue, prev, dist, done)
      decreases Names(g, root) - seen, |queue|
    {
      var pkg := queue[0];
      if pkg in targets {
        HeadIsNearest(g, root, targets, queue, prev, dist, done);
        var path := TracePath(g, root, prev, dist, pkg);
        assert Reaches(g, root, pkg);
        return Some(path);
      }
      queue, seen, prev, dist := Expand(g, root, targets, queue, seen, prev, dist, done);
      done := done + {pkg};
    }
    Exhausted(g, root, targets, prev, dist, done);
    r := None;
  }

  lemma StartSearch(g: Graph, root: Name, targets: set<Name>)
    ensures Frontier(g, root, targets, [root], map[], map[root := 0], {})
    ensures {root} <= Names(g, root) && Reaches(g, root, root)
  {
    ReachesSelf(g, root);
  }

  lemma Exhausted(g: Graph, root: Name, targets: set<Name>, prev: map<Name, Name>, dist: map<Name, nat>,
                  done: set<Name>)
    requires Frontier(g, root, targets, [], prev, dist, done)
    ensures forall t :: t in targets ==> !Reaches(g, root, t)
  {
    forall t, p | t in targets && PathFromTo(g, p, root, t) ensures false {
      ClosedHoldsPath(g, dist.Keys, p);
    }
  }

  /** The inner loop: meets every dependency of the head of the queue. */
  method Expand(g: Graph, root: Name, ghost targets: set<Name>, was: seq<Name>, seen0: set<Name>,
                prev0: map<Name, Name>, ghost dist0: map<Name, nat>, ghost done: set<Name>)
    returns (queue: seq<Name>, seen: set<Name>, prev: map<Name, Name>, ghost dist: map<Name, nat>)
    requires was != [] && was[0] !in targets && seen0 == dist0.Keys && seen0 <= Names(g, root)
    requires Frontier(g, root, targets, was, prev0, dist0, done)
    ensures seen == dist.Keys && seen0 <= seen <= Names(g, root)
    ensures seen == seen0 ==> |queue| < |was|
    ensures Frontier(g, root, targets, queue, prev, dist, done + {was[0]})
  {
    hide SearchTree, Processed, Expanding, Frontier;
    var pkg := was[0];
    FrontierParts(g, root, targets, was, prev0, dist0, done);
    StartExpanding(g, root, targets, was, prev0, dist0, done);
    queue, seen, prev, dist := was[1..], seen0, prev0, dist0;
    var deps := Deps(g, pkg);
    for i := 0 to |deps|
      invariant seen == dist.Keys && seen0 <= seen <= Names(g, root)
      invariant seen == seen0 ==> queue == was[1..]
      invariant forall v :: v in seen0 ==> dist[v] == dist0[v]
      invariant pkg in dist && SearchTree(g, root, prev, dist) && Expanding(pkg, queue, dist, done)
      invariant forall k :: 0 <= k < i ==> deps[k] in seen
    {
      var dep := deps[i];
      assert dep in Names(g, root);
      if dep !in seen {
        GrowTree(g, root, pkg, prev, dist, dep);
        Discover(pkg, queue, dist, done, dep);
        seen := seen + {dep};
        prev := prev[dep := pkg];
        dist := dist[dep := dist[pkg] + 1];
        queue := queue + [dep];
      }
    }
    FinishExpanding(g, root, targets, pkg, queue, prev, dist0, dist, done);
  }

  lemma FrontierParts(g: Graph, root: Name, targets: set<Name>, queue: seq<Name>,
                          prev: map<Name, Name>, dist: map<Name, nat>, done: set<Name>)
    requires Frontier(g, root, targets, queue, prev, dist, done)
    ensures SearchTree(g, root, prev, dist) && Processed(g, targets, done, dist)
    ensures queue != [] ==> queue[0] in dist
  {}
}
