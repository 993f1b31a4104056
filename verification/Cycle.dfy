/** Three-colour depth-first search for a dependency cycle among workspace members. */
module MemberCycles {
  import opened Options
  import opened Sequences
  import opened DependencyGraph

  datatype Mark = InProgress | Done

  /** A chain along member edges that ends where it starts. */
  predicate ClosedChain(g: Graph, c: seq<Name>) {
    && |c| >= 2 && IsPath(g, c) && c[0] == c[|c| - 1]
    && forall i :: 0 <= i < |c| ==> c[i] in g.members
  }

  /** A closed chain with no repetition but its ends. */
  predicate Cycle(g: Graph, c: seq<Name>) {
    ClosedChain(g, c) && Distinct(c[..|c| - 1])
  }

  /** Every member dependency of `order[i]` stands before it. */
  predicate Topological(g: Graph, order: seq<Name>) {
    forall i, d :: 0 <= i < |order| && d in g.members && Edge(g, order[i], d) ==> d in order[..i]
  }

  function FirstIndex(order: seq<Name>, n: Name): (i: nat)
    requires n in order
    ensures i < |order| && order[i] == n && n !in order[..i]
  {
    if order[0] == n then 0
    else
      var k := FirstIndex(order[1..], n);
      assert order[..k + 1] == [order[0]] + order[1..][..k];
      k + 1
  }

  /** Along a closed chain the position in a topological order would fall forever. */
  lemma {:induction false} RankFalls(g: Graph, order: seq<Name>, c: seq<Name>, k: nat)
    requires Topological(g, order) && (forall m :: m in g.members ==> m in order)
    requires ClosedChain(g, c) && k < |c|
    ensures c[k] in order && c[0] in order && FirstIndex(order, c[k]) + k <= FirstIndex(order, c[0])
  {
    if k > 0 {
      RankFalls(g, order, c, k - 1);
      var i := FirstIndex(order, c[k - 1]);
      assert Edge(g, c[k - 1], c[k]);
      var j :| 0 <= j < i && order[j] == c[k];
      var f := FirstIndex(order, c[k]);
      assert forall m :: 0 <= m < f ==> order[m] == order[..f][m] != c[k];
    }
  }

  lemma TopologicalIsAcyclic(g: Graph, order: seq<Name>)
    requires Topological(g, order) && (forall m :: m in g.members ==> m in order)
    ensures forall c :: !ClosedChain(g, c)
  {
    forall c ensures !ClosedChain(g, c) {
      if ClosedChain(g, c) { RankFalls(g, order, c, |c| - 1); }
    }
  }

  /** The colouring: in progress means on the stack, which is a chain of distinct members;
      done means finished, with every member dependency finished before. */
  ghost predicate Coloured(g: Graph, marks: map<Name, Mark>, stack: seq<Name>, order: seq<Name>) {
    && Distinct(stack)
    && (forall i :: 0 <= i < |stack| - 1 ==> Edge(g, stack[i], stack[i + 1]))
    && (forall n :: n in marks ==> n in g.members)
    && (forall n :: n in marks && marks[n].InProgress? ==> n in stack)
    && (forall i :: 0 <= i < |stack| ==> stack[i] in marks && marks[stack[i]].InProgress?)
    && (forall n :: n in marks && marks[n].Done? ==> n in order)
    && (forall i :: 0 <= i < |order| ==> order[i] in marks && marks[order[i]].Done?)
    && Topological(g, order)
  }

  lemma Push(g: Graph, marks: map<Name, Mark>, stack: seq<Name>, order: seq<Name>, pkg: Name)
    requires Coloured(g, marks, stack, order) && pkg !in marks && pkg in g.members
    requires stack != [] ==> Edge(g, stack[|stack| - 1], pkg)
    ensures Coloured(g, marks[pkg := InProgress], stack + [pkg], order)
  {
    hide Topological, Edge;
    var stack' := stack + [pkg];
    assert stack'[|stack|] == pkg && forall i :: 0 <= i < |stack| ==> stack'[i] == stack[i] != pkg;
  }

  lemma Pop(g: Graph, marks: map<Name, Mark>, stack: seq<Name>, order: seq<Name>, pkg: Name)
    requires Coloured(g, marks, stack + [pkg], order)
    requires forall d :: d in g.members && Edge(g, pkg, d) ==> d in marks && marks[d].Done?
    ensures Coloured(g, marks[pkg := Done], stack, order + [pkg])
  {
    Finished(g, order, pkg);
    hide Topological, Edge;
    var top, order' := stack + [pkg], order + [pkg];
    assert top[|stack|] == pkg && order'[|order|] == pkg;
    assert forall i :: 0 <= i < |stack| ==> top[i] == stack[i] != pkg;
    assert forall i :: 0 <= i < |order| ==> order'[i] == order[i] != pkg;
  }

  lemma Finished(g: Graph, order: seq<Name>, pkg: Name)
    requires Topological(g, order) && forall d :: d in g.members && Edge(g, pkg, d) ==> d in order
    ensures Topological(g, order + [pkg])
  {
    hide Edge;
    var order' := order + [pkg];
    forall i, d | 0 <= i < |order'| && d in g.members && Edge(g, order'[i], d) ensures d in order'[..i] {
      if i < |order| {
        assert d in order[..i] && order'[..i] == order[..i];
      } else {
        assert order'[..i] == order;
      }
    }
  }

  lemma BackEdge(g: Graph, marks: map<Name, Mark>, stack: seq<Name>, order: seq<Name>, pkg: Name, at: nat)
    requires Coloured(g, marks, stack, order) && at < |stack| && stack[at] == pkg
    requires Edge(g, stack[|stack| - 1], pkg)
    ensures Cycle(g, stack[at..] + [pkg])
  {
    hide Topological, Edge;
    var c := stack[at..] + [pkg];
    var n := |stack| - at;
    assert c[..n] == stack[at..];
    assert forall i :: 0 <= i < n ==> c[i] == stack[at + i];
    forall i | 0 <= i < n ensures Edge(g, c[i], c[i + 1]) {
      if i + 1 < n { assert c[i] == stack[at + i] && c[i + 1] == stack[at + i + 1]; }
    }
    forall i | 0 <= i <= n ensures c[i] in g.members { assert c[i] in marks; }
  }

  class CycleSearch {
    const g: Graph
    var marks: map<Name, Mark>
    var stack: seq<Name>
    ghost var order: seq<Name>  // finished packages, first finished first

    ghost predicate Valid()
      reads this
    {
      Coloured(g, marks, stack, order)
    }

    constructor (graph: Graph)
      ensures Valid() && g == graph && stack == [] && marks == map[]
    {
      g := graph;
      marks, stack, order := map[], [], [];
    }

    ghost function Unmarked(): set<Name>
      reads this
    {
      (set n | n in g.members) - marks.Keys
    }

    /** `visit`: the recursion ends because every call that goes deeper marks a member. */
    method Visit(pkg: Name) returns (r: Option<seq<Name>>)
      requires Valid() && pkg in g.members
      requires stack != [] ==> Edge(g, stack[|stack| - 1], pkg)
      modifies this
      ensures r.Some? ==> Cycle(g, r.value)
      ensures r.None? ==> Valid() && stack == old(stack) && pkg in marks && marks[pkg].Done?
      ensures r.None? ==> forall n :: n in old(marks) ==> n in marks && marks[n] == old(marks)[n]
      decreases Unmarked()
    {
      hide Coloured, Cycle;
      if pkg in marks {
        if marks[pkg].Done? { return None; }
        OnStack(g, marks, stack, order, pkg);
        var at := PositionOnStack(pkg);
        BackEdge(g, marks, stack, order, pkg, at);
        return Some(stack[at..] + [pkg]);
      }
      Push(g, marks, stack, order, pkg);
      marks := marks[pkg := InProgress];
      stack := stack + [pkg];
      ghost var before := marks;
      var deps := Deps(g, pkg);
      for i := 0 to |deps|
        invariant Valid() && stack == old(stack) + [pkg]
        invariant forall n :: n in before ==> n in marks && marks[n] == before[n]
        invariant forall k :: 0 <= k < i && deps[k] in g.members ==> deps[k] in marks && marks[deps[k]].Done?
      {
        if deps[i] in g.members {
          assert pkg in before && pkg in old(Unmarked());
          var c := Visit(deps[i]);
          if c.Some? { return c; }
        }
      }
      Pop(g, marks, old(stack), order, pkg);
      stack := stack[..|stack| - 1];
      marks := marks[pkg := Done];
      order := order + [pkg];
      return None;
    }

    /** The position of an in-progress package: the search for it cannot fail. */
    method PositionOnStack(pkg: Name) returns (at: nat)
      requires pkg in stack
      ensures at < |stack| && stack[at] == pkg
    {
      at := 0;
      while stack[at] != pkg
        invariant at < |stack| && pkg in stack[at..]
        decreases |stack| - at
      {
        at := at + 1;
      }
    }
  }

  lemma OnStack(g: Graph, marks: map<Name, Mark>, stack: seq<Name>, order: seq<Name>, pkg: Name)
    requires Coloured(g, marks, stack, order) && pkg in marks && marks[pkg].InProgress?
    ensures pkg in stack && stack != []
  {}

  lemma AllFinished(g: Graph, marks: map<Name, Mark>, order: seq<Name>)
    requires Coloured(g, marks, [], order)
    requires forall k :: 0 <= k < |g.members| ==> g.members[k] in marks && marks[g.members[k]].Done?
    ensures forall c :: !ClosedChain(g, c)
  {
    TopologicalIsAcyclic(g, order);
  }

  /** `member_cycle`: a real cycle if there is one, and `None` only if the graph induced on
      the members has no closed chain at all, self-loops included. */
  method MemberCycle(g: Graph) returns (r: Option<seq<Name>>)
    ensures r.Some? ==> Cycle(g, r.value)
    ensures r.None? <==> forall c :: !ClosedChain(g, c)
  {
    hide Coloured, ClosedChain, Distinct;
    var search := new CycleSearch(g);
    for i := 0 to |g.members|
      invariant fresh(search) && search.g == g && search.Valid() && search.stack == []
      invariant forall k :: 0 <= k < i ==> g.members[k] in search.marks && search.marks[g.members[k]].Done?
    {
      r := search.Visit(g.members[i]);
      if r.Some? { return; }
    }
    AllFinished(g, search.marks, search.order);
    r := None;
  }
}
