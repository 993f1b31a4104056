/** Ranking indices by key, best first: what the source's stable sorts by descending key do. */
module Ranking {

  /** Greater key first, and the lower index first on a tie. */
  predicate Before(keys: seq<int>, i: nat, j: nat)
    requires i < |keys| && j < |keys|
  {
    keys[i] > keys[j] || (keys[i] == keys[j] && i < j)
  }

  predicate Ordered(keys: seq<int>, order: seq<nat>) {
    && (forall k :: 0 <= k < |order| ==> order[k] < |keys|)
    && (forall k, m :: 0 <= k < m < |order| ==> Before(keys, order[k], order[m]))
  }

  function Insert(keys: seq<int>, i: nat, order: seq<nat>): (r: seq<nat>)
    requires i < |keys| && Ordered(keys, order) && i !in order
    ensures Ordered(keys, r) && |r| == |order| + 1
    ensures forall k :: k in r <==> k == i || k in order
  {
    if order == [] then [i]
    else if Before(keys, i, order[0]) then [i] + order
    else
      assert order[0] in order;
      var rest := Insert(keys, i, order[1..]);
      assert forall k :: k in rest ==> Before(keys, order[0], k);
      assert forall k :: 0 <= k < |rest| ==> rest[k] in rest;
      [order[0]] + rest
  }

  /** The indices below `n`, sorted by `Before`. */
  function Order(keys: seq<int>, n: nat): (r: seq<nat>)
    requires n <= |keys|
    ensures Ordered(keys, r) && |r| == n
    ensures forall k: nat :: k in r <==> k < n
  {
    if n == 0 then [] else Insert(keys, n - 1, Order(keys, n - 1))
  }

  /** How many indices come before `i`. */
  function Rank(keys: seq<int>, i: nat): nat
    requires i < |keys|
  {
    |set j: nat | j < |keys| && Before(keys, j, i)|
  }

  lemma RankMonotone(keys: seq<int>, i: nat, j: nat)
    requires i < |keys| && j < |keys| && Before(keys, i, j)
    ensures Rank(keys, i) < Rank(keys, j)
  {
    var a := set k: nat | k < |keys| && Before(keys, k, i);
    var b := set k: nat | k < |keys| && Before(keys, k, j);
    assert a + {i} <= b && i !in a;
    SizeSubset(a + {i}, b);
  }

  lemma {:induction false} SizeSubset(a: set<nat>, b: set<nat>)
    requires a <= b
    ensures |a| <= |b|
  {
    if a != {} {
      var x :| x in a;
      SizeSubset(a - {x}, b - {x});
    }
  }

  function Members(s: seq<nat>): (r: set<nat>)
    ensures forall j :: j in r <==> j in s
  {
    if s == [] then {} else Members(s[..|s| - 1]) + {s[|s| - 1]}
  }

  lemma {:induction false} MembersSize(s: seq<nat>)
    requires forall k, m :: 0 <= k < m < |s| ==> s[k] != s[m]
    ensures |Members(s)| == |s|
  {
    if s != [] {
      var n := |s| - 1;
      MembersSize(s[..n]);
      assert forall k :: 0 <= k < n ==> s[..n][k] == s[k];
      assert s[n] !in Members(s[..n]);
    }
  }

  lemma OrderDistinct(keys: seq<int>, order: seq<nat>)
    requires Ordered(keys, order)
    ensures forall k, m :: 0 <= k < m < |order| ==> order[k] != order[m]
  {}

  /** A place in the order is a rank. */
  lemma PlaceIsRank(keys: seq<int>, order: seq<nat>, k: nat)
    requires Ordered(keys, order) && (forall j: nat :: j in order <==> j < |keys|) && k < |order|
    ensures Rank(keys, order[k]) == k
  {
    var i := order[k];
    var before := set j: nat | j < |keys| && Before(keys, j, i);
    forall j: nat | j in before ensures j in order[..k] {
      assert j in order;
      var m :| 0 <= m < |order| && order[m] == j;
      assert m < k;
    }
    forall j: nat | j in order[..k] ensures j in before {
      assert j in order;
      var m :| 0 <= m < k && order[m] == j;
    }
    assert before == Members(order[..k]);
    OrderDistinct(keys, order);
    MembersSize(order[..k]);
  }
}
