/** The daemon's own edits of a tab's layout: splitting, closing and swapping panes, setting
    ratios to whatever a client sends, and preset schemes. */
module DaemonLayout {
  import opened Widths
  import opened Options
  import opened Sequences
  import opened Apportionment
  import opened Layout
  import opened Resize
  import opened StoredRatios
  import opened Edits
  import opened Tiling

  /** The first child that is exactly the leaf `pane`. */
  function LeafPosition(children: seq<LayoutNode>, pane: U32): (k: nat)
    ensures k <= |children| && (k < |children| ==> children[k] == Leaf(pane))
    ensures forall j :: 0 <= j < k ==> children[j] != Leaf(pane)
  {
    if children == [] || children[0] == Leaf(pane) then 0 else 1 + LeafPosition(children[1..], pane)
  }

  function InsertAt<T>(s: seq<T>, i: nat, x: T): (r: seq<T>)
    requires i <= |s|
    ensures |r| == |s| + 1
  {
    s[..i] + [x] + s[i..]
  }

  function RemoveAt<T>(s: seq<T>, i: nat): (r: seq<T>)
    requires i < |s|
    ensures |r| == |s| - 1
  {
    s[..i] + s[i + 1..]
  }

  /** Renormalized weights, in the width they are stored in. */
  function Renormalized(ratios: seq<U16>): (r: seq<U16>)
    ensures |r| == |ratios|
  {
    NormalizeFits(ratios);
    Normalize(ratios)
  }

  // ----- the edits

  /** `split`: `None` when `from` is no leaf of the tree. */
  function SplitPane(node: LayoutNode, from: U32, added: U32, dir: SplitDir): Option<LayoutNode>
    requires Sound(node)
    decreases node
  {
    match node
    case Leaf(i) => if i == from then Some(Pair(dir, node, added)) else None
    case Split(myDir, ratios, children) =>
      var pos := LeafPosition(children, from);
      if pos < |children| then
        if myDir == dir then
          var half := ratios[pos] / 2;
          Some(Split(myDir, Renormalized(InsertAt(ratios[pos := ratios[pos] - half], pos + 1, half)),
                     InsertAt(children, pos + 1, Leaf(added))))
        else Some(node.(children := children[pos := Pair(dir, children[pos], added)]))
      else
        match SplitAmong(children, from, added, dir)
        case None => None
        case Some(cs) => Some(node.(children := cs))
  }

  /** Descends into the first child split that holds `from`. */
  function SplitAmong(children: seq<LayoutNode>, from: U32, added: U32, dir: SplitDir): (r: Option<seq<LayoutNode>>)
    requires forall c :: c in children ==> Sound(c)
    ensures r.Some? ==> |r.value| == |children|
    decreases children
  {
    if children == [] then None
    else
      var here := if children[0].Split? then SplitPane(children[0], from, added, dir) else None;
      if here.Some? then Some([here.value] + children[1..])
      else match SplitAmong(children[1..], from, added, dir)
        case None => None
        case Some(cs) => Some([children[0]] + cs)
  }

  function Pair(dir: SplitDir, first: LayoutNode, second: U32): LayoutNode {
    Split(dir, [500, 500], [first, Leaf(second)])
  }

  /** `remove_pane`: `None` when the pane is the only one or absent. */
  function RemovePane(node: LayoutNode, pane: U32): Option<LayoutNode>
    requires Sound(node)
    decreases node
  {
    match node
    case Leaf(_) => None
    case Split(dir, ratios, children) =>
      var pos := LeafPosition(children, pane);
      if pos < |children| then
        var rest := RemoveAt(children, pos);
        if |rest| == 1 then Some(rest[0]) else Some(Split(dir, Renormalized(RemoveAt(ratios, pos)), rest))
      else
        match RemoveAmong(children, pane)
        case None => None
        case Some(cs) => Some(node.(children := cs))
  }

  function RemoveAmong(children: seq<LayoutNode>, pane: U32): (r: Option<seq<LayoutNode>>)
    requires forall c :: c in children ==> Sound(c)
    ensures r.Some? ==> |r.value| == |children|
    decreases children
  {
    if children == [] then None
    else
      var here := RemovePane(children[0], pane);
      if here.Some? then Some([here.value] + children[1..])
      else match RemoveAmong(children[1..], pane)
        case None => None
        case Some(cs) => Some([children[0]] + cs)
  }

  function Renamed(i: U32, a: U32, b: U32): U32 {
    if i == a then b else if i == b then a else i
  }

  /** `rename_leaf`. */
  function Rename(node: LayoutNode, a: U32, b: U32): LayoutNode
    decreases node
  {
    match node
    case Leaf(i) => Leaf(Renamed(i, a, b))
    case Split(dir, ratios, children) => Split(dir, ratios, RenameAll(children, a, b))
  }

  function RenameAll(children: seq<LayoutNode>, a: U32, b: U32): (r: seq<LayoutNode>)
    ensures |r| == |children|
    decreases children
  {
    if children == [] then [] else [Rename(children[0], a, b)] + RenameAll(children[1..], a, b)
  }

  /** `swap`. */
  function SwapPanes(root: LayoutNode, a: U32, b: U32): Option<LayoutNode> {
    if a == b || a !in Leaves(root) || b !in Leaves(root) then None else Some(Rename(root, a, b))
  }

  /** `Unknown` is a scheme of a newer client. */
  datatype Scheme = EvenHorizontal | EvenVertical | MainVertical | MainHorizontal | Unknown

  function LeafSeq(panes: seq<U32>): (cs: seq<LayoutNode>)
    ensures |cs| == |panes| && forall i :: 0 <= i < |cs| ==> cs[i] == Leaf(panes[i])
  {
    seq(|panes|, i requires 0 <= i < |panes| => Leaf(panes[i]))
  }

  function EvenSplit(panes: seq<U32>, dir: SplitDir): LayoutNode
    requires panes != []
  {
    Split(dir, Renormalized(seq(|panes|, _ => Share(|panes|))),
          LeafSeq(panes))
  }

  function Share(n: nat): U16
    requires n > 0
  {
    QuotientSmaller(1000, n);
    1000 / n
  }

  function MainSplit(panes: seq<U32>, outer: SplitDir, inner: SplitDir): LayoutNode
    requires |panes| >= 2
  {
    Split(outer, [500, 500], [Leaf(panes[0]), if |panes| == 2 then Leaf(panes[1]) else EvenSplit(panes[1..], inner)])
  }

  /** `apply_scheme`: `None` for a scheme not known. */
  function ApplyScheme(panes: seq<U32>, scheme: Scheme): Option<LayoutNode> {
    if scheme.Unknown? then None
    else if panes == [] then Some(Leaf(0))
    else if |panes| == 1 then Some(Leaf(panes[0]))
    else match scheme
      case EvenHorizontal => Some(EvenSplit(panes, Horizontal))
      case EvenVertical => Some(EvenSplit(panes, Vertical))
      case MainVertical => Some(MainSplit(panes, Horizontal, Vertical))
      case MainHorizontal => Some(MainSplit(panes, Vertical, Horizontal))
  }

  // ----- soundness

  /** Every split has at least two children, a ratio for each, and ratios summing to 1000. */
  predicate Sound(node: LayoutNode) {
    node.Split? ==>
      && |node.ratios| == |node.children| >= 2
      && Sum(node.ratios) == PERMILLE
      && forall c :: c in node.children ==> Sound(c)
  }

  lemma RenormalizedSums(ratios: seq<U16>)
    requires ratios != []
    ensures Sum(Renormalized(ratios)) == PERMILLE
  {
    hide Sum, Normalize;
    NormalizeSums(ratios);
  }

  lemma RenormalizedSame(ws: seq<U16>)
    requires Sum(ws) == PERMILLE
    ensures Renormalized(ws) == ws
  {
    hide Sum, Alloc;
    SomeRatio(ws);
    WholeQuotas(PERMILLE, PERMILLE, ws, ws);
  }

  /** The weight at `pos` shared between two. */
  function Halved(ws: seq<U16>, pos: nat): (r: seq<U16>)
    requires pos < |ws|
    ensures |r| == |ws| + 1
  {
    ws[..pos] + [ws[pos] - ws[pos] / 2, ws[pos] / 2] + ws[pos + 1..]
  }

  lemma SharedSum(a: seq<nat>, b: seq<nat>, x: nat, y: nat)
    ensures Sum(a + [x, y] + b) == Sum(a + [x + y] + b)
  {
    hide Sum;
    SumConcat(a + [x, y], b);
    SumConcat(a, [x, y]);
    SumConcat(a + [x + y], b);
    SumConcat(a, [x + y]);
    SumOfTwo(x, y);
    SumOfOne(x + y);
  }

  lemma HalvedSum(ws: seq<U16>, pos: nat)
    requires pos < |ws|
    ensures Sum(Halved(ws, pos)) == Sum(ws)
  {
    hide Sum;
    var x, y := ws[pos] - ws[pos] / 2, ws[pos] / 2;
    ParcelSum(ws, pos, x, y);
    assert Halved(ws, pos) == ws[..pos] + [x, y] + ws[pos + 1..];
  }

  lemma ParcelSum(ws: seq<nat>, pos: nat, x: nat, y: nat)
    requires pos < |ws| && x + y == ws[pos]
    ensures Sum(ws[..pos] + [x, y] + ws[pos + 1..]) == Sum(ws)
  {
    hide Sum;
    SharedSum(ws[..pos], ws[pos + 1..], x, y);
    assert ws == ws[..pos] + [x + y] + ws[pos + 1..];
  }

  lemma PairSound(dir: SplitDir, first: LayoutNode, second: U32)
    requires Sound(first)
    ensures Sound(Pair(dir, first, second)) && Leaves(Pair(dir, first, second)) == Leaves(first) + [second]
  {
    HalvesSum();
    TwoLeaves(first, Leaf(second));
  }

  lemma HalvesSum()
    ensures Sum([500, 500]) == PERMILLE
  {
    SumOfTwo(500, 500);
  }

  // ----- leaves

  lemma LeavesOne(c: LayoutNode)
    ensures LeavesAll([c]) == Leaves(c)
  {
    assert [c][1..] == [];
  }

  lemma TwoLeaves(c: LayoutNode, d: LayoutNode)
    ensures LeavesAll([c, d]) == Leaves(c) + Leaves(d)
  {
    hide Leaves;
    assert [c, d] == [c] + [d];
    LeavesConcat([c], [d]);
    LeavesOne(c);
    LeavesOne(d);
  }

  function InsertAfter(s: seq<U32>, from: U32, x: U32): seq<U32> {
    if s == [] then [] else if s[0] == from then [from, x] + s[1..] else [s[0]] + InsertAfter(s[1..], from, x)
  }

  function WithoutFirst(s: seq<U32>, x: U32): seq<U32> {
    if s == [] then [] else if s[0] == x then s[1..] else [s[0]] + WithoutFirst(s[1..], x)
  }

  /** In `a + [from] + b` the new entry goes right behind `from`, provided `a` does not hold it. */
  lemma {:induction false} InsertMiddle(a: seq<U32>, b: seq<U32>, from: U32, x: U32)
    requires from !in a
    ensures InsertAfter(a + [from] + b, from, x) == a + [from, x] + b
  {
    var s := a + [from] + b;
    if a == [] {
      assert s[0] == from && s[1..] == b;
    } else {
      assert s[0] == a[0] && s[1..] == a[1..] + [from] + b;
      InsertMiddle(a[1..], b, from, x);
      assert a + [from, x] + b == [a[0]] + (a[1..] + [from, x] + b);
    }
  }

  lemma {:induction false} InsertAfterConcat(a: seq<U32>, b: seq<U32>, from: U32, x: U32)
    ensures from in a ==> InsertAfter(a + b, from, x) == InsertAfter(a, from, x) + b
    ensures from !in a ==> InsertAfter(a + b, from, x) == a + InsertAfter(b, from, x)
  {
    if a == [] {
      assert a + b == b;
    } else {
      assert (a + b)[0] == a[0] && (a + b)[1..] == a[1..] + b;
      if a[0] == from {
        assert [from, x] + (a[1..] + b) == ([from, x] + a[1..]) + b;
      } else {
        InsertAfterConcat(a[1..], b, from, x);
        assert a == [a[0]] + a[1..];
      }
    }
  }

  lemma {:induction false} RemoveMiddle(a: seq<U32>, b: seq<U32>, x: U32)
    requires x !in a
    ensures WithoutFirst(a + [x] + b, x) == a + b
  {
    var s := a + [x] + b;
    if a == [] {
      assert s[0] == x && s[1..] == b;
    } else {
      assert s[0] == a[0] && s[1..] == a[1..] + [x] + b;
      RemoveMiddle(a[1..], b, x);
      assert a + b == [a[0]] + (a[1..] + b);
    }
  }

  lemma {:induction false} WithoutFirstConcat(a: seq<U32>, b: seq<U32>, x: U32)
    ensures x in a ==> WithoutFirst(a + b, x) == WithoutFirst(a, x) + b
    ensures x !in a ==> WithoutFirst(a + b, x) == a + WithoutFirst(b, x)
  {
    if a == [] {
      assert a + b == b;
    } else {
      assert (a + b)[0] == a[0] && (a + b)[1..] == a[1..] + b;
      if a[0] != x {
        WithoutFirstConcat(a[1..], b, x);
        assert a == [a[0]] + a[1..];
      }
    }
  }

  lemma NotBefore(a: seq<U32>, x: U32, b: seq<U32>)
    requires Distinct(a + [x] + b)
    ensures x !in a
  {
    assert a + [x] + b == a + ([x] + b) && x in [x] + b;
    DistinctParts(a, [x] + b);
  }

  lemma {:induction false} LeavesConcat(a: seq<LayoutNode>, b: seq<LayoutNode>)
    ensures LeavesAll(a + b) == LeavesAll(a) + LeavesAll(b)
  {
    if a == [] {
      assert a + b == b;
    } else {
      assert (a + b)[1..] == a[1..] + b;
      LeavesConcat(a[1..], b);
    }
  }

  /** The leaves around child `i`. */
  lemma LeavesAround(children: seq<LayoutNode>, i: nat)
    requires i < |children|
    ensures LeavesAll(children) == LeavesAll(children[..i]) + Leaves(children[i]) + LeavesAll(children[i + 1..])
  {
    hide Leaves;
    assert children == children[..i] + children[i..];
    LeavesConcat(children[..i], children[i..]);
    assert children[i..][1..] == children[i + 1..];
  }

  lemma {:induction false} LeavesNotEmpty(node: LayoutNode)
    requires Sound(node)
    ensures Leaves(node) != []
    decreases node
  {
    if node.Split? { LeavesNotEmpty(node.children[0]); }
  }

  // ----- splitting

  /** A split adds the new pane right after the one it came from, and keeps the tree sound; it is
      refused exactly when that pane is not in the tree. */
  lemma {:induction false} SplitKeeps(node: LayoutNode, from: U32, x: U32, dir: SplitDir)
    requires Sound(node) && Distinct(Leaves(node))
    ensures var r := SplitPane(node, from, x, dir);
      && (r.Some? <==> from in Leaves(node))
      && (r.Some? ==> r.value.Split? && Sound(r.value) && Leaves(r.value) == InsertAfter(Leaves(node), from, x))
    decreases node
  {
    if node.Leaf? {
      PairSound(dir, node, x);
    } else {
      var pos := LeafPosition(node.children, from);
      if pos < |node.children| {
        SplitHere(node, from, x, dir, pos);
      } else {
        SplitAmongKeeps(node.children, from, x, dir);
      }
    }
  }

  /** Putting `mid`, with leaves `from` and `x`, in place of the leaf `from`. */
  lemma ReplaceLeaf(cs: seq<LayoutNode>, pos: nat, mid: seq<LayoutNode>, from: U32, x: U32)
    requires pos < |cs| && cs[pos] == Leaf(from) && Distinct(LeavesAll(cs)) && LeavesAll(mid) == [from, x]
    ensures from in LeavesAll(cs)
    ensures LeavesAll(cs[..pos] + mid + cs[pos + 1..]) == InsertAfter(LeavesAll(cs), from, x)
  {
    hide InsertAfter, Leaves, LeavesAll, Distinct;
    var a, b := cs[..pos], cs[pos + 1..];
    LeavesAround(cs, pos);
    LeafLeaves(from, x);
    NotBefore(LeavesAll(a), from, LeavesAll(b));
    InsertMiddle(LeavesAll(a), LeavesAll(b), from, x);
    LeavesConcat(a, mid);
    LeavesConcat(a + mid, b);
  }

  lemma SplitHere(node: LayoutNode, from: U32, x: U32, dir: SplitDir, pos: nat)
    requires Sound(node) && Distinct(Leaves(node)) && node.Split?
    requires pos == LeafPosition(node.children, from) < |node.children|
    ensures var r := SplitPane(node, from, x, dir);
      && from in Leaves(node) && r.Some? && r.value.Split? && Sound(r.value)
      && Leaves(r.value) == InsertAfter(Leaves(node), from, x)
  {
    hide Sum, Renormalized, InsertAfter, Leaves, LeavesAll, Distinct, Sound;
    var r := SplitPane(node, from, x, dir).value;
    ChildLeavesOf(node, r);
    if node.dir == dir { InsertHere(node, from, x, pos); } else { PairHere(node, from, x, dir, pos); }
  }

  /** A new sibling next to the leaf. */
  lemma InsertHere(node: LayoutNode, from: U32, x: U32, pos: nat)
    requires Sound(node) && node.Split? && Distinct(LeavesAll(node.children))
    requires pos == LeafPosition(node.children, from) < |node.children|
    ensures var r := SplitPane(node, from, x, node.dir).value;
      && from in LeavesAll(node.children) && Sound(r)
      && LeavesAll(r.children) == InsertAfter(LeavesAll(node.children), from, x)
  {
    hide Sum, Renormalized, InsertAfter, Leaves, LeavesAll, Distinct;
    var cs := node.children;
    var r := SplitPane(node, from, x, node.dir).value;
    LeafLeaves(from, x);
    var half := node.ratios[pos] / 2;
    RenormalizedSums(InsertAt(node.ratios[pos := node.ratios[pos] - half], pos + 1, half));
    assert r.children == cs[..pos] + [Leaf(from), Leaf(x)] + cs[pos + 1..];
    ReplaceLeaf(cs, pos, [Leaf(from), Leaf(x)], from, x);
  }

  /** A new pair in place of the leaf. */
  lemma PairHere(node: LayoutNode, from: U32, x: U32, dir: SplitDir, pos: nat)
    requires Sound(node) && node.Split? && Distinct(LeavesAll(node.children)) && node.dir != dir
    requires pos == LeafPosition(node.children, from) < |node.children|
    ensures var r := SplitPane(node, from, x, dir).value;
      && from in LeavesAll(node.children) && Sound(r)
      && LeavesAll(r.children) == InsertAfter(LeavesAll(node.children), from, x)
  {
    hide Sum, Renormalized, InsertAfter, Leaves, LeavesAll, Distinct;
    var cs := node.children;
    var r := SplitPane(node, from, x, dir).value;
    var p := Pair(dir, Leaf(from), x);
    LeafLeaves(from, x);
    PairSound(dir, Leaf(from), x);
    LeavesOne(p);
    assert r.children == cs[..pos] + [p] + cs[pos + 1..];
    ReplaceLeaf(cs, pos, [p], from, x);
  }

  lemma LeafSound(c: LayoutNode)
    ensures c.Leaf? ==> Sound(c)
  {}

  lemma ChildLeavesOf(s: LayoutNode, t: LayoutNode)
    ensures s.Split? ==> Leaves(s) == LeavesAll(s.children)
    ensures t.Split? ==> Leaves(t) == LeavesAll(t.children)
  {}

  lemma LeafLeaves(i: U32, j: U32)
    ensures Leaves(Leaf(i)) == [i] && LeavesAll([Leaf(i), Leaf(j)]) == [i, j]
  {
    TwoLeaves(Leaf(i), Leaf(j));
  }

  lemma {:induction false} SplitAmongKeeps(children: seq<LayoutNode>, from: U32, x: U32, dir: SplitDir)
    requires (forall c :: c in children ==> Sound(c) && c != Leaf(from)) && Distinct(LeavesAll(children))
    ensures var r := SplitAmong(children, from, x, dir);
      && (r.Some? <==> from in LeavesAll(children))
      && (r.Some? ==>
            (forall c :: c in r.value ==> Sound(c)) && LeavesAll(r.value) == InsertAfter(LeavesAll(children), from, x))
    decreases children
  {
    hide Leaves, Sound, SplitPane, InsertAfter;
    if children != [] {
      var c, rest := children[0], children[1..];
      assert c in children && forall d :: d in rest ==> d in children;
      DistinctParts(Leaves(c), LeavesAll(rest));
      InsertAfterConcat(Leaves(c), LeavesAll(rest), from, x);
      NotThatLeaf(c, from);
      if c.Split? { SplitKeeps(c, from, x, dir); }
      SplitAmongKeeps(rest, from, x, dir);
      var r := SplitAmong(children, from, x, dir);
      if r.Some? { assert r.value[1..] == if from in Leaves(c) then rest else SplitAmong(rest, from, x, dir).value; }
    }
  }

  lemma NotThatLeaf(c: LayoutNode, f: U32)
    requires c != Leaf(f)
    ensures c.Leaf? ==> f !in Leaves(c)
  {}

  // ----- closing

  /** Closing a pane removes exactly that leaf and keeps the tree sound; it is refused exactly for
      a single pane or an absent one. */
  lemma {:induction false} RemoveKeeps(node: LayoutNode, pane: U32)
    requires Sound(node) && Distinct(Leaves(node))
    ensures var r := RemovePane(node, pane);
      && (r.Some? <==> node.Split? && pane in Leaves(node))
      && (r.Some? ==> Sound(r.value) && Leaves(r.value) == WithoutFirst(Leaves(node), pane))
    decreases node
  {
    if node.Split? {
      var pos := LeafPosition(node.children, pane);
      if pos < |node.children| {
        RemoveHere(node, pane, pos);
      } else {
        RemoveAmongKeeps(node.children, pane);
      }
    }
  }

  lemma RemoveHere(node: LayoutNode, pane: U32, pos: nat)
    requires Sound(node) && Distinct(Leaves(node)) && node.Split?
    requires pos == LeafPosition(node.children, pane) < |node.children|
    ensures var r := RemovePane(node, pane);
      pane in Leaves(node) && r.Some? && Sound(r.value) && Leaves(r.value) == WithoutFirst(Leaves(node), pane)
  {
    hide Sum, Renormalized, WithoutFirst, Leaves, LeavesAll, Distinct;
    var cs := node.children;
    var a, b := cs[..pos], cs[pos + 1..];
    var r := RemovePane(node, pane).value;
    ChildLeavesOf(node, r);
    LeavesAround(cs, pos);
    LeafLeaves(pane, pane);
    NotBefore(LeavesAll(a), pane, LeavesAll(b));
    RemoveMiddle(LeavesAll(a), LeavesAll(b), pane);
    LeavesConcat(a, b);
    assert RemoveAt(cs, pos) == a + b;
    if |a + b| == 1 {
      LeavesOne(r);
      assert a + b == [r];
    } else {
      RenormalizedSums(RemoveAt(node.ratios, pos));
    }
  }

  lemma {:induction false} RemoveAmongKeeps(children: seq<LayoutNode>, pane: U32)
    requires (forall c :: c in children ==> Sound(c) && c != Leaf(pane)) && Distinct(LeavesAll(children))
    ensures var r := RemoveAmong(children, pane);
      && (r.Some? <==> pane in LeavesAll(children))
      && (r.Some? ==>
            (forall c :: c in r.value ==> Sound(c)) && LeavesAll(r.value) == WithoutFirst(LeavesAll(children), pane))
    decreases children
  {
    hide Leaves, Sound, RemovePane, WithoutFirst;
    if children != [] {
      var c, rest := children[0], children[1..];
      assert c in children && forall d :: d in rest ==> d in children;
      DistinctParts(Leaves(c), LeavesAll(rest));
      WithoutFirstConcat(Leaves(c), LeavesAll(rest), pane);
      NotThatLeaf(c, pane);
      RemoveKeeps(c, pane);
      RemoveAmongKeeps(rest, pane);
      var r := RemoveAmong(children, pane);
      if r.Some? { assert r.value[1..] == if pane in Leaves(c) then rest else RemoveAmong(rest, pane).value; }
    }
  }

  // ----- swapping

  function RenamedAll(s: seq<U32>, a: U32, b: U32): (r: seq<U32>)
    ensures |r| == |s|
  {
    seq(|s|, i requires 0 <= i < |s| => Renamed(s[i], a, b))
  }

  /** Both trees have splits at the same paths, with the same direction, ratios and arity. */
  ghost predicate SameSplits(s: LayoutNode, t: LayoutNode) {
    forall q :: (IsSplit(s, q) <==> IsSplit(t, q)) && (IsSplit(s, q) ==> SameSplit(s, t, q))
  }

  predicate SameSplit(s: LayoutNode, t: LayoutNode, q: seq<nat>)
    requires IsSplit(s, q) && IsSplit(t, q)
  {
    var m, n := NodeAt(s, q).value, NodeAt(t, q).value;
    m.dir == n.dir && m.ratios == n.ratios && |m.children| == |n.children|
  }

  /** Swapping renames leaves and nothing else. */
  lemma {:induction false} RenameKeeps(node: LayoutNode, a: U32, b: U32)
    requires Sound(node)
    ensures Sound(Rename(node, a, b)) && Leaves(Rename(node, a, b)) == RenamedAll(Leaves(node), a, b)
    ensures SameSplits(node, Rename(node, a, b))
    decreases node
  {
    if node.Split? { RenameAllKeeps(node.children, a, b); }
    forall q { RenamedAt(node, a, b, q); }
  }

  lemma {:induction false} RenamedAt(node: LayoutNode, a: U32, b: U32, q: seq<nat>)
    ensures var n := NodeAt(node, q);
      NodeAt(Rename(node, a, b), q) == if n.None? then None else Some(Rename(n.value, a, b))
    decreases q
  {
    if q != [] && node.Split? && q[0] < |node.children| {
      RenamedChild(node.children, a, b, q[0]);
      RenamedAt(node.children[q[0]], a, b, q[1..]);
    }
  }

  lemma {:induction false} RenamedChild(children: seq<LayoutNode>, a: U32, b: U32, k: nat)
    requires k < |children|
    ensures RenameAll(children, a, b)[k] == Rename(children[k], a, b)
    decreases k
  {
    hide Rename;
    if k > 0 { RenamedChild(children[1..], a, b, k - 1); }
  }

  lemma {:induction false} RenameAllKeeps(children: seq<LayoutNode>, a: U32, b: U32)
    requires forall c :: c in children ==> Sound(c)
    ensures forall c :: c in RenameAll(children, a, b) ==> Sound(c)
    ensures LeavesAll(RenameAll(children, a, b)) == RenamedAll(LeavesAll(children), a, b)
    decreases children
  {
    hide Leaves, Sound, Rename;
    if children != [] {
      RenameKeeps(children[0], a, b);
      RenameAllKeeps(children[1..], a, b);
      assert RenameAll(children, a, b)[1..] == RenameAll(children[1..], a, b);
    }
  }

  // ----- ratios and schemes

  lemma {:induction false} SetAtSound(root: LayoutNode, path: seq<nat>, r: seq<U16>)
    requires Sound(root) && IsSplit(root, path) && |r| == |NodeAt(root, path).value.children| && Sum(r) == PERMILLE
    ensures Sound(SetAt(root, path, r)) && Leaves(SetAt(root, path, r)) == Leaves(root)
    decreases path
  {
    hide Sum;
    if path != [] {
      var i := path[0];
      SetAtSound(root.children[i], path[1..], r);
      var t := SetAt(root, path, r);
      assert t.children[..i] == root.children[..i] && t.children[i + 1..] == root.children[i + 1..];
      LeavesAround(root.children, i);
      LeavesAround(t.children, i);
      forall c | c in t.children ensures Sound(c) {
        var k :| 0 <= k < |t.children| && t.children[k] == c;
        assert root.children[k] in root.children;
      }
    }
  }

  lemma {:induction false} NodeSound(root: LayoutNode, path: seq<nat>)
    requires Sound(root) && NodeAt(root, path).Some?
    ensures Sound(NodeAt(root, path).value)
    decreases path
  {
    if path != [] { NodeSound(root.children[path[0]], path[1..]); }
  }

  /** Whatever ratios a client sends, the daemon's tree stays sound. The floor is another matter: a
      weight ends at `m` or more, 20 or 1 for instance, exactly if its share of the raised weights does. */
  lemma SetRatiosKeeps(root: LayoutNode, path: seq<nat>, proposed: seq<U16>)
    requires Sound(root)
    ensures var r := SetRatios(root, path, proposed);
      && (r.Some? <==> IsSplit(root, path) && |proposed| == |NodeAt(root, path).value.children|)
      && (r.Some? ==>
        && Sound(r.value) && Leaves(r.value) == Leaves(root)
        && IsSplit(r.value, path) && NodeAt(r.value, path).value.ratios == Stored(proposed)
        && Sum(Floored(proposed)) > 0
        && forall i, m: nat :: 0 <= i < |proposed| && m > 0 ==>
             (Stored(proposed)[i] >= m <==> QuotaReaches(PERMILLE, Floored(proposed), i, m)))
  {
    hide Sum, Stored, Leaves, SetAt, QuotaReaches, Sound;
    if SetRatios(root, path, proposed).Some? {
      ManyChildren(root, path);
      StoredIsShared(proposed);
      SetAtSound(root, path, Stored(proposed));
      SetAtLocal(root, path, Stored(proposed), path);
      forall i, m: nat | 0 <= i < |proposed| && m > 0
        ensures Stored(proposed)[i] >= m <==> QuotaReaches(PERMILLE, Floored(proposed), i, m)
      {
        StoredAtLeastIff(proposed, i, m);
      }
    }
  }

  lemma ManyChildren(root: LayoutNode, path: seq<nat>)
    requires Sound(root) && IsSplit(root, path)
    ensures |NodeAt(root, path).value.children| >= 2
  {
    NodeSound(root, path);
  }

  lemma {:induction false} LeafRow(panes: seq<U32>)
    ensures LeavesAll(LeafSeq(panes)) == panes
    decreases |panes|
  {
    if panes != [] {
      assert LeafSeq(panes)[1..] == LeafSeq(panes[1..]);
      LeafRow(panes[1..]);
    }
  }

  lemma EvenSplitSound(panes: seq<U32>, dir: SplitDir)
    requires |panes| >= 2
    ensures Sound(EvenSplit(panes, dir)) && Leaves(EvenSplit(panes, dir)) == panes
  {
    hide Sum, Renormalized;
    RenormalizedSums(seq(|panes|, _ => Share(|panes|)));
    LeafRow(panes);
  }

  /** A scheme keeps exactly the panes it is given, in order. */
  lemma SchemeSound(panes: seq<U32>, scheme: Scheme)
    requires panes != []
    ensures var t := ApplyScheme(panes, scheme);
      (t.None? <==> scheme.Unknown?) && (t.Some? ==> Sound(t.value) && Leaves(t.value) == panes)
  {
    hide EvenSplit;
    if |panes| >= 2 && !scheme.Unknown? {
      EvenSplitSound(panes, Horizontal);
      EvenSplitSound(panes, Vertical);
      if |panes| > 2 {
        EvenSplitSound(panes[1..], Horizontal);
        EvenSplitSound(panes[1..], Vertical);
      }
      var t := ApplyScheme(panes, scheme).value;
      if scheme.MainVertical? || scheme.MainHorizontal? {
        HalvesSum();
        TwoLeaves(t.children[0], t.children[1]);
        assert panes == [panes[0]] + panes[1..];
      }
    }
  }

  // ----- every run

  datatype Op =
    | SplitOp(from: U32, added: U32, dir: SplitDir)
    | CloseOp(pane: U32)
    | SwapOp(a: U32, b: U32)
    | RatiosOp(path: seq<nat>, proposed: seq<U16>)
    | SchemeOp(scheme: Scheme)

  function Or(r: Option<LayoutNode>, otherwise: LayoutNode): LayoutNode {
    if r.Some? then r.value else otherwise
  }

  /** One edit; a new pane always gets an index not in use. */
  function Do(root: LayoutNode, op: Op): LayoutNode
    requires Sound(root)
  {
    match op
    case SplitOp(from, added, dir) =>
      if added in Leaves(root) then root else Or(SplitPane(root, from, added, dir), root)
    case CloseOp(pane) => Or(RemovePane(root, pane), root)
    case SwapOp(a, b) => Or(SwapPanes(root, a, b), root)
    case RatiosOp(path, proposed) => Or(SetRatios(root, path, proposed), root)
    case SchemeOp(scheme) => Or(ApplyScheme(Leaves(root), scheme), root)
  }

  lemma DistinctTail(s: seq<U32>)
    requires Distinct(s) && s != []
    ensures Distinct(s[1..]) && s[0] !in s[1..]
  {
    assert forall i :: 0 <= i < |s| - 1 ==> s[1..][i] == s[i + 1];
  }

  lemma DistinctCons(x: U32, s: seq<U32>)
    requires Distinct(s) && x !in s
    ensures Distinct([x] + s)
  {}

  lemma {:induction false} InsertAfterDistinct(s: seq<U32>, from: U32, x: U32)
    requires Distinct(s) && x !in s
    ensures Distinct(InsertAfter(s, from, x)) && forall y :: y in InsertAfter(s, from, x) ==> y == x || y in s
  {
    hide Distinct;
    if s != [] {
      var tail := s[1..];
      DistinctTail(s);
      if s[0] == from {
        DistinctCons(x, tail);
        DistinctCons(from, [x] + tail);
        assert [from, x] + tail == [from] + ([x] + tail);
      } else {
        InsertAfterDistinct(tail, from, x);
        DistinctCons(s[0], InsertAfter(tail, from, x));
      }
    }
  }

  lemma {:induction false} WithoutFirstDistinct(s: seq<U32>, x: U32)
    requires Distinct(s)
    ensures Distinct(WithoutFirst(s, x)) && forall y :: y in WithoutFirst(s, x) ==> y in s
  {
    hide Distinct;
    if s != [] {
      DistinctTail(s);
      WithoutFirstDistinct(s[1..], x);
      if s[0] != x { DistinctCons(s[0], WithoutFirst(s[1..], x)); }
    }
  }

  /** What an edit does to the panes, and a ratio update to the ratios. */
  predicate DoneTo(root: LayoutNode, op: Op, t: LayoutNode) {
    var was, now := Leaves(root), Leaves(t);
    match op
    case SplitOp(from, added, _) => now == if from in was && added !in was then InsertAfter(was, from, added) else was
    case CloseOp(pane) => now == if pane in was && root.Split? then WithoutFirst(was, pane) else was
    case SwapOp(a, b) => now == if a in was && b in was then RenamedAll(was, a, b) else was
    case RatiosOp(path, proposed) =>
      && now == was
      && if IsSplit(root, path) && |proposed| == |NodeAt(root, path).value.children|
         then IsSplit(t, path) && NodeAt(t, path).value.ratios == Stored(proposed) else t == root
    case SchemeOp(scheme) => now == was && (scheme.Unknown? ==> t == root)
  }

  /** Every edit keeps the tree sound and its panes distinct, and changes the panes as it should. */
  lemma DoKeeps(root: LayoutNode, op: Op)
    requires Sound(root) && Distinct(Leaves(root))
    ensures Sound(Do(root, op)) && Distinct(Leaves(Do(root, op)))
    ensures DoneTo(root, op, Do(root, op))
  {
    hide Sound, Leaves, SplitPane, RemovePane, SetRatios, ApplyScheme;
    match op
    case SplitOp(from, added, dir) =>
      SplitKeeps(root, from, added, dir);
      if added !in Leaves(root) { InsertAfterDistinct(Leaves(root), from, added); }
    case CloseOp(pane) =>
      RemoveKeeps(root, pane);
      WithoutFirstDistinct(Leaves(root), pane);
    case SwapOp(a, b) =>
      RenameKeeps(root, a, b);
    case RatiosOp(path, proposed) =>
      SetRatiosKeeps(root, path, proposed);
    case SchemeOp(scheme) =>
      LeavesNotEmpty(root);
      SchemeSound(Leaves(root), scheme);
  }

  function RunOps(root: LayoutNode, ops: seq<Op>): (r: LayoutNode)
    requires Sound(root) && Distinct(Leaves(root))
    ensures Sound(r) && Distinct(Leaves(r))
    decreases |ops|
  {
    if ops == [] then root
    else
      DoKeeps(root, ops[0]);
      RunOps(Do(root, ops[0]), ops[1..])
  }

  lemma {:induction false} SoundArity(node: LayoutNode)
    requires Sound(node) && |Leaves(node)| <= U16_MAX
    ensures Arity(node) && Positive(node)
    decreases node
  {
    if node.Split? {
      ChildrenWithinLeaves(node.children);
      forall c | c in node.children ensures Arity(c) && Positive(c) {
        var i :| 0 <= i < |node.children| && node.children[i] == c;
        LeavesAround(node.children, i);
        SoundArity(c);
      }
    }
  }

  /** What client edits ask of a tree, every tree of the daemon has. */
  lemma {:induction false} SoundIsBalanced(node: LayoutNode)
    requires Sound(node)
    ensures Balanced(node)
  {
    hide Sum;
    if node.Split? {
      forall c | c in node.children ensures Balanced(c) { SoundIsBalanced(c); }
    }
  }

  lemma {:induction false} ChildrenWithinLeaves(children: seq<LayoutNode>)
    requires forall c :: c in children ==> Sound(c)
    ensures |children| <= |LeavesAll(children)|
  {
    hide Leaves, Sound;
    if children != [] {
      LeavesNotEmpty(children[0]);
      ChildrenWithinLeaves(children[1..]);
    }
  }

  /** From a single pane on, whatever is split, closed, swapped, resized or rearranged, the layout
      of up to 65535 panes tiles every area exactly in which its gutters fit and no slot is under
      the minimum, with one rectangle per pane. */
  lemma EveryLayoutTiles(first: U32, ops: seq<Op>, area: Area, cfg: Config)
    requires |Leaves(RunOps(Leaf(first), ops))| <= U16_MAX && InRange(area)
    ensures var t := RunOps(Leaf(first), ops);
      && Arity(t) && Positive(t) && Balanced(t)
      && (Fits(t, area, cfg) ==> TilesExactly(t, area, cfg))
      && Panes(Resolve(t, area, cfg)) == Leaves(t) && Distinct(Leaves(t))
  {
    LeafLeaves(first, first);
    LeafSound(Leaf(first));
    hide RunOps, Leaves, Resolve, Dividers, Fits, Positive, Arity, PaneHits, StripHits, Contains, Sound, Balanced;
    var t := RunOps(Leaf(first), ops);
    SoundArity(t);
    SoundIsBalanced(t);
    LeafOrder(t, area, cfg);
    if Fits(t, area, cfg) {
      forall x, y
        ensures PaneHits(Resolve(t, area, cfg), x, y) + StripHits(Dividers(t, [], area, cfg), x, y)
             == Count(Contains(area, x, y))
      {
        ExactPartition(t, [], area, cfg, x, y);
      }
    }
  }
}
