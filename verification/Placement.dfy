/** Where the daemon's edits change a layout, and what stands there afterwards. */
module PanePlacement {
  import opened Widths
  import opened Options
  import opened Sequences
  import opened Apportionment
  import opened Layout
  import opened Resize
  import opened StoredRatios
  import opened DaemonLayout

  /** Both absent, the same leaf, or splits alike in direction, ratios and arity. */
  predicate SameHead(a: Option<LayoutNode>, b: Option<LayoutNode>) {
    match a
    case None => b.None?
    case Some(Leaf(_)) => b == a
    case Some(Split(dir, ratios, children)) =>
      b.Some? && b.value.Split? && b.value.dir == dir && b.value.ratios == ratios && |b.value.children| == |children|
  }

  /** The two trees are alike at every path that does not go through `p`. */
  ghost predicate AlikeOutside(s: LayoutNode, t: LayoutNode, p: seq<nat>) {
    forall q: seq<nat> :: !(p <= q) ==> SameHead(NodeAt(s, q), NodeAt(t, q))
  }

  lemma AlikeEverywhereElse(s: LayoutNode, t: LayoutNode)
    ensures AlikeOutside(s, t, [])
  {}

  lemma {:induction false} AlikeSelf(s: LayoutNode, q: seq<nat>)
    ensures SameHead(NodeAt(s, q), NodeAt(s, q))
  {}

  /** A change within child `i`, seen from its parent. */
  lemma AlikeUp(s: LayoutNode, i: nat, c: LayoutNode, p: seq<nat>)
    requires s.Split? && i < |s.children| && AlikeOutside(s.children[i], c, p)
    ensures AlikeOutside(s, s.(children := s.children[i := c]), [i] + p)
    ensures NodeAt(s, [i] + p) == NodeAt(s.children[i], p)
    ensures NodeAt(s.(children := s.children[i := c]), [i] + p) == NodeAt(c, p)
  {
    var t := s.(children := s.children[i := c]);
    assert ([i] + p)[1..] == p;
    forall q: seq<nat> | !([i] + p <= q) ensures SameHead(NodeAt(s, q), NodeAt(t, q)) {
      AlikeSelf(s, q);
      if q != [] && q[0] == i {
        assert q == [i] + q[1..];
        assert !(p <= q[1..]);
        assert SameHead(NodeAt(s.children[i], q[1..]), NodeAt(c, q[1..]));
      }
    }
  }

  // ----- splitting

  /** `r` is `node` with a new pane `x` split off pane `from` in direction `dir`, next to it. Where
      `from` is a child of a split in that direction, the two share its weight as siblings there;
      otherwise its leaf gives way to a split of the two, half each. Nothing else changes. */
  ghost predicate SplitAt(node: LayoutNode, r: LayoutNode, from: U32, x: U32, dir: SplitDir, p: seq<nat>, k: nat) {
    && AlikeOutside(node, r, p)
    && NodeAt(node, p).Some? && NodeAt(r, p).Some?
    && var was, now := NodeAt(node, p).value, NodeAt(r, p).value;
    match was
    case Leaf(i) =>
      && i == from && now == Split(dir, [500, 500], [Leaf(from), Leaf(x)])
      && (p != [] ==> IsSplit(node, p[..|p| - 1]) && NodeAt(node, p[..|p| - 1]).value.dir != dir)
    case Split(d, ratios, children) =>
      && d == dir && k < |children| == |ratios| && children[k] == Leaf(from)
      && now.Split? && now.dir == dir
      && now.children == children[..k + 1] + [Leaf(x)] + children[k + 1..]
      && |now.ratios| == |ratios| + 1
      && now.ratios[k] as int + now.ratios[k + 1] == ratios[k] && now.ratios[k + 1] == ratios[k] / 2
      && now.ratios[..k] == ratios[..k] && now.ratios[k + 2..] == ratios[k + 1..]
  }

  lemma {:induction false} SplitAmongIs(children: seq<LayoutNode>, from: U32, x: U32, dir: SplitDir) returns (i: nat)
    requires (forall c :: c in children ==> Sound(c)) && SplitAmong(children, from, x, dir).Some?
    ensures i < |children| && children[i].Split? && SplitPane(children[i], from, x, dir).Some?
    ensures SplitAmong(children, from, x, dir).value == children[i := SplitPane(children[i], from, x, dir).value]
    decreases children
  {
    hide SplitPane, Sound;
    if children[0].Split? && SplitPane(children[0], from, x, dir).Some? {
      i := 0;
    } else {
      i := SplitAmongIs(children[1..], from, x, dir);
      i := i + 1;
    }
  }

  /** A split does exactly that. */
  lemma {:induction false} SplitPlace(node: LayoutNode, from: U32, x: U32, dir: SplitDir) returns (p: seq<nat>, k: nat)
    requires Sound(node) && SplitPane(node, from, x, dir).Some?
    ensures SplitAt(node, SplitPane(node, from, x, dir).value, from, x, dir, p, k)
    decreases node
  {
    hide Sum;
    var r := SplitPane(node, from, x, dir).value;
    p, k := [], 0;
    if node.Leaf? {
      AlikeEverywhereElse(node, r);
    } else {
      var pos := LeafPosition(node.children, from);
      if pos < |node.children| && node.dir == dir {
        AlikeEverywhereElse(node, r);
        k := pos;
        SharedWeight(node, from, x, pos);
      } else if pos < |node.children| {
        PairedLeaf(node, from, x, dir, pos);
        p := [pos];
      } else {
        var i := SplitAmongIs(node.children, from, x, dir);
        var q;
        q, k := SplitPlace(node.children[i], from, x, dir);
        p := [i] + q;
        SplitWithin(node, i, SplitPane(node.children[i], from, x, dir).value, from, x, dir, q, k);
      }
    }
  }

  /** The leaf's weight is shared with a new sibling. */
  lemma SharedWeight(node: LayoutNode, from: U32, x: U32, pos: nat)
    requires Sound(node) && node.Split? && pos == LeafPosition(node.children, from) < |node.children|
    ensures SplitPane(node, from, x, node.dir).Some?
    ensures SplitAt(node, SplitPane(node, from, x, node.dir).value, from, x, node.dir, [], pos)
  {
    hide Sum, Renormalized, Sound;
    SoundSplit(node);
    var ratios, half := node.ratios, node.ratios[pos] / 2;
    var now := Halved(ratios, pos);
    assert now == InsertAt(ratios[pos := ratios[pos] - half], pos + 1, half);
    HalvedSum(ratios, pos);
    RenormalizedSame(now);
    AlikeEverywhereElse(node, SplitPane(node, from, x, node.dir).value);
    assert now[..pos] == ratios[..pos] && now[pos + 2..] == ratios[pos + 1..];
  }

  /** The ratios of a sound split. */
  lemma SoundSplit(node: LayoutNode)
    requires Sound(node) && node.Split?
    ensures |node.ratios| == |node.children| >= 2 && Sum(node.ratios) == PERMILLE
  {}

  /** The leaf gives way to a pair. */
  lemma PairedLeaf(node: LayoutNode, from: U32, x: U32, dir: SplitDir, pos: nat)
    requires Sound(node) && node.Split? && node.dir != dir
    requires pos == LeafPosition(node.children, from) < |node.children|
    ensures SplitPane(node, from, x, dir).Some?
    ensures SplitAt(node, SplitPane(node, from, x, dir).value, from, x, dir, [pos], 0)
  {
    hide Sound;
    SoundSplit(node);
    var c := Pair(dir, node.children[pos], x);
    AlikeEverywhereElse(node.children[pos], c);
    AlikeUp(node, pos, c, []);
    assert [pos] + [] == [pos] && [pos][..0] == [];
  }

  /** A split deeper down, seen from the root. */
  lemma SplitWithin(node: LayoutNode, i: nat, c: LayoutNode, from: U32, x: U32, dir: SplitDir, q: seq<nat>, k: nat)
    requires node.Split? && i < |node.children| && node.children[i].Split?
    requires SplitAt(node.children[i], c, from, x, dir, q, k)
    ensures SplitAt(node, node.(children := node.children[i := c]), from, x, dir, [i] + q, k)
  {
    hide AlikeOutside;
    AlikeUp(node, i, c, q);
    var p := [i] + q;
    if q != [] {
      assert p[..|p| - 1] == [i] + q[..|q| - 1];
      assert p[..|p| - 1][1..] == q[..|q| - 1];
    }
  }

  // ----- closing

  /** `r` is `node` without the leaf `pane`, child `k` of the split at `p`. Of two children the other
      takes the split's place; of more, the rest stay in order with the rest of the weights, shared out
      anew. Nothing else changes. */
  ghost predicate RemovedAt(node: LayoutNode, r: LayoutNode, pane: U32, p: seq<nat>, k: nat) {
    && AlikeOutside(node, r, p)
    && IsSplit(node, p) && NodeAt(r, p).Some?
    && var was, now := NodeAt(node, p).value, NodeAt(r, p).value;
    && k < |was.children| == |was.ratios| && was.children[k] == Leaf(pane)
    && if |was.children| == 2 then now == was.children[1 - k]
       else
         && now.Split? && now.dir == was.dir && now.children == was.children[..k] + was.children[k + 1..]
         && SharedAnew(was.ratios[..k] + was.ratios[k + 1..], now.ratios)
  }

  /** 1000 in proportion to `ws`, by largest remainder; evenly if there is no weight at all. */
  ghost predicate SharedAnew(ws: seq<nat>, now: seq<nat>) {
    if Sum(ws) > 0 then LargestRemainder(PERMILLE, ws, now) else |now| == |ws| && Even(now)
  }

  /** 1000 shared evenly, the odd ones at the front. */
  predicate Even(ws: seq<nat>) {
    Sum(ws) == PERMILLE && forall i, j :: 0 <= i < j < |ws| ==> ws[j] <= ws[i] <= ws[j] + 1
  }

  lemma RenormalizedShares(ws: seq<U16>)
    requires ws != []
    ensures SharedAnew(ws, Renormalized(ws))
  {
    hide Sum, Alloc, LargestRemainder;
    if Sum(ws) > 0 {
      AllocFollowsRule(PERMILLE, ws);
    } else {
      NormalizeSums(ws);
    }
  }

  lemma {:induction false} RemoveAmongIs(children: seq<LayoutNode>, pane: U32) returns (i: nat)
    requires (forall c :: c in children ==> Sound(c)) && RemoveAmong(children, pane).Some?
    ensures i < |children| && RemovePane(children[i], pane).Some?
    ensures RemoveAmong(children, pane).value == children[i := RemovePane(children[i], pane).value]
    decreases children
  {
    hide RemovePane, Sound;
    if RemovePane(children[0], pane).Some? {
      i := 0;
    } else {
      i := RemoveAmongIs(children[1..], pane);
      i := i + 1;
    }
  }

  /** Closing a pane does exactly that. */
  lemma {:induction false} RemovePlace(node: LayoutNode, pane: U32) returns (p: seq<nat>, k: nat)
    requires Sound(node) && RemovePane(node, pane).Some?
    ensures RemovedAt(node, RemovePane(node, pane).value, pane, p, k)
    decreases node
  {
    hide Sum;
    p, k := [], LeafPosition(node.children, pane);
    if k < |node.children| {
      RemovedHere(node, pane, k);
    } else {
      var i := RemoveAmongIs(node.children, pane);
      var q;
      q, k := RemovePlace(node.children[i], pane);
      p := [i] + q;
      RemovedWithin(node, i, RemovePane(node.children[i], pane).value, pane, q, k);
    }
  }

  lemma RemovedHere(node: LayoutNode, pane: U32, k: nat)
    requires Sound(node) && node.Split? && k == LeafPosition(node.children, pane) < |node.children|
    ensures RemovePane(node, pane).Some? && RemovedAt(node, RemovePane(node, pane).value, pane, [], k)
  {
    hide Sum, Renormalized, Sound, SharedAnew;
    SoundSplit(node);
    AlikeEverywhereElse(node, RemovePane(node, pane).value);
    RenormalizedShares(RemoveAt(node.ratios, k));
  }

  lemma RemovedWithin(node: LayoutNode, i: nat, c: LayoutNode, pane: U32, q: seq<nat>, k: nat)
    requires node.Split? && i < |node.children| && RemovedAt(node.children[i], c, pane, q, k)
    ensures RemovedAt(node, node.(children := node.children[i := c]), pane, [i] + q, k)
  {
    hide AlikeOutside, SharedAnew;
    AlikeUp(node, i, c, q);
  }

  // ----- schemes and swaps

  /** All panes side by side in direction `dir`, in order and with even weights. */
  predicate EvenRow(t: LayoutNode, panes: seq<U32>, dir: SplitDir) {
    && t.Split? && t.dir == dir && |t.ratios| == |t.children| == |panes| && Even(t.ratios)
    && forall i :: 0 <= i < |panes| ==> t.children[i] == Leaf(panes[i])
  }

  /** The first pane takes half in direction `outer`, and the others stack evenly in `inner`. */
  predicate MainAndStack(t: LayoutNode, panes: seq<U32>, outer: SplitDir, inner: SplitDir) {
    && |panes| >= 2 && t.Split? && t.dir == outer && t.ratios == [500, 500]
    && |t.children| == 2 && t.children[0] == Leaf(panes[0])
    && if |panes| == 2 then t.children[1] == Leaf(panes[1]) else EvenRow(t.children[1], panes[1..], inner)
  }

  lemma EvenSplitIs(panes: seq<U32>, dir: SplitDir)
    requires |panes| >= 2
    ensures EvenRow(EvenSplit(panes, dir), panes, dir)
  {
    hide Sum, Alloc;
    var n := |panes|;
    var ws: seq<U16> := seq(n, _ => Share(n));
    NormalizeSums(ws);
    forall i, j | 0 <= i < j < n ensures Normalize(ws)[j] <= Normalize(ws)[i] <= Normalize(ws)[j] + 1 {
      if Sum(ws) > 0 { Monotone(PERMILLE, ws, i, j); }
    }
  }

  /** What each scheme makes of two panes or more. */
  lemma SchemeIs(panes: seq<U32>, scheme: Scheme)
    requires |panes| >= 2
    ensures var t := ApplyScheme(panes, scheme);
      match scheme
      case EvenHorizontal => t.Some? && EvenRow(t.value, panes, Horizontal)
      case EvenVertical => t.Some? && EvenRow(t.value, panes, Vertical)
      case MainVertical => t.Some? && MainAndStack(t.value, panes, Horizontal, Vertical)
      case MainHorizontal => t.Some? && MainAndStack(t.value, panes, Vertical, Horizontal)
      case Unknown => t.None?
  {
    hide EvenSplit, EvenRow;
    EvenSplitIs(panes, Horizontal);
    EvenSplitIs(panes, Vertical);
    if |panes| > 2 {
      EvenSplitIs(panes[1..], Horizontal);
      EvenSplitIs(panes[1..], Vertical);
    }
  }

  /** Two different panes of the tree change places, and only those; the splits stay as they are. */
  lemma SwapIs(root: LayoutNode, a: U32, b: U32)
    requires Sound(root)
    ensures var r, was := SwapPanes(root, a, b), Leaves(root);
      && (r.Some? <==> a != b && a in was && b in was)
      && (r.Some? ==>
            && SameSplits(root, r.value) && |Leaves(r.value)| == |was|
            && forall i :: 0 <= i < |was| ==>
                 Leaves(r.value)[i] == if was[i] == a then b else if was[i] == b then a else was[i])
  {
    hide Sound, SameSplits, Leaves;
    RenameKeeps(root, a, b);
  }
}
