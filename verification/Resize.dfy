/** Keyboard resize and pointer drag: rewriting the ratios of one split, and the
    daemon storing what a client proposes. */
module Resize {
  import opened Widths
  import opened Options
  import opened Sequences
  import opened Apportionment
  import opened Layout
  import opened Focus

  const MIN_RATIO := 20
  const PERMILLE := 1000

  // ----- addressing a node

  /** The node reached by descending `path` from `root`. */
  function NodeAt(root: LayoutNode, path: seq<nat>): Option<LayoutNode>
    decreases path
  {
    if path == [] then Some(root)
    else if root.Leaf? || path[0] >= |root.children| then None
    else NodeAt(root.children[path[0]], path[1..])
  }

  /** `root` with the ratios of the split at `path` replaced. */
  function SetAt(root: LayoutNode, path: seq<nat>, ratios: seq<U16>): LayoutNode
    requires NodeAt(root, path).Some? && NodeAt(root, path).value.Split?
    decreases path
  {
    if path == [] then root.(ratios := ratios)
    else root.(children := root.children[path[0] := SetAt(root.children[path[0]], path[1..], ratios)])
  }

  predicate IsSplit(root: LayoutNode, path: seq<nat>) {
    NodeAt(root, path).Some? && NodeAt(root, path).value.Split?
  }

  // ----- the innermost split on an axis

  /** The direction and child index at each split on the way to the first leaf `focused`. */
  function Descent(node: LayoutNode, focused: U32): Option<seq<(SplitDir, nat)>>
    decreases node
  {
    match node
    case Leaf(i) => if i == focused then Some([]) else None
    case Split(dir, _, children) => DescentAmong(dir, children, 0, focused)
  }

  function DescentAmong(dir: SplitDir, children: seq<LayoutNode>, at: nat, focused: U32): Option<seq<(SplitDir, nat)>>
    decreases children
  {
    if children == [] then None
    else match Descent(children[0], focused)
      case Some(rest) => Some([(dir, at)] + rest)
      case None => DescentAmong(dir, children[1..], at + 1, focused)
  }

  function PathOf(descent: seq<(SplitDir, nat)>): (p: seq<nat>)
    ensures |p| == |descent|
  {
    seq(|descent|, k requires 0 <= k < |descent| => descent[k].1)
  }

  /** `rposition`: the last step whose direction is `axis`. */
  function LastOn(descent: seq<(SplitDir, nat)>, axis: SplitDir): (k: Option<nat>)
    ensures k.Some? ==> k.value < |descent| && descent[k.value].0 == axis
    ensures forall j :: (if k.Some? then k.value + 1 else 0) <= j < |descent| ==> descent[j].0 != axis
  {
    if descent == [] then None
    else if descent[|descent| - 1].0 == axis then Some(|descent| - 1)
    else LastOn(descent[..|descent| - 1], axis)
  }

  /** `nearest_split_on_axis`: path of the split, and which child leads to `focused`. */
  function NearestSplit(root: LayoutNode, focused: U32, axis: SplitDir): Option<(seq<nat>, nat)> {
    match Descent(root, focused)
    case None => None
    case Some(descent) =>
      match LastOn(descent, axis)
      case None => None
      case Some(k) => Some((PathOf(descent)[..k], descent[k].1))
  }

  /** `full` leads from `root` to the leaf `focused`. */
  predicate LeadsTo(root: LayoutNode, full: seq<nat>, focused: U32) {
    NodeAt(root, full) == Some(Leaf(focused))
  }

  lemma {:induction false} DescentSound(node: LayoutNode, focused: U32)
    ensures var d := Descent(node, focused);
      d.Some? ==>
        && LeadsTo(node, PathOf(d.value), focused)
        && forall k :: 0 <= k < |d.value| ==> SplitOn(node, PathOf(d.value)[..k], d.value[k].0)
    ensures Descent(node, focused).None? <==> focused !in Leaves(node)
    decreases node
  {
    if node.Split? {
      DescentAmongSound(node, node.dir, [], node.children, focused);
    }
  }

  predicate SplitOn(node: LayoutNode, path: seq<nat>, dir: SplitDir) {
    IsSplit(node, path) && NodeAt(node, path).value.dir == dir
  }

  lemma {:induction false} DescentAmongSound(node: LayoutNode, dir: SplitDir, before: seq<LayoutNode>,
                                             children: seq<LayoutNode>, focused: U32)
    requires node.Split? && node.dir == dir && node.children == before + children
    ensures var d := DescentAmong(dir, children, |before|, focused);
      d.Some? ==>
        && LeadsTo(node, PathOf(d.value), focused)
        && forall k :: 0 <= k < |d.value| ==> SplitOn(node, PathOf(d.value)[..k], d.value[k].0)
    ensures DescentAmong(dir, children, |before|, focused).None? <==> focused !in LeavesAll(children)
    decreases children
  {
    if children != [] {
      DescentSound(children[0], focused);
      match Descent(children[0], focused)
      case None =>
        assert before + children == (before + [children[0]]) + children[1..];
        DescentAmongSound(node, dir, before + [children[0]], children[1..], focused);
      case Some(rest) =>
        var d := [(dir, |before|)] + rest;
        assert PathOf(d)[1..] == PathOf(rest);
        assert node.children[|before|] == children[0];
        forall k | 0 <= k < |d| ensures SplitOn(node, PathOf(d)[..k], d[k].0) {
          if k > 0 {
            assert PathOf(d)[..k][1..] == PathOf(rest)[..k - 1];
            assert SplitOn(children[0], PathOf(rest)[..k - 1], rest[k - 1].0);
          }
        }
    }
  }

  lemma {:induction false} LeafReached(root: LayoutNode, full: seq<nat>, f: U32)
    requires LeadsTo(root, full, f)
    ensures f in Leaves(root)
    decreases full
  {
    if full != [] {
      LeafReached(root.children[full[0]], full[1..], f);
      ChildLeaves(root.children, full[0], f);
    }
  }

  lemma {:induction false} ChildLeaves(children: seq<LayoutNode>, i: nat, f: U32)
    requires i < |children| && f in Leaves(children[i])
    ensures f in LeavesAll(children)
  {
    if i > 0 { ChildLeaves(children[1..], i - 1, f); }
  }

  lemma DistinctParts(a: seq<U32>, b: seq<U32>)
    requires Distinct(a + b)
    ensures Distinct(a) && Distinct(b) && forall f :: f in a ==> f !in b
  {
    forall f | f in a ensures f !in b {
      var i :| 0 <= i < |a| && a[i] == f;
      forall j | 0 <= j < |b| ensures b[j] != f {
        assert (a + b)[i] == f && (a + b)[|a| + j] == b[j];
      }
    }
    assert forall p :: 0 <= p < |b| ==> b[p] == (a + b)[|a| + p];
    assert forall p :: 0 <= p < |a| ==> a[p] == (a + b)[p];
  }

  lemma {:induction false} DistinctChildren(children: seq<LayoutNode>, i: nat, j: nat)
    requires Distinct(LeavesAll(children)) && i < |children| && j < |children|
    ensures Distinct(Leaves(children[i]))
    ensures forall f :: i != j && f in Leaves(children[i]) ==> f !in Leaves(children[j])
  {
    hide Leaves;
    DistinctParts(Leaves(children[0]), LeavesAll(children[1..]));
    if i > 0 && j > 0 {
      DistinctChildren(children[1..], i - 1, j - 1);
    } else if i > 0 {
      DistinctChildren(children[1..], i - 1, i - 1);
      forall f | f in Leaves(children[i]) ensures f !in Leaves(children[0]) { ChildLeaves(children[1..], i - 1, f); }
    } else if j > 0 {
      forall f | f in Leaves(children[j]) ensures f !in Leaves(children[0]) { ChildLeaves(children[1..], j - 1, f); }
    }
  }

  /** With distinct pane indices only one path leads to a pane. */
  lemma {:induction false} PathUnique(root: LayoutNode, p: seq<nat>, q: seq<nat>, f: U32)
    requires Distinct(Leaves(root)) && LeadsTo(root, p, f) && LeadsTo(root, q, f)
    ensures p == q
    decreases p
  {
    if root.Split? {
      LeafReached(root.children[p[0]], p[1..], f);
      LeafReached(root.children[q[0]], q[1..], f);
      DistinctChildren(root.children, p[0], q[0]);
      PathUnique(root.children[p[0]], p[1..], q[1..], f);
      assert p == [p[0]] + p[1..] && q == [q[0]] + q[1..];
    }
  }

  /** `nearest_split_on_axis` finds the innermost ancestor on the axis: it lies on the
      one path to the pane, splits on that axis, and no deeper split on the path does. */
  lemma InnermostAncestor(root: LayoutNode, focused: U32, axis: SplitDir, full: seq<nat>)
    requires Distinct(Leaves(root)) && LeadsTo(root, full, focused)
    ensures var found := NearestSplit(root, focused, axis);
      if found.None? then forall k :: 0 <= k < |full| ==> !SplitOn(root, full[..k], axis)
      else
        var path, child := found.value.0, found.value.1;
        && |path| < |full| && path == full[..|path|] && child == full[|path|]
        && SplitOn(root, path, axis)
        && forall k :: |path| < k < |full| ==> !SplitOn(root, full[..k], axis)
  {
    hide Leaves, Descent;
    DescentSound(root, focused);
    LeafReached(root, full, focused);
    var d := Descent(root, focused).value;
    PathUnique(root, PathOf(d), full, focused);
    var last := LastOn(d, axis);
    forall k | (if last.Some? then last.value + 1 else 0) <= k < |full| ensures !SplitOn(root, full[..k], axis) {
      assert SplitOn(root, PathOf(d)[..k], d[k].0);
    }
  }

  // ----- moving a boundary

  /** `as u16`. */
  function Truncate(x: int): U16 {
    x % 0x1_0000
  }

  /** What `shift_pair` leaves in the slice. */
  function Shifted(ratios: seq<U16>, a: nat, b: nat, delta: int): (r: seq<U16>)
    requires a < |ratios| && b < |ratios|
    ensures |r| == |ratios|
  {
    var total := ratios[a] as int + ratios[b];
    if total < 2 * MIN_RATIO then ratios
    else
      var na := Clamp(ratios[a] + delta, MIN_RATIO, total - MIN_RATIO);
      ratios[a := Truncate(na)][b := Truncate(total - na)]
  }

  function Grows(dir: FocusDir): bool {
    dir.Right? || dir.Down?
  }

  function Partner(child: nat, n: nat): nat
    requires child < n && n >= 2
  {
    if child + 1 < n then child + 1 else child - 1
  }

  /** `resize_split`: the split to change and its new ratios. */
  function ResizeSplit(root: LayoutNode, focused: U32, dir: FocusDir, step: U16): Option<(seq<nat>, seq<U16>)>
    requires Arity(root)
  {
    var found := NearestSplit(root, focused, AxisOf(dir));
    if found.None? || !IsSplit(root, found.value.0) then None
    else
      var (path, child) := found.value;
      var node := NodeAt(root, path).value;
      ArityAt(root, path);
      if |node.children| < 2 || child >= |node.children| then None
      else
        var delta := if Grows(dir) then step as int else -(step as int);
        var r := Shifted(node.ratios, child, Partner(child, |node.children|), delta);
        if r == node.ratios then None else Some((path, r))
  }

  lemma {:induction false} ArityAt(root: LayoutNode, path: seq<nat>)
    requires Arity(root) && NodeAt(root, path).Some?
    ensures Arity(NodeAt(root, path).value)
    decreases path
  {
    if path != [] { ArityAt(root.children[path[0]], path[1..]); }
  }

  /** The pointer's offset into the pair, clamped to it. */
  function DragOffset(div: Divider, pointer: U16): nat {
    Clamp(pointer - div.pairStart, 0, Max(div.pairLen, 1))
  }

  lemma ShareBound(off: nat, pair: nat, len: nat)
    requires len > 0
    ensures 0 <= off * pair
    ensures 0 <= (off * pair + len / 2) / len <= off * pair + len / 2
  {
    MulMonotone(off, 0, pair);
    QuotientSmaller(off * pair + len / 2, len);
  }

  /** The first child's share of `pair` at the pointer, rounded to the nearest. */
  function DragShare(div: Divider, pointer: U16, pair: nat): nat {
    var len := Max(div.pairLen, 1);
    ShareBound(DragOffset(div, pointer), pair, len);
    (DragOffset(div, pointer) * pair + len / 2) / len
  }

  /** The ratios a drag asks for. */
  function Dragged(ratios: seq<U16>, div: Divider, pointer: U16): (r: seq<U16>)
    requires div.before + 1 < |ratios|
    ensures |r| == |ratios|
  {
    var a := div.before;
    var pair := ratios[a] as int + ratios[a + 1];
    var na := Clamp(DragShare(div, pointer, pair), MIN_RATIO, pair - MIN_RATIO);
    ratios[a := Truncate(na)][a + 1 := Truncate(pair - na)]
  }

  /** `ratios_for_drag`. */
  function RatiosForDrag(root: LayoutNode, div: Divider, pointer: U16): Option<seq<U16>>
    requires Arity(root)
  {
    if !IsSplit(root, div.path) then None
    else
      var node := NodeAt(root, div.path).value;
      ArityAt(root, div.path);
      if node.dir != div.dir || div.before + 1 >= |node.children| then None
      else if node.ratios[div.before] as int + node.ratios[div.before + 1] < 2 * MIN_RATIO then None
      else
        var r := Dragged(node.ratios, div, pointer);
        if r == node.ratios then None else Some(r)
  }

  // ----- the daemon's side

  /** `normalize` in the daemon: rescale to exactly 1000. */
  function Normalize(ratios: seq<U16>): (r: seq<nat>)
    ensures |r| == |ratios|
  {
    var n := |ratios|;
    if n == 0 then []
    else if Sum(ratios) == 0 then
      seq(n, i => 1000 / n + (if i < 1000 - (1000 / n) * n then 1 else 0))
    else Alloc(PERMILLE, ratios)
  }

  function Floored(ratios: seq<U16>): (r: seq<U16>)
    ensures |r| == |ratios|
  {
    seq(|ratios|, i requires 0 <= i < |ratios| => Max(ratios[i], MIN_RATIO))
  }

  lemma {:induction false} NormalizeFits(ratios: seq<U16>)
    ensures forall i :: 0 <= i < |ratios| ==> Normalize(ratios)[i] <= U16_MAX
  {
    hide Alloc, Sum;
    if Sum(ratios) > 0 { RoundedFit(PERMILLE, ratios); }
  }

  /** What the daemon stores for a vector a client sends. */
  function Stored(proposed: seq<U16>): (r: seq<U16>)
    ensures |r| == |proposed|
  {
    NormalizeFits(Floored(proposed));
    Normalize(Floored(proposed))
  }

  /** `set_ratios` in the daemon; `None` when it refuses and changes nothing. */
  function SetRatios(root: LayoutNode, path: seq<nat>, proposed: seq<U16>): Option<LayoutNode> {
    if !IsSplit(root, path) || |proposed| != |NodeAt(root, path).value.children| then None
    else Some(SetAt(root, path, Stored(proposed)))
  }
}
