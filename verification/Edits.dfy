/** Runs of client edits against the daemon's tree: what every edit keeps, what it
    touches, and what undoes it. */
module Edits {
  import opened Widths
  import opened Options
  import opened Sequences
  import opened Apportionment
  import opened Layout
  import opened Focus
  import opened Resize
  import opened StoredRatios

  /** Every split sums to 1000, as the daemon keeps it. */
  predicate Balanced(node: LayoutNode) {
    node.Split? ==>
      && Sum(node.ratios) == PERMILLE
      && forall c :: c in node.children ==> Balanced(c)
  }

  /** Every split sums to 1000 and no ratio is under the floor. */
  predicate Permille(node: LayoutNode) {
    node.Split? ==>
      && PermilleRatios(node.ratios)
      && forall c :: c in node.children ==> Permille(c)
  }

  /** The two trees differ in ratios at most. */
  predicate SameShape(s: LayoutNode, t: LayoutNode) {
    match s
    case Leaf(_) => s == t
    case Split(dir, ratios, children) =>
      && t.Split? && t.dir == dir && |t.ratios| == |ratios| && |t.children| == |children|
      && forall i :: 0 <= i < |children| ==> SameShape(children[i], t.children[i])
  }

  /** Only the adjacent pair `a`, `a + 1` changed, and its combined weight did not. */
  predicate PairMoved(was: seq<nat>, now: seq<nat>, a: nat) {
    && |now| == |was| && a + 1 < |was|
    && now[a] + now[a + 1] == was[a] + was[a + 1]
    && forall i :: 0 <= i < |was| && i != a && i != a + 1 ==> now[i] == was[i]
  }

  datatype Edit =
    | Key(focused: U32, dir: FocusDir, step: U16)
    | Drag(div: Divider, pointer: U16)

  /** What the client sends: a path and the ratios for the split there. */
  function Propose(root: LayoutNode, e: Edit): Option<(seq<nat>, seq<U16>)>
    requires Arity(root)
  {
    match e
    case Key(focused, dir, step) => ResizeSplit(root, focused, dir, step)
    case Drag(div, pointer) =>
      match RatiosForDrag(root, div, pointer)
      case None => None
      case Some(r) => Some((div.path, r))
  }

  /** The tree after the daemon has handled the proposal. */
  function Apply(root: LayoutNode, e: Edit): LayoutNode
    requires Arity(root)
  {
    var p := Propose(root, e);
    if p.None? then root
    else match SetRatios(root, p.value.0, p.value.1) case None => root case Some(t) => t
  }

  // ----- one split

  /** A pair of weights can trade any amount that leaves both at the floor. */
  lemma TradeKeeps(r: seq<U16>, a: nat, b: nat, x: int)
    requires a < |r| && b < |r| && a != b && Sum(r) == PERMILLE
    requires MIN_RATIO <= x <= r[a] + r[b] - MIN_RATIO
    ensures var traded := r[a := Truncate(x)][b := Truncate(r[a] + r[b] - x)];
      && Sum(traded) == PERMILLE && traded[a] == x && traded[b] == r[a] + r[b] - x
      && (forall i :: 0 <= i < |r| && i != a && i != b ==> traded[i] == r[i])
      && (forall i :: 0 <= i < |r| ==> traded[i] >= Min(r[i], MIN_RATIO))
  {
    hide Sum;
    PairAtMostSum(r, a, b);
    TwoUpdates(r, a, b, x, r[a] + r[b] - x);
    assert Truncate(x) == x && Truncate(r[a] + r[b] - x) == r[a] + r[b] - x;
  }

  /** A shift keeps the sum, moves the clamped amount within the pair and touches nothing else; it
      does nothing to a pair too light for both to reach the floor, and takes no weight below it. */
  lemma ShiftedKeeps(r: seq<U16>, a: nat, b: nat, delta: int)
    requires a < |r| && b < |r| && a != b && Sum(r) == PERMILLE
    ensures var s := Shifted(r, a, b, delta);
      && Sum(s) == PERMILLE
      && s[a] == (if r[a] + r[b] < 2 * MIN_RATIO then r[a]
                  else Clamp(r[a] + delta, MIN_RATIO, r[a] + r[b] - MIN_RATIO))
      && s[a] as int + s[b] == r[a] as int + r[b]
      && (forall i :: 0 <= i < |r| && i != a && i != b ==> s[i] == r[i])
      && (forall i :: 0 <= i < |r| ==> s[i] >= Min(r[i], MIN_RATIO))
  {
    hide Sum, Truncate;
    if r[a] + r[b] >= 2 * MIN_RATIO {
      TradeKeeps(r, a, b, Clamp(r[a] + delta, MIN_RATIO, r[a] + r[b] - MIN_RATIO));
    }
  }

  /** So does a drag of a pair that can reach the floor. */
  lemma DraggedKeeps(r: seq<U16>, div: Divider, pointer: U16)
    requires div.before + 1 < |r| && Sum(r) == PERMILLE
    requires r[div.before] as int + r[div.before + 1] >= 2 * MIN_RATIO
    ensures var s := Dragged(r, div, pointer);
      && Sum(s) == PERMILLE && PairMoved(r, s, div.before)
      && (forall i :: 0 <= i < |r| ==> s[i] >= Min(r[i], MIN_RATIO))
  {
    hide Sum, DragShare, Truncate;
    var a := div.before;
    var pair := r[a] as int + r[a + 1];
    TradeKeeps(r, a, a + 1, Clamp(DragShare(div, pointer, pair), MIN_RATIO, pair - MIN_RATIO));
  }

  // ----- one tree

  lemma {:induction false} BalancedAt(root: LayoutNode, path: seq<nat>)
    requires Balanced(root) && IsSplit(root, path)
    ensures Sum(NodeAt(root, path).value.ratios) == PERMILLE
    decreases path
  {
    if path != [] { BalancedAt(root.children[path[0]], path[1..]); }
  }

  lemma {:induction false} PermilleAt(root: LayoutNode, path: seq<nat>)
    requires Permille(root) && IsSplit(root, path)
    ensures PermilleRatios(NodeAt(root, path).value.ratios)
    decreases path
  {
    if path != [] { PermilleAt(root.children[path[0]], path[1..]); }
  }

  /** Replacing the ratios of one split keeps everything else. */
  lemma {:induction false} SetAtKeeps(root: LayoutNode, path: seq<nat>, r: seq<U16>)
    requires Arity(root) && IsSplit(root, path) && |r| == |NodeAt(root, path).value.children|
    ensures Arity(SetAt(root, path, r)) && SameShape(root, SetAt(root, path, r))
    ensures Balanced(root) && Sum(r) == PERMILLE ==> Balanced(SetAt(root, path, r))
    ensures Permille(root) && PermilleRatios(r) ==> Permille(SetAt(root, path, r))
    decreases path
  {
    hide Sum;
    ShapeReflexive(root);
    if path != [] {
      var i := path[0];
      SetAtKeeps(root.children[i], path[1..], r);
      var t := SetAt(root, path, r);
      forall c | c in t.children
        ensures Arity(c)
        ensures Balanced(root) && Sum(r) == PERMILLE ==> Balanced(c)
        ensures Permille(root) && PermilleRatios(r) ==> Permille(c)
      {
        var k :| 0 <= k < |t.children| && t.children[k] == c;
        assert root.children[k] in root.children;
      }
    }
  }

  lemma {:induction false} ShapeReflexive(t: LayoutNode)
    ensures SameShape(t, t)
  {
    if t.Split? {
      forall i | 0 <= i < |t.children| ensures SameShape(t.children[i], t.children[i]) {
        ShapeReflexive(t.children[i]);
      }
    }
  }

  lemma {:induction false} ShapeTransitive(s: LayoutNode, t: LayoutNode, u: LayoutNode)
    requires SameShape(s, t) && SameShape(t, u)
    ensures SameShape(s, u)
  {
    if s.Split? {
      forall i | 0 <= i < |s.children| ensures SameShape(s.children[i], u.children[i]) {
        ShapeTransitive(s.children[i], t.children[i], u.children[i]);
      }
    }
  }

  /** At every other path the node keeps its direction, arity and ratios. */
  lemma {:induction false} SetAtLocal(root: LayoutNode, path: seq<nat>, r: seq<U16>, q: seq<nat>)
    requires IsSplit(root, path)
    ensures IsSplit(root, q) <==> IsSplit(SetAt(root, path, r), q)
    ensures IsSplit(root, q) ==>
      var s, t := NodeAt(root, q).value, NodeAt(SetAt(root, path, r), q).value;
      t.dir == s.dir && |t.children| == |s.children| && t.ratios == (if q == path then r else s.ratios)
    decreases path
  {
    if path != [] && q != [] && root.Split? && q[0] < |root.children| {
      if q[0] == path[0] {
        SetAtLocal(root.children[path[0]], path[1..], r, q[1..]);
        assert q == path <==> q[1..] == path[1..] by {
          assert q == [q[0]] + q[1..] && path == [path[0]] + path[1..];
        }
      }
    }
  }

  // ----- one edit

  /** What a proposal looks like: it addresses a split, moves weight within one adjacent pair of it,
      keeps the sum, and takes no weight below the floor. */
  lemma ProposalIsSound(root: LayoutNode, e: Edit)
    requires Arity(root) && Balanced(root) && Propose(root, e).Some?
    ensures var (path, r) := Propose(root, e).value;
      && IsSplit(root, path) &&
      var was := NodeAt(root, path).value.ratios;
      && |r| == |NodeAt(root, path).value.children| == |was|
      && Sum(r) == PERMILLE
      && (exists a :: PairMoved(was, r, a))
      && (forall i :: 0 <= i < |r| ==> r[i] >= Min(was[i], MIN_RATIO))
  {
    hide Sum, Shifted, Dragged, NearestSplit, Balanced;
    var (path, r) := Propose(root, e).value;
    ArityAt(root, path);
    BalancedAt(root, path);
    var node := NodeAt(root, path).value;
    match e
    case Key(focused, dir, step) =>
      var child := NearestSplit(root, focused, AxisOf(dir)).value.1;
      var partner := Partner(child, |node.children|);
      ShiftedKeeps(node.ratios, child, partner, if Grows(dir) then step as int else -(step as int));
      assert PairMoved(node.ratios, r, Min(child, partner));
    case Drag(div, pointer) =>
      DraggedKeeps(node.ratios, div, pointer);
  }

  /** One edit: the daemon stores the proposal at its path, raised to the floor and renormalized, and
      nothing else in the tree changes; sums stay 1000. If no weight of that split is under the floor,
      the proposal is stored exactly, and a tree with none stays so. */
  lemma ApplyKeeps(root: LayoutNode, e: Edit)
    requires Arity(root) && Balanced(root)
    ensures var p := Propose(root, e);
      if p.None? then Apply(root, e) == root
      else
        && IsSplit(root, p.value.0) && Apply(root, e) == SetAt(root, p.value.0, Stored(p.value.1))
        && (PermilleRatios(NodeAt(root, p.value.0).value.ratios) ==>
              PermilleRatios(p.value.1) && Stored(p.value.1) == p.value.1)
    ensures Arity(Apply(root, e)) && Balanced(Apply(root, e)) && SameShape(root, Apply(root, e))
    ensures Permille(root) ==> Permille(Apply(root, e))
  {
    hide Propose, Stored, Sum, Permille, Balanced;
    ShapeReflexive(root);
    if Propose(root, e).Some? {
      var (path, r) := Propose(root, e).value;
      ProposalIsSound(root, e);
      ArityAt(root, path);
      BalancedAt(root, path);
      SomeRatio(r);
      StoredIsShared(r);
      SetAtKeeps(root, path, Stored(r));
      if PermilleRatios(NodeAt(root, path).value.ratios) { StoredVerbatim(r); }
      if Permille(root) { PermilleAt(root, path); }
    }
  }

  // ----- every run

  function Run(root: LayoutNode, edits: seq<Edit>): LayoutNode
    requires Arity(root) && Balanced(root)
    decreases |edits|
  {
    if edits == [] then root
    else
      ApplyKeeps(root, edits[0]);
      Run(Apply(root, edits[0]), edits[1..])
  }

  /** Any run of keyboard resizes and drags, stale dividers included, keeps the tree's shape and every
      sum; and from a tree with no weight under the floor, none ever is. */
  lemma {:induction false} RunKeeps(root: LayoutNode, edits: seq<Edit>)
    requires Arity(root) && Balanced(root)
    ensures var t := Run(root, edits);
      && Arity(t) && Balanced(t) && SameShape(root, t) && Leaves(t) == Leaves(root)
      && (Permille(root) ==> Permille(t))
    decreases |edits|
  {
    hide Apply, Permille, Balanced, Leaves;
    ShapeReflexive(root);
    if edits != [] {
      ApplyKeeps(root, edits[0]);
      RunKeeps(Apply(root, edits[0]), edits[1..]);
      ShapeTransitive(root, Apply(root, edits[0]), Run(root, edits));
    }
    ShapeLeaves(root, Run(root, edits));
  }

  lemma {:induction false} ShapeLeaves(s: LayoutNode, t: LayoutNode)
    requires SameShape(s, t)
    ensures Leaves(s) == Leaves(t)
    decreases s
  {
    if s.Split? { ShapeLeavesAll(s.children, t.children); }
  }

  lemma {:induction false} ShapeLeavesAll(ss: seq<LayoutNode>, ts: seq<LayoutNode>)
    requires |ss| == |ts| && forall i :: 0 <= i < |ss| ==> SameShape(ss[i], ts[i])
    ensures LeavesAll(ss) == LeavesAll(ts)
    decreases ss
  {
    if ss != [] {
      ShapeLeaves(ss[0], ts[0]);
      ShapeLeavesAll(ss[1..], ts[1..]);
    }
  }

  // ----- direction and undo

  /** How one split answers. The child trades with its neighbour, the next one or for the last the one
      before; Right and Down take from the neighbour, Left and Up from the child itself. A pair too light
      for the floor is left alone. With a step, Right and Down make the child larger and Left and Up
      smaller exactly if the one that gives is above the floor; below it the child moves the other way,
      and at the floor not at all. Without a step, only a pair with a weight under the floor moves. */
  predicate Answer(was: seq<U16>, child: nat, dir: FocusDir, step: U16, now: Option<seq<U16>>)
    requires child < |was| && |was| >= 2
  {
    var neighbour := if child + 1 < |was| then child + 1 else child - 1;
    var giver := if dir == Right || dir == Down then was[neighbour] else was[child];
    && (now.Some? <==>
          && was[child] as int + was[neighbour] >= 2 * MIN_RATIO
          && if step > 0 then giver != MIN_RATIO else was[child] < MIN_RATIO || was[neighbour] < MIN_RATIO)
    && (now.Some? ==> |now.value| == |was|)
    && (now.Some? && step > 0 ==>
          match dir
          case Right => giver > MIN_RATIO <==> now.value[child] > was[child]
          case Down => giver > MIN_RATIO <==> now.value[child] > was[child]
          case Left => giver > MIN_RATIO <==> now.value[child] < was[child]
          case Up => giver > MIN_RATIO <==> now.value[child] < was[child])
    && (now.Some? ==> now.value[child] != was[child])
  }

  lemma ShiftDirection(r: seq<U16>, child: nat, dir: FocusDir, step: U16)
    requires child < |r| && |r| >= 2 && Sum(r) == PERMILLE
    ensures var s := Shifted(r, child, Partner(child, |r|), if Grows(dir) then step as int else -(step as int));
      Answer(r, child, dir, step, if s == r then None else Some(s))
  {
    hide Sum, Shifted;
    var partner, delta := Partner(child, |r|), if Grows(dir) then step as int else -(step as int);
    ShiftedKeeps(r, child, partner, delta);
    var s := Shifted(r, child, partner, delta);
    if s[child] == r[child] { assert s == r; }
  }

  /** A keyboard resize addresses the innermost split on the axis and is a change exactly when that
      split has a pair that can reach the floor and a donor that is not at it. The focused pane's child
      then grows on Right/Down and shrinks on Left/Up if the donor is above the floor; below the
      floor it is the other way round. */
  lemma ResizeDirection(root: LayoutNode, focused: U32, dir: FocusDir, step: U16, full: seq<nat>)
    requires Arity(root) && Balanced(root) && Distinct(Leaves(root)) && LeadsTo(root, full, focused)
    ensures var axis := if dir == Left || dir == Right then Horizontal else Vertical;
      var found := NearestSplit(root, focused, axis);
      var r := ResizeSplit(root, focused, dir, step);
      if found.None? then r.None?
      else
        var path, child := found.value.0, found.value.1;
        && SplitOn(root, path, axis) && path + [child] <= full &&
        var node := NodeAt(root, path).value;
        && child < |node.children| == |node.ratios|
        && (|node.children| < 2 ==> r.None?)
        && (|node.children| >= 2 ==>
              Answer(node.ratios, child, dir, step, if r.None? then None else Some(r.value.1))
              && (r.Some? ==> r.value.0 == path))
  {
    hide Sum, Shifted, NearestSplit, Leaves, Balanced, SameShape;
    InnermostAncestor(root, focused, AxisOf(dir), full);
    var found := NearestSplit(root, focused, AxisOf(dir));
    if found.Some? {
      var path, child := found.value.0, found.value.1;
      ArityAt(root, path);
      BalancedAt(root, path);
      PrefixStep(root, full, |path|);
      var node := NodeAt(root, path).value;
      if |node.children| >= 2 { ShiftDirection(node.ratios, child, dir, step); }
    }
  }

  lemma {:induction false} PrefixStep(root: LayoutNode, full: seq<nat>, k: nat)
    requires NodeAt(root, full).Some? && k < |full| && IsSplit(root, full[..k])
    ensures full[k] < |NodeAt(root, full[..k]).value.children|
    decreases k
  {
    if k > 0 {
      assert full[..k][1..] == full[1..][..k - 1];
      PrefixStep(root.children[full[0]], full[1..], k - 1);
    }
  }

  lemma {:induction false} DescentShape(s: LayoutNode, t: LayoutNode, focused: U32)
    requires SameShape(s, t)
    ensures Descent(s, focused) == Descent(t, focused)
    decreases s
  {
    if s.Split? { DescentAmongShape(s.dir, s.children, t.children, 0, focused); }
  }

  lemma {:induction false} DescentAmongShape(dir: SplitDir, ss: seq<LayoutNode>, ts: seq<LayoutNode>, at: nat,
                                             focused: U32)
    requires |ss| == |ts| && forall i :: 0 <= i < |ss| ==> SameShape(ss[i], ts[i])
    ensures DescentAmong(dir, ss, at, focused) == DescentAmong(dir, ts, at, focused)
    decreases ss
  {
    if ss != [] {
      DescentShape(ss[0], ts[0], focused);
      DescentAmongShape(dir, ss[1..], ts[1..], at + 1, focused);
    }
  }

  lemma {:induction false} SetAtTwice(root: LayoutNode, path: seq<nat>, r: seq<U16>, q: seq<U16>)
    requires IsSplit(root, path)
    ensures IsSplit(SetAt(root, path, r), path)
    ensures SetAt(SetAt(root, path, r), path, q) == SetAt(root, path, q)
    decreases path
  {
    if path != [] { SetAtTwice(root.children[path[0]], path[1..], r, q); }
  }

  lemma {:induction false} SetAtSame(root: LayoutNode, path: seq<nat>, r: seq<U16>)
    requires IsSplit(root, path)
    ensures SetAt(root, path, r) == root <==> r == NodeAt(root, path).value.ratios
    decreases path
  {
    if path != [] {
      var i := path[0];
      SetAtSame(root.children[i], path[1..], r);
      var cs := root.children[i := SetAt(root.children[i], path[1..], r)];
      assert cs[i] == SetAt(root.children[i], path[1..], r);
      assert root.children[i := root.children[i]] == root.children;
    }
  }

  /** The ratios of a split once the daemon has stored what a shift of its pair proposes. */
  function AfterShift(r: seq<U16>, a: nat, b: nat, delta: int): (s: seq<U16>)
    requires a < |r| && b < |r|
    ensures |s| == |r|
  {
    if Shifted(r, a, b, delta) == r then r else Stored(Shifted(r, a, b, delta))
  }

  /** Where no weight is under the floor, a shift is stored as it is; in any case sums stay 1000. */
  lemma AfterShiftIs(r: seq<U16>, a: nat, b: nat, delta: int)
    requires a < |r| && b < |r| && a != b && Sum(r) == PERMILLE
    ensures Sum(AfterShift(r, a, b, delta)) == PERMILLE
    ensures (forall i :: 0 <= i < |r| ==> Shifted(r, a, b, delta)[i] >= MIN_RATIO) ==>
      AfterShift(r, a, b, delta) == Shifted(r, a, b, delta)
  {
    hide Sum, Shifted, Stored;
    ShiftedKeeps(r, a, b, delta);
    var s := Shifted(r, a, b, delta);
    StoredIsShared(s);
    if forall i :: 0 <= i < |r| ==> s[i] >= MIN_RATIO { StoredVerbatim(s); }
  }

  /** Storing a shift never leaves the pair with more than it had. */
  lemma PairNeverGains(r: seq<U16>, a: nat, b: nat, delta: int)
    requires a < |r| && b < |r| && a != b && Sum(r) == PERMILLE
    ensures var s := AfterShift(r, a, b, delta);
      s[a] as int + s[b] <= r[a] as int + r[b]
  {
    hide Sum, Shifted, Stored;
    ShiftedKeeps(r, a, b, delta);
    var s := Shifted(r, a, b, delta);
    if s != r {
      LightPairStays(r, a, b, delta);
      StoredAtMost(s, a);
      StoredAtMost(s, b);
      assert Floored(s)[a] == s[a] && Floored(s)[b] == s[b];
    }
  }

  lemma LightPairStays(r: seq<U16>, a: nat, b: nat, delta: int)
    requires a < |r| && b < |r|
    ensures r[a] as int + r[b] < 2 * MIN_RATIO ==> Shifted(r, a, b, delta) == r
  {}

  /** While some weight stays under the floor, storing takes from every weight above it. */
  lemma HeavyLoses(r: seq<U16>, c: nat, low: nat)
    requires Sum(r) == PERMILLE && c < |r| && low < |r| && r[c] >= MIN_RATIO && Stored(r)[low] < MIN_RATIO
    ensures Stored(r)[c] <= r[c] && (r[c] > MIN_RATIO ==> Stored(r)[c] < r[c])
  {
    hide Sum, Stored;
    StoredAtMost(r, c);
    if r[c] > MIN_RATIO && Stored(r)[c] == r[c] { HeavyKept(r, c, low); }
  }

  /** With a weight under the floor in the split, a grow and a shrink do not lead back. */
  lemma FloorSpoils(r: seq<U16>, a: nat, b: nat, step: U16)
    requires a < |r| && b < |r| && a != b && Sum(r) == PERMILLE && !PermilleRatios(r)
    requires step > 0 && r[b] >= MIN_RATIO + step && r[a] as int + r[b] >= 2 * MIN_RATIO
    ensures AfterShift(AfterShift(r, a, b, step), a, b, -(step as int)) != r
  {
    hide Sum, Shifted, Stored, AfterShift;
    var there, t := Shifted(r, a, b, step), AfterShift(r, a, b, step);
    ShiftedKeeps(r, a, b, step);
    AfterShiftIs(r, a, b, step);
    var i :| 0 <= i < |r| && r[i] < MIN_RATIO;
    if forall j :: 0 <= j < |r| ==> t[j] >= MIN_RATIO {
      RaisedStays(t, a, b, -(step as int), i);
    } else {
      var low :| 0 <= low < |r| && t[low] < MIN_RATIO;
      assert t == Stored(there) by { StoredShift(r, a, b, step); }
      HeavyLoses(there, a, low);
      HeavyLoses(there, b, low);
      PairNeverGains(t, a, b, -(step as int));
      if t[a] == t[b] == MIN_RATIO { EvenPairStays(t, a, b, step); }
    }
  }

  lemma StoredShift(r: seq<U16>, a: nat, b: nat, delta: int)
    requires a < |r| && b < |r| && Shifted(r, a, b, delta) != r
    ensures AfterShift(r, a, b, delta) == Stored(Shifted(r, a, b, delta))
  {}

  lemma RaisedStays(t: seq<U16>, a: nat, b: nat, delta: int, i: nat)
    requires a < |t| && b < |t| && a != b && Sum(t) == PERMILLE && i < |t|
    requires forall j :: 0 <= j < |t| ==> t[j] >= MIN_RATIO
    ensures AfterShift(t, a, b, delta)[i] >= MIN_RATIO
  {
    hide Sum, Shifted, Stored, AfterShift;
    ShiftedKeeps(t, a, b, delta);
    AfterShiftIs(t, a, b, delta);
  }

  lemma EvenPairStays(t: seq<U16>, a: nat, b: nat, step: U16)
    requires a < |t| && b < |t| && a != b && Sum(t) == PERMILLE && t[a] == t[b] == MIN_RATIO
    ensures AfterShift(t, a, b, -(step as int)) == t
  {
    hide Sum, Shifted, Stored;
    ShiftedKeeps(t, a, b, -(step as int));
    assert Shifted(t, a, b, -(step as int)) == t;
  }

  /** A shift that stays clear of the floor on the donor's side, and the shift back, lead back to the
      same ratios if and only if no weight of the split is under the floor. */
  lemma ThereAndBackIff(r: seq<U16>, a: nat, b: nat, step: U16)
    requires a < |r| && b < |r| && a != b && Sum(r) == PERMILLE
    requires step > 0 && r[b] >= MIN_RATIO + step && r[a] as int + r[b] >= 2 * MIN_RATIO
    ensures AfterShift(AfterShift(r, a, b, step), a, b, -(step as int)) == r <==> PermilleRatios(r)
  {
    hide Sum, Shifted, Stored, AfterShift;
    if PermilleRatios(r) {
      var there := Shifted(r, a, b, step);
      ShiftedKeeps(r, a, b, step);
      AfterShiftIs(r, a, b, step);
      ShiftedKeeps(there, a, b, -(step as int));
      AfterShiftIs(there, a, b, -(step as int));
      assert Shifted(there, a, b, -(step as int)) == r;
    } else {
      FloorSpoils(r, a, b, step);
    }
  }

  /** What a key does to the tree: the ratios of the split it addresses become those after the shift. */
  lemma KeyApplies(root: LayoutNode, focused: U32, dir: FocusDir, step: U16, path: seq<nat>, child: nat)
    requires Arity(root) && NearestSplit(root, focused, AxisOf(dir)) == Some((path, child)) && IsSplit(root, path)
    requires child < |NodeAt(root, path).value.children| == |NodeAt(root, path).value.ratios|
    requires |NodeAt(root, path).value.children| >= 2
    ensures var r := NodeAt(root, path).value.ratios;
      Apply(root, Key(focused, dir, step)) ==
        SetAt(root, path, AfterShift(r, child, Partner(child, |r|), if Grows(dir) then step as int else -(step as int)))
  {
    hide NearestSplit, Shifted, Stored;
    var r := NodeAt(root, path).value.ratios;
    SetAtSame(root, path, r);
  }

  /** A grow whose donor keeps clear of the floor, and a shrink by the same step, restore the tree if
      and only if no weight of that split is under the floor. */
  lemma GrowThenShrink(root: LayoutNode, focused: U32, dir: FocusDir, step: U16)
    requires Arity(root) && Balanced(root) && (dir == Right || dir == Down) && step > 0
    requires ResizeSplit(root, focused, dir, step).Some?
    requires var (path, child) := NearestSplit(root, focused, AxisOf(dir)).value;
      var node := NodeAt(root, path).value;
      |node.ratios| == |node.children| && node.ratios[Partner(child, |node.children|)] >= MIN_RATIO + step
    ensures var t := Apply(root, Key(focused, dir, step));
      var path := NearestSplit(root, focused, AxisOf(dir)).value.0;
      && Arity(t)
      && (Apply(t, Key(focused, if dir == Right then Left else Up, step)) == root
          <==> PermilleRatios(NodeAt(root, path).value.ratios))
  {
    hide Sum, Shifted, Balanced, Descent, SameShape, Stored, SetRatios, AfterShift;
    var (path, child) := NearestSplit(root, focused, AxisOf(dir)).value;
    var r := NodeAt(root, path).value.ratios;
    var partner := Partner(child, |r|);
    BalancedAt(root, path);
    LightPairStays(r, child, partner, step);
    var there := AfterShift(r, child, partner, step);
    var back := AfterShift(there, child, partner, -(step as int));
    KeyApplies(root, focused, dir, step, path, child);
    var t := SetAt(root, path, there);
    SetAtKeeps(root, path, there);
    DescentShape(root, t, focused);
    SetAtLocal(root, path, there, path);
    KeyApplies(t, focused, if dir == Right then Left else Up, step, path, child);
    SetAtTwice(root, path, there, back);
    SetAtSame(root, path, back);
    ThereAndBackIff(r, child, partner, step);
  }

  // ----- the code

  /** `node_at`. */
  method FindNode(root: LayoutNode, path: seq<nat>) returns (r: Option<LayoutNode>)
    ensures r == NodeAt(root, path)
  {
    var node := root;
    for k := 0 to |path|
      invariant NodeAt(node, path[k..]) == NodeAt(root, path)
    {
      if node.Leaf? || path[k] >= |node.children| { return None; }
      assert path[k..][1..] == path[k + 1..];
      node := node.children[path[k]];
    }
    return Some(node);
  }

  /** `build_descent`: pushes one step per split, popping what did not lead to the leaf. */
  method BuildDescent(node: LayoutNode, focused: U32, acc: seq<(SplitDir, nat)>)
    returns (found: bool, out: seq<(SplitDir, nat)>)
    ensures found <==> Descent(node, focused).Some?
    ensures out == if found then acc + Descent(node, focused).value else acc
    decreases node
  {
    out := acc;
    match node
    case Leaf(i) => found := i == focused;
    case Split(dir, _, children) =>
      for k := 0 to |children|
        invariant out == acc
        invariant DescentAmong(dir, children[k..], k, focused) == Descent(node, focused)
      {
        assert children[k..][0] == children[k] && children[k..][1..] == children[k + 1..];
        found, out := BuildDescent(children[k], focused, out + [(dir, k)]);
        if found { return; }
        out := out[..|out| - 1];
      }
      found := false;
  }

  /** `shift_pair`, in place and in `i32`; `delta` is a `u16` step, either sign. */
  method ShiftPair(ratios: array<U16>, a: nat, b: nat, delta: I32)
    requires a < ratios.Length && b < ratios.Length && a != b
    requires -U16_MAX <= delta <= U16_MAX
    modifies ratios
    ensures ratios[..] == Shifted(old(ratios[..]), a, b, delta)
  {
    var total: I32 := ratios[a] as int + ratios[b];
    if total < MIN_RATIO * 2 { return; }
    var moved: I32 := ratios[a] + delta;
    var na: I32 := Clamp(moved, MIN_RATIO, total - MIN_RATIO);
    ratios[a] := Truncate(na);
    ratios[b] := Truncate(total - na);
  }

  /** `nearest_split_on_axis`. */
  method LocateSplit(root: LayoutNode, focused: U32, axis: SplitDir) returns (r: Option<(seq<nat>, nat)>)
    ensures r == NearestSplit(root, focused, axis)
  {
    hide Descent;
    var found, descent := BuildDescent(root, focused, []);
    if !found { return None; }
    assert descent == Descent(root, focused).value;
    var k := LastOn(descent, axis);
    if k.None? { return None; }
    return Some((PathOf(descent)[..k.value], descent[k.value].1));
  }

  /** A copy of `ratios` with the pair shifted. */
  method ShiftCopy(ratios: seq<U16>, a: nat, b: nat, delta: I32) returns (r: seq<U16>)
    requires a < |ratios| && b < |ratios| && a != b && -U16_MAX <= delta <= U16_MAX
    ensures r == Shifted(ratios, a, b, delta)
  {
    var copy := new U16[|ratios|](i requires 0 <= i < |ratios| => ratios[i]);
    assert copy[..] == ratios;
    ShiftPair(copy, a, b, delta);
    r := copy[..];
  }

  /** `resize_split`. */
  method ComputeResize(root: LayoutNode, focused: U32, dir: FocusDir, step: U16)
    returns (r: Option<(seq<nat>, seq<U16>)>)
    requires Arity(root)
    ensures r == ResizeSplit(root, focused, dir, step)
  {
    hide Shifted, NearestSplit, NodeAt;
    var found := LocateSplit(root, focused, AxisOf(dir));
    if found.None? { return None; }
    var path, child := found.value.0, found.value.1;
    var at := FindNode(root, path);
    if at.None? || at.value.Leaf? { return None; }
    ArityAt(root, path);
    var n := |at.value.children|;
    if n < 2 || child >= n { return None; }
    var delta: I32 := if Grows(dir) then step as int else -(step as int);
    var ratios := ShiftCopy(at.value.ratios, child, Partner(child, n), delta);
    if ratios == at.value.ratios { return None; }
    return Some((path, ratios));
  }

  /** Whatever the pointer, the products of a drag of a pair of this weight stay inside `i32`. */
  predicate DragFits(div: Divider, pair: nat) {
    var len := Max(div.pairLen, 1);
    len * pair + len / 2 <= I32_MAX
  }

  /** Weights summing to 1000 always do, and so do all below 32768. */
  lemma LightPairFits(div: Divider, pair: nat)
    requires pair <= 0x7FFF
    ensures DragFits(div, pair)
  {
    var len := Max(div.pairLen, 1);
    MulMonotone(len, pair, 0x7FFF);
    Commute(len, 0x7FFF);
    MulMonotone(0x7FFF, len, U16_MAX);
  }

  /** When a drag is a proposal, and which: the split must still be there in the same direction, with a
      next child, a pair that can reach the floor, and a share at the pointer, rounded to the nearest
      and kept off the floor, that is not the one it has. */
  lemma DragProposes(root: LayoutNode, div: Divider, pointer: U16)
    requires Arity(root)
    ensures var r := RatiosForDrag(root, div, pointer);
      if !IsSplit(root, div.path) then r.None?
      else
        var node, a := NodeAt(root, div.path).value, div.before;
        if node.dir != div.dir || a + 1 >= |node.children| then r.None?
        else
          && |node.ratios| == |node.children| &&
          var pair := node.ratios[a] as int + node.ratios[a + 1];
          var len := if div.pairLen == 0 then 1 else div.pairLen as int;
          var off := if pointer < div.pairStart then 0
                     else if pointer > div.pairStart + len then len else pointer - div.pairStart;
          var share := (off * pair + len / 2) / len;
          var kept := if share < 20 then 20 else if share > pair - 20 then pair - 20 else share;
          && (r.Some? <==> pair >= 40 && kept != node.ratios[a])
          && (r.Some? && pair <= U16_MAX ==>
                |r.value| == |node.ratios| && r.value[a] == kept && r.value[a + 1] == pair - kept)
  {
    hide NodeAt;
    if IsSplit(root, div.path) {
      ArityAt(root, div.path);
      var node, a := NodeAt(root, div.path).value, div.before;
      if a + 1 < |node.children| && node.ratios[a] as int + node.ratios[a + 1] >= 2 * MIN_RATIO {
        DraggedIs(node.ratios, div, pointer);
      }
    }
  }

  lemma DraggedIs(r: seq<U16>, div: Divider, pointer: U16)
    requires div.before + 1 < |r| && r[div.before] as int + r[div.before + 1] >= 2 * MIN_RATIO
    ensures var a, s, pair := div.before, Dragged(r, div, pointer), r[div.before] as int + r[div.before + 1];
      var kept := Clamp(DragShare(div, pointer, pair), MIN_RATIO, pair - MIN_RATIO);
      (s == r <==> kept == r[a]) && (pair <= U16_MAX ==> s[a] == kept && s[a + 1] == pair - kept)
  {
    hide DragShare;
    var a, s := div.before, Dragged(r, div, pointer);
    if s == r { assert s[a] == r[a] && s[a + 1] == r[a + 1]; }
  }

  /** `ratios_for_drag`, with every step inside `i32`. */
  method ComputeDrag(root: LayoutNode, div: Divider, pointer: U16) returns (r: Option<seq<U16>>)
    requires Arity(root)
    requires IsSplit(root, div.path) ==>
      var ratios := NodeAt(root, div.path).value.ratios;
      div.before + 1 < |ratios| ==> DragFits(div, ratios[div.before] as int + ratios[div.before + 1])
    ensures r == RatiosForDrag(root, div, pointer)
  {
    hide DragShare, NodeAt, DragFits;
    var at := FindNode(root, div.path);
    if at.None? || at.value.Leaf? { return None; }
    ArityAt(root, div.path);
    var ratios := at.value.ratios;
    if at.value.dir != div.dir { return None; }
    var a, b := div.before, div.before + 1;
    if b >= |at.value.children| { return None; }
    var pair: I32 := ratios[a] as int + ratios[b];
    if pair < MIN_RATIO * 2 { return None; }
    var newA := DragTarget(div, pointer, pair);
    var out := ratios[a := Truncate(newA)][b := Truncate(pair - newA)];
    return if out == ratios then None else Some(out);
  }

  /** The pointer arithmetic of `ratios_for_drag`. */
  method DragTarget(div: Divider, pointer: U16, pair: I32) returns (newA: I32)
    requires 2 * MIN_RATIO <= pair && DragFits(div, pair)
    ensures newA == Clamp(DragShare(div, pointer, pair), MIN_RATIO, pair - MIN_RATIO)
  {
    var len: I32 := Max(div.pairLen, 1);
    var off: I32 := Clamp(pointer - div.pairStart, 0, len);
    ShareBound(off, pair, len);
    Commute(off, pair);
    Commute(len, pair);
    MulMonotone(pair, off, len);
    var scaled: I32 := off * pair;
    var share: I32 := (scaled + len / 2) / len;
    newA := Clamp(share, MIN_RATIO, pair - MIN_RATIO);
  }
}
