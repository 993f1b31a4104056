/** Layouts that splitting alone leads to, and where they break promises of the client and of the
    daemon. */
module ReachedLayouts {
  import opened Widths
  import opened Options
  import opened Sequences
  import opened Apportionment
  import opened Layout
  import opened Borders
  import opened Focus
  import opened Resize
  import opened StoredRatios
  import opened Edits
  import opened DaemonLayout

  /** Panes side by side. */
  function Row(ws: seq<U16>, panes: seq<U32>): LayoutNode {
    Split(Horizontal, ws, LeafSeq(panes))
  }

  predicate GoodRow(ws: seq<U16>, panes: seq<U32>) {
    |ws| == |panes| >= 2 && Sum(ws) == PERMILLE && Distinct(panes)
  }

  lemma RowSound(ws: seq<U16>, panes: seq<U32>)
    requires GoodRow(ws, panes)
    ensures Sound(Row(ws, panes)) && Leaves(Row(ws, panes)) == panes
  {
    hide Sum;
    LeafRow(panes);
  }

  /** Splitting a pane of a row in the row's direction halves its weight. */
  lemma SplitInRow(ws: seq<U16>, panes: seq<U32>, pos: nat, added: U32)
    requires GoodRow(ws, panes) && pos < |ws| && added !in panes
    ensures Sound(Row(ws, panes)) && Leaves(Row(ws, panes)) == panes
    ensures GoodRow(Halved(ws, pos), InsertAt(panes, pos + 1, added))
    ensures Do(Row(ws, panes), SplitOp(panes[pos], added, Horizontal))
         == Row(Halved(ws, pos), InsertAt(panes, pos + 1, added))
  {
    hide Sum, Renormalized, Sound, Leaves;
    RowSound(ws, panes);
    HalvedSum(ws, pos);
    RenormalizedSame(Halved(ws, pos));
    var cs, half := LeafSeq(panes), ws[pos] / 2;
    assert Halved(ws, pos) == InsertAt(ws[pos := ws[pos] - half], pos + 1, half);
    assert LeafPosition(cs, panes[pos]) == pos;
    assert InsertAt(cs, pos + 1, Leaf(added)) == LeafSeq(InsertAt(panes, pos + 1, added));
  }

  lemma {:induction false} RunPush(root: LayoutNode, ops: seq<Op>, op: Op)
    requires Sound(root) && Distinct(Leaves(root))
    ensures RunOps(root, ops + [op]) == Do(RunOps(root, ops), op)
    decreases |ops|
  {
    hide Sound, Leaves, Do;
    DoKeeps(root, op);
    if ops == [] {
      assert (ops + [op])[1..] == [];
    } else {
      DoKeeps(root, ops[0]);
      assert (ops + [op])[0] == ops[0] && (ops + [op])[1..] == ops[1..] + [op];
      RunPush(Do(root, ops[0]), ops[1..], op);
    }
  }

  lemma FirstSplit(added: U32)
    requires added != 0
    ensures Sound(Leaf(0)) && Distinct(Leaves(Leaf(0)))
    ensures RunOps(Leaf(0), [SplitOp(0, added, Horizontal)]) == Row([500, 500], [0, added])
    ensures GoodRow([500, 500], [0, added])
  {
    SumOfTwo(500, 500);
    var op := SplitOp(0, added, Horizontal);
    assert [op][1..] == [];
    assert Do(Leaf(0), op) == Row([500, 500], [0, added]);
    RunPush(Leaf(0), [], op);
    assert [] + [op] == [op];
  }

  /** One more split of a row that a run has led to. */
  lemma NextSplit(ops: seq<Op>, ws: seq<U16>, panes: seq<U32>, pos: nat, added: U32)
    requires Sound(Leaf(0)) && Distinct(Leaves(Leaf(0))) && RunOps(Leaf(0), ops) == Row(ws, panes)
    requires GoodRow(ws, panes) && pos < |ws| && added !in panes
    ensures RunOps(Leaf(0), ops + [SplitOp(panes[pos], added, Horizontal)])
         == Row(Halved(ws, pos), InsertAt(panes, pos + 1, added))
    ensures GoodRow(Halved(ws, pos), InsertAt(panes, pos + 1, added))
  {
    hide Sum, Sound, Leaves, Do, RunOps;
    SplitInRow(ws, panes, pos, added);
    RunPush(Leaf(0), ops, SplitOp(panes[pos], added, Horizontal));
  }

  // ----- a resize that goes the wrong way

  /** From pane 0, each new pane split off the one before it, and at last one off pane 4. */
  function SixSplits(): seq<Op> {
    [SplitOp(0, 1, Horizontal), SplitOp(1, 2, Horizontal), SplitOp(2, 3, Horizontal),
     SplitOp(3, 4, Horizontal), SplitOp(4, 5, Horizontal), SplitOp(4, 6, Horizontal)]
  }

  const SevenWeights: seq<U16> := [500, 250, 125, 63, 16, 15, 31]
  const SevenPanes: seq<U32> := [0, 1, 2, 3, 4, 6, 5]

  /** The run `ops` leads to this row. */
  ghost predicate LeadsToRow(ops: seq<Op>, ws: seq<U16>, panes: seq<U32>) {
    && Sound(Leaf(0)) && Distinct(Leaves(Leaf(0)))
    && RunOps(Leaf(0), ops) == Row(ws, panes) && GoodRow(ws, panes)
  }

  lemma NextIs(ops: seq<Op>, ws: seq<U16>, panes: seq<U32>, pos: nat, added: U32, vs: seq<U16>, qs: seq<U32>)
    requires LeadsToRow(ops, ws, panes) && |ws| == |panes| && pos < |ws| && added !in panes
    requires vs == Halved(ws, pos) && qs == InsertAt(panes, pos + 1, added)
    ensures LeadsToRow(ops + [SplitOp(panes[pos], added, Horizontal)], vs, qs)
  {
    hide Sum, Sound, Leaves, Do, RunOps;
    NextSplit(ops, ws, panes, pos, added);
  }

  lemma FourSplits()
    ensures LeadsToRow(SixSplits()[..4], [500, 250, 125, 63, 62], [0, 1, 2, 3, 4])
  {
    hide LeadsToRow;
    var ops := SixSplits();
    assert LeadsToRow([ops[0]], [500, 500], [0, 1]) by { OneSplit(); }
    NextIs([ops[0]], [500, 500], [0, 1], 1, 2, [500, 250, 250], [0, 1, 2]);
    assert [ops[0]] + [ops[1]] == ops[..2];
    NextIs(ops[..2], [500, 250, 250], [0, 1, 2], 2, 3, [500, 250, 125, 125], [0, 1, 2, 3]);
    assert ops[..2] + [ops[2]] == ops[..3];
    NextIs(ops[..3], [500, 250, 125, 125], [0, 1, 2, 3], 3, 4, [500, 250, 125, 63, 62], [0, 1, 2, 3, 4]);
    assert ops[..3] + [ops[3]] == ops[..4];
  }

  lemma OneSplit()
    ensures LeadsToRow([SplitOp(0, 1, Horizontal)], [500, 500], [0, 1])
  {
    hide Sum;
    FirstSplit(1);
  }

  lemma SixSplitsLead()
    ensures LeadsToRow(SixSplits(), SevenWeights, SevenPanes)
  {
    hide LeadsToRow;
    var ops := SixSplits();
    FourSplits();
    NextIs(ops[..4], [500, 250, 125, 63, 62], [0, 1, 2, 3, 4], 4, 5, [500, 250, 125, 63, 31, 31], [0, 1, 2, 3, 4, 5]);
    assert ops[..4] + [ops[4]] == ops[..5];
    NextIs(ops[..5], [500, 250, 125, 63, 31, 31], [0, 1, 2, 3, 4, 5], 4, 6, SevenWeights, SevenPanes);
    assert ops[..5] + [ops[5]] == ops;
  }

  lemma {:induction false} RowDescent(dir: SplitDir, panes: seq<U32>, at: nat, k: nat)
    requires Distinct(panes) && k < |panes|
    ensures DescentAmong(dir, LeafSeq(panes), at, panes[k]) == Some([(dir, at + k)])
    decreases k
  {
    var cs := LeafSeq(panes);
    if k == 0 {
      assert [(dir, at)] + [] == [(dir, at)];
    } else {
      assert cs[1..] == LeafSeq(panes[1..]);
      RowDescent(dir, panes[1..], at + 1, k - 1);
    }
  }

  lemma RowNearest(ws: seq<U16>, panes: seq<U32>, k: nat)
    requires Distinct(panes) && k < |panes|
    ensures NearestSplit(Row(ws, panes), panes[k], Horizontal) == Some(([], k))
  {
    RowDescent(Horizontal, panes, 0, k);
    var d := [(Horizontal, k)];
    assert Descent(Row(ws, panes), panes[k]) == Some(d);
    assert PathOf(d)[..0] == [];
  }

  /** A key on a row. */
  lemma KeyOnRow(ws: seq<U16>, panes: seq<U32>, k: nat, dir: FocusDir, step: U16)
    requires GoodRow(ws, panes) && |panes| <= U16_MAX && k < |panes| && AxisOf(dir) == Horizontal
    ensures Arity(Row(ws, panes))
    ensures var delta := if Grows(dir) then step as int else -(step as int);
      Apply(Row(ws, panes), Key(panes[k], dir, step)) == Row(AfterShift(ws, k, Partner(k, |ws|), delta), panes)
  {
    hide Sum, AfterShift, NearestSplit, Apply;
    RowNearest(ws, panes, k);
    KeyApplies(Row(ws, panes), panes[k], dir, step, [], k);
  }

  /** After six splits the daemon holds weights below the floor. Whatever the step, pane 3 asked to grow
      then shrinks, and pane 6 asked to shrink grows, in what the daemon stores. */
  lemma WrongWay(step: U16)
    requires step > 0
    ensures Sound(Leaf(0)) && Distinct(Leaves(Leaf(0)))
    ensures var t := RunOps(Leaf(0), SixSplits());
      && t == Row(SevenWeights, SevenPanes) && Arity(t) &&
      var right, left := Apply(t, Key(3, Right, step)), Apply(t, Key(6, Left, step));
      && right.Split? && |right.ratios| == 7 && right.ratios[3] < SevenWeights[3]
      && left.Split? && |left.ratios| == 7 && left.ratios[5] > SevenWeights[5]
  {
    hide Sum, Shifted, Stored, Apply, LeafSeq, RunOps, Sound, Leaves;
    SixSplitsLead();
    KeyOnRow(SevenWeights, SevenPanes, 3, Right, step);
    KeyOnRow(SevenWeights, SevenPanes, 5, Left, step);
    var grown := Shifted(SevenWeights, 3, 4, step);
    ShiftedKeeps(SevenWeights, 3, 4, step);
    StoredAtMost(grown, 3);
    var shrunk := Shifted(SevenWeights, 5, 6, -(step as int));
    ShiftedKeeps(SevenWeights, 5, 6, -(step as int));
    EndsAbove(shrunk, 5);
  }

  lemma EndsAbove(r: seq<U16>, i: nat)
    requires Sum(r) == PERMILLE && |r| == 7 && i < 7 && r[i] == MIN_RATIO
    ensures Stored(r)[i] > 15
  {
    hide Sum, Stored, Remainders, Leftover;
    FlooredAtMost(r);
    StoredAtLeastIff(r, i, 16);
  }

  // ----- a layout that fits nowhere

  /** Pane 0, split over and over. */
  function Halvings(n: nat): seq<Op>
    requires n <= U16_MAX
  {
    if n == 0 then [] else Halvings(n - 1) + [SplitOp(0, n, Horizontal)]
  }

  function FirstWeight(n: nat): U16
    requires n > 0
  {
    if n == 1 then 500 else FirstWeight(n - 1) - FirstWeight(n - 1) / 2
  }

  lemma {:induction false} HalvingsLead(n: nat) returns (ws: seq<U16>, panes: seq<U32>)
    requires 0 < n < U16_MAX
    ensures Sound(Leaf(0)) && Distinct(Leaves(Leaf(0))) && RunOps(Leaf(0), Halvings(n)) == Row(ws, panes)
    ensures GoodRow(ws, panes) && |ws| == n + 1 && panes[0] == 0 && forall p :: p in panes ==> p <= n
    ensures ws[0] == FirstWeight(n) && (n > 1 ==> ws[1] == FirstWeight(n - 1) / 2)
  {
    hide Sum, Sound, Leaves, RunOps, LeafSeq, Distinct;
    if n == 1 {
      FirstSplit(1);
      assert Halvings(1) == [SplitOp(0, 1, Horizontal)];
      ws, panes := [500, 500], [0, 1];
    } else {
      var vs, ps := HalvingsLead(n - 1);
      NextSplit(Halvings(n - 1), vs, ps, 0, n);
      ws, panes := Halved(vs, 0), InsertAt(ps, 1, n);
      forall p | p in panes ensures p <= n { InsertedMember(ps, 1, n, p); }
    }
  }

  lemma InsertedMember(s: seq<U32>, i: nat, x: U32, y: U32)
    requires i <= |s| && y in InsertAt(s, i, x)
    ensures y == x || y in s
  {}

  lemma {:induction false} FirstWeightEnds(n: nat)
    requires n >= 10
    ensures FirstWeight(n) == 1
  {
    if n == 10 {
      assert FirstWeight(5) == 32;
      assert FirstWeight(8) == 4;
    } else {
      FirstWeightEnds(n - 1);
    }
  }

  /** A child without weight gets no cell, so a layout that fits gives weight to every child. */
  lemma {:induction false} FittingHasWeight(node: LayoutNode, area: Area, cfg: Config, path: seq<nat>, i: nat)
    requires Fitting(node, area, cfg) && IsSplit(node, path) && i < |NodeAt(node, path).value.ratios|
    ensures NodeAt(node, path).value.ratios[i] > 0
    decreases path
  {
    hide Sum, Fits, ChildExtents, ChildArea;
    if path == [] {
      ChildRoom(node, area, cfg, i);
      if node.ratios[i] == 0 { NoWeightNoCells(node.dir, node.ratios, area, cfg, i); }
    } else {
      ChildFits(node, area, cfg, path[0]);
      FittingHasWeight(node.children[path[0]], ChildArea(node, area, cfg, path[0]), cfg, path[1..], i);
    }
  }

  lemma NoWeightNoCells(dir: SplitDir, ratios: seq<U16>, area: Area, cfg: Config, i: nat)
    requires i < |ratios| <= U16_MAX && Sum(ratios) > 0 && ratios[i] == 0
    ensures ChildExtents(dir, ratios, area, cfg)[i].1 == 0
  {
    hide Sum, Alloc, Place;
    var avail := Avail(AxisLen(dir, area), |ratios|, Gutter(dir, cfg));
    WithinQuota(avail, ratios, i);
    PlaceLens(AxisStart(dir, area), Lens(AxisLen(dir, area), ratios, Gutter(dir, cfg)), Gutter(dir, cfg), i);
  }

  /** After eleven splits or more of the same pane in one direction, one of the panes has no weight,
      and the layout fits no area at all. */
  lemma HalvingsFitNowhere(n: nat, area: Area, cfg: Config)
    requires 11 <= n < U16_MAX && InRange(area) && cfg.minCols > 0 && cfg.minRows > 0
    ensures Sound(Leaf(0)) && Distinct(Leaves(Leaf(0)))
    ensures var t := RunOps(Leaf(0), Halvings(n));
      Arity(t) && Positive(t) && t.Split? && |t.ratios| > 1 && t.ratios[1] == 0 && !Fits(t, area, cfg)
  {
    hide Sum, Sound, Leaves, RunOps, LeafSeq, Fits, Halvings;
    var ws, panes := HalvingsLead(n);
    FirstWeightEnds(n - 1);
    var t := Row(ws, panes);
    RowWhole(ws, panes);
    if Fits(t, area, cfg) { FittingHasWeight(t, area, cfg, [], 1); }
  }

  lemma RowWhole(ws: seq<U16>, panes: seq<U32>)
    requires GoodRow(ws, panes) && |panes| <= U16_MAX
    ensures Arity(Row(ws, panes)) && Positive(Row(ws, panes))
  {
    hide Sum;
  }
}
