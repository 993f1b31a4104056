/** What lies beyond the sides of a pane in a resolved layout. A side is an axis and an end of it:
    `low` is left or top, otherwise right or bottom. */
module Borders {
  import opened Widths
  import opened Apportionment
  import opened Layout

  function Across(dir: SplitDir): SplitDir {
    if dir.Horizontal? then Vertical else Horizontal
  }

  function AxisEnd(dir: SplitDir, area: Area): int {
    AxisStart(dir, area) + AxisLen(dir, area)
  }

  /** How often panes cover the cell at `u` on `dir`'s axis and `v` on the other. */
  function PanesAt(rects: seq<PaneRect>, dir: SplitDir, u: int, v: int): nat {
    PaneHits(rects, AxisCell(dir, u, v), AxisCell(Across(dir), u, v))
  }

  function StripsAt(ds: seq<Divider>, dir: SplitDir, u: int, v: int): nat {
    StripHits(ds, AxisCell(dir, u, v), AxisCell(Across(dir), u, v))
  }

  predicate Touches(r: Area, area: Area, dir: SplitDir, low: bool) {
    if low then AxisStart(dir, r) == AxisStart(dir, area) else AxisEnd(dir, r) == AxisEnd(dir, area)
  }

  /** The last cell of the area on that side. */
  function EdgeCell(dir: SplitDir, area: Area, low: bool): int {
    if low then AxisStart(dir, area) else AxisEnd(dir, area) - 1
  }

  /** The `d`-th cell beyond the side of `r`, counting from 0. */
  function Beyond(dir: SplitDir, r: Area, low: bool, d: int): int {
    if low then AxisStart(dir, r) - 1 - d else AxisEnd(dir, r) + d
  }

  /** No pane is ever emitted under the configured minimum. */
  lemma {:induction false} MinimumKept(node: LayoutNode, area: Area, cfg: Config)
    requires Arity(node)
    ensures forall r :: r in Resolve(node, area, cfg) ==> r.area.cols >= cfg.minCols && r.area.rows >= cfg.minRows
    decreases node
  {
    if node.Split? {
      MinimumKeptAll(node.children, node.dir, ChildExtents(node.dir, node.ratios, area, cfg), area, cfg);
    }
  }

  lemma {:induction false} MinimumKeptAll(children: seq<LayoutNode>, dir: SplitDir, es: seq<Extent>, area: Area,
                                          cfg: Config)
    requires |es| == |children| && forall c :: c in children ==> Arity(c)
    ensures forall r :: r in ResolveAll(children, dir, es, area, cfg) ==>
        r.area.cols >= cfg.minCols && r.area.rows >= cfg.minRows
    decreases children
  {
    hide Resolve;
    if children != [] {
      MinimumKept(children[0], Along(dir, area, es[0]), cfg);
      MinimumKeptAll(children[1..], dir, es[1..], area, cfg);
    }
  }

  /** A layout fits where it is given, so there is room. */
  predicate Fitting(node: LayoutNode, area: Area, cfg: Config) {
    Arity(node) && Positive(node) && InRange(area) && Fits(node, area, cfg) && cfg.minCols > 0 && cfg.minRows > 0
  }

  // ----- the children of a split

  lemma {:induction false} ChainAt(es: seq<Extent>, gutter: nat, end: nat, k: nat)
    requires Chain(es, gutter, end) && k < |es|
    ensures es[0].0 <= es[k].0 && es[k].0 as int + es[k].1 <= end
    ensures if k + 1 < |es| then es[k + 1].0 == es[k].0 as int + es[k].1 + gutter else es[k].0 as int + es[k].1 == end
    decreases k
  {
    if k > 0 { ChainAt(es[1..], gutter, end, k - 1); }
  }

  /** Where child `k` of a split goes. */
  function ChildArea(node: LayoutNode, area: Area, cfg: Config, k: nat): Area
    requires Arity(node) && node.Split? && k < |node.children|
  {
    Along(node.dir, area, ChildExtents(node.dir, node.ratios, area, cfg)[k])
  }

  lemma AreaAlong(node: LayoutNode, area: Area, cfg: Config, k: nat)
    requires Arity(node) && node.Split? && k < |node.children|
    ensures var es, child := ChildExtents(node.dir, node.ratios, area, cfg), ChildArea(node, area, cfg, k);
      && AxisStart(node.dir, child) == es[k].0 && AxisLen(node.dir, child) == es[k].1
      && AxisStart(Across(node.dir), child) == AxisStart(Across(node.dir), area)
      && AxisLen(Across(node.dir), child) == AxisLen(Across(node.dir), area)
  {
    hide ChildExtents, Arity;
  }

  lemma {:induction false} FitsAt(children: seq<LayoutNode>, dir: SplitDir, es: seq<Extent>, area: Area, cfg: Config,
                                  k: nat)
    requires |es| == |children| && forall c :: c in children ==> Arity(c)
    requires FitsAll(children, dir, es, area, cfg) && k < |children|
    ensures Fits(children[k], Along(dir, area, es[k]), cfg)
    decreases k
  {
    hide Fits;
    if k > 0 { FitsAt(children[1..], dir, es[1..], area, cfg, k - 1); }
  }

  /** The children of a fitting split form a chain along its axis. */
  lemma SplitChain(node: LayoutNode, area: Area, cfg: Config)
    requires Fitting(node, area, cfg) && node.Split?
    ensures |node.ratios| == |node.children| <= U16_MAX && node.children != []
    ensures var es := ChildExtents(node.dir, node.ratios, area, cfg);
      Chain(es, Gutter(node.dir, cfg), AxisEnd(node.dir, area)) && es[0].0 == AxisStart(node.dir, area)
  {
    hide Sum, FitsAll, ChildExtents, Chain;
    SomeRatio(node.ratios);
    SplitExtentsChain(node, area, cfg);
  }

  /** A child of a fitting split fits in its own area, which lies within the split's; next to it come
      a gutter and its neighbour, or the end. */
  lemma ChildFits(node: LayoutNode, area: Area, cfg: Config, k: nat)
    requires Fitting(node, area, cfg) && node.Split? && k < |node.children|
    ensures var dir, child := node.dir, ChildArea(node, area, cfg, k);
      && Fitting(node.children[k], child, cfg)
      && AxisStart(dir, area) <= AxisStart(dir, child) && AxisEnd(dir, child) <= AxisEnd(dir, area)
      && AxisStart(Across(dir), child) == AxisStart(Across(dir), area)
      && AxisLen(Across(dir), child) == AxisLen(Across(dir), area)
      && (k == 0 ==> AxisStart(dir, child) == AxisStart(dir, area))
      && if k + 1 < |node.children|
         then AxisStart(dir, ChildArea(node, area, cfg, k + 1)) == AxisEnd(dir, child) + Gutter(dir, cfg)
         else AxisEnd(dir, child) == AxisEnd(dir, area)
  {
    hide Sum, Fits, ChildExtents, ChildArea, Chain;
    var dir := node.dir;
    var es := ChildExtents(dir, node.ratios, area, cfg);
    SplitChain(node, area, cfg);
    ChainAt(es, Gutter(dir, cfg), AxisEnd(dir, area), k);
    AreaAlong(node, area, cfg, k);
    if k + 1 < |node.children| { AreaAlong(node, area, cfg, k + 1); }
    ChildFitting(node, area, cfg, k);
  }

  lemma ChildFitting(node: LayoutNode, area: Area, cfg: Config, k: nat)
    requires Fitting(node, area, cfg) && node.Split? && k < |node.children|
    requires InRange(ChildArea(node, area, cfg, k))
    ensures Fitting(node.children[k], ChildArea(node, area, cfg, k), cfg)
  {
    hide Sum, Fits, ChildExtents;
    FitsSplit(node, area, cfg);
    FitsAt(node.children, node.dir, ChildExtents(node.dir, node.ratios, area, cfg), area, cfg, k);
  }

  lemma FitsSplit(node: LayoutNode, area: Area, cfg: Config)
    requires Arity(node) && node.Split? && Fits(node, area, cfg)
    ensures FitsAll(node.children, node.dir, ChildExtents(node.dir, node.ratios, area, cfg), area, cfg)
  {}

  lemma {:induction false} RoomInside(node: LayoutNode, area: Area, cfg: Config)
    requires Fitting(node, area, cfg)
    ensures area.cols > 0 && area.rows > 0
    decreases node
  {
    if node.Split? {
      hide Fits, Arity, Positive, ChildArea, ChildExtents, Chain;
      SplitChain(node, area, cfg);
      ChildFits(node, area, cfg, 0);
      RoomInside(node.children[0], ChildArea(node, area, cfg, 0), cfg);
    }
  }

  /** Whatever a child's panes and strips cover, the split's do. */
  lemma {:induction false} PanesOfChild(children: seq<LayoutNode>, dir: SplitDir, es: seq<Extent>, area: Area,
                                        cfg: Config, k: nat, x: int, y: int)
    requires |es| == |children| && (forall c :: c in children ==> Arity(c)) && k < |children|
    ensures PaneHits(ResolveAll(children, dir, es, area, cfg), x, y)
         >= PaneHits(Resolve(children[k], Along(dir, area, es[k]), cfg), x, y)
    decreases k
  {
    hide Resolve, PaneHits;
    PaneHitsConcat(Resolve(children[0], Along(dir, area, es[0]), cfg),
                   ResolveAll(children[1..], dir, es[1..], area, cfg), x, y);
    if k > 0 { PanesOfChild(children[1..], dir, es[1..], area, cfg, k - 1, x, y); }
  }

  lemma {:induction false} StripsOfChild(children: seq<LayoutNode>, at: nat, dir: SplitDir, es: seq<Extent>,
                                         path: seq<nat>, area: Area, cfg: Config, k: nat, x: int, y: int)
    requires |es| == |children| && (forall c :: c in children ==> Arity(c)) && k < |children|
    ensures StripHits(DividersAll(children, at, dir, es, path, area, cfg), x, y)
         >= StripHits(Dividers(children[k], path + [at + k], Along(dir, area, es[k]), cfg), x, y)
    decreases k
  {
    hide Dividers, StripHits;
    StripHitsConcat(Dividers(children[0], path + [at], Along(dir, area, es[0]), cfg),
                    DividersAll(children[1..], at + 1, dir, es[1..], path, area, cfg), x, y);
    if k > 0 {
      StripsOfChild(children[1..], at + 1, dir, es[1..], path, area, cfg, k - 1, x, y);
      assert at + 1 + (k - 1) == at + k;
    }
  }

  lemma {:induction false} StripBetween(path: seq<nat>, dir: SplitDir, at: nat, es: seq<Extent>, area: Area,
                                        cfg: Config, end: U16, b: nat, x: int, y: int)
    requires Chain(es, Gutter(dir, cfg), end) && b + 1 < |es|
    requires Contains(area, x, y) && es[b].0 + es[b].1 <= AxisCell(dir, x, y) < es[b + 1].0
    ensures StripHits(Boundaries(path, dir, at, es, area, cfg), x, y) >= 1
    decreases b
  {
    hide Boundaries, StripHits;
    BoundaryHits(path, dir, at, es, area, cfg, x, y);
    if b > 0 { StripBetween(path, dir, at + 1, es[1..], area, cfg, end, b - 1, x, y); }
  }

  // ----- panes at the edge of an area

  /** A stretch `[v, w)` of an interval that no gutter can cover: longer than one, or reaching an end. */
  predicate Thick(v: int, w: int, from: int, to: int, gutter: nat) {
    from <= v < w <= to && (w - v > gutter || v == from || w == to)
  }

  /** Of such a stretch of an axis one child at least sees such a stretch. */
  lemma {:induction false} PickChild(es: seq<Extent>, gutter: nat, end: nat, v: int, w: int)
    returns (k: nat, from: int, upto: int)
    requires Chain(es, gutter, end) && forall k :: 0 <= k < |es| ==> es[k].1 > 0
    requires Thick(v, w, es[0].0, end, gutter)
    ensures k < |es| && v <= from && upto <= w && Thick(from, upto, es[k].0, es[k].0 as int + es[k].1, gutter)
    decreases |es|
  {
    var to := es[0].0 as int + es[0].1;
    if v < to {
      k, from, upto := 0, v, Min(w, to);
    } else {
      ChainAt(es[1..], gutter, end, 0);
      k, from, upto := PickChild(es[1..], gutter, end, Max(v, es[1].0), w);
      k := k + 1;
    }
  }

  /** The child that holds the edge of the area, or a thick stretch of it. */
  lemma ChildAtEdge(node: LayoutNode, area: Area, cfg: Config, dir: SplitDir, low: bool, v: int, w: int)
    returns (k: nat, from: int, upto: int)
    requires Fitting(node, area, cfg) && node.Split?
    requires Thick(v, w, AxisStart(Across(dir), area), AxisEnd(Across(dir), area), Gutter(Across(dir), cfg))
    ensures k < |node.children| && v <= from && upto <= w
    ensures var child := ChildArea(node, area, cfg, k);
      && Fitting(node.children[k], child, cfg) && EdgeCell(dir, child, low) == EdgeCell(dir, area, low)
      && Thick(from, upto, AxisStart(Across(dir), child), AxisEnd(Across(dir), child), Gutter(Across(dir), cfg))
  {
    hide Fits, Arity, Positive, ChildArea, ChildExtents, Chain;
    SplitChain(node, area, cfg);
    if node.dir == dir {
      k, from, upto := if low then 0 else |node.children| - 1, v, w;
    } else {
      var es := ChildExtents(node.dir, node.ratios, area, cfg);
      forall j | 0 <= j < |es| ensures es[j].1 > 0 { ChildRoom(node, area, cfg, j); }
      k, from, upto := PickChild(es, Gutter(node.dir, cfg), AxisEnd(node.dir, area), v, w);
      AreaAlong(node, area, cfg, k);
    }
    ChildFits(node, area, cfg, k);
  }

  lemma ChildRoom(node: LayoutNode, area: Area, cfg: Config, k: nat)
    requires Fitting(node, area, cfg) && node.Split? && k < |node.children|
    ensures |node.ratios| == |node.children| <= U16_MAX
    ensures ChildExtents(node.dir, node.ratios, area, cfg)[k].1 > 0
  {
    hide Fits, Positive, ChildArea, ChildExtents;
    ChildFits(node, area, cfg, k);
    RoomInside(node.children[k], ChildArea(node, area, cfg, k), cfg);
    AreaAlong(node, area, cfg, k);
  }

  /** Along the edge of an area, panes show up in every stretch that no gutter can cover. */
  lemma {:induction false} PaneAtEdge(node: LayoutNode, area: Area, cfg: Config, dir: SplitDir, low: bool, v: int,
                                      w: int)
    returns (c: int)
    requires Fitting(node, area, cfg)
    requires Thick(v, w, AxisStart(Across(dir), area), AxisEnd(Across(dir), area), Gutter(Across(dir), cfg))
    ensures v <= c < w && PanesAt(Resolve(node, area, cfg), dir, EdgeCell(dir, area, low), c) >= 1
    decreases node
  {
    if node.Leaf? {
      c := v;
      RoomInside(node, area, cfg);
      assert Resolve(node, area, cfg) == [PaneRect(node.paneIndex, area)];
    } else {
      hide Fitting, PaneHits, Resolve, ChildArea;
      var k, from, upto := ChildAtEdge(node, area, cfg, dir, low, v, w);
      var child := ChildArea(node, area, cfg, k);
      c := PaneAtEdge(node.children[k], child, cfg, dir, low, from, upto);
      var u := EdgeCell(dir, area, low);
      PanesOfSplit(node, area, cfg, k, AxisCell(dir, u, c), AxisCell(Across(dir), u, c));
    }
  }

  lemma PanesOfSplit(node: LayoutNode, area: Area, cfg: Config, k: nat, x: int, y: int)
    requires Arity(node) && node.Split? && k < |node.children|
    ensures PaneHits(Resolve(node, area, cfg), x, y)
         >= PaneHits(Resolve(node.children[k], ChildArea(node, area, cfg, k), cfg), x, y)
  {
    hide ChildExtents, PaneHits;
    PanesOfChild(node.children, node.dir, ChildExtents(node.dir, node.ratios, area, cfg), area, cfg, k, x, y);
  }

  lemma StripsOfSplit(node: LayoutNode, path: seq<nat>, area: Area, cfg: Config, k: nat, x: int, y: int)
    requires Arity(node) && node.Split? && k < |node.children|
    ensures StripHits(Dividers(node, path, area, cfg), x, y)
         >= StripHits(Dividers(node.children[k], path + [k], ChildArea(node, area, cfg, k), cfg), x, y)
    ensures StripHits(Dividers(node, path, area, cfg), x, y)
         >= StripHits(Boundaries(path, node.dir, 0, ChildExtents(node.dir, node.ratios, area, cfg), area, cfg), x, y)
  {
    hide ChildExtents, StripHits, Boundaries;
    var es := ChildExtents(node.dir, node.ratios, area, cfg);
    StripsOfChild(node.children, 0, node.dir, es, path, area, cfg, k, x, y);
    StripHitsConcat(Boundaries(path, node.dir, 0, es, area, cfg),
                    DividersAll(node.children, 0, node.dir, es, path, area, cfg), x, y);
  }

  // ----- what lies beyond a side of a pane

  /** Beyond the side of `r` there is a gutter all along, and just beyond the gutter some pane, unless
      a gutter across could hide behind all of the side. */
  ghost predicate Bordered(rects: seq<PaneRect>, ds: seq<Divider>, r: Area, dir: SplitDir, low: bool, cfg: Config) {
    && (forall d, v :: 0 <= d < Gutter(dir, cfg) && AxisStart(Across(dir), r) <= v < AxisEnd(Across(dir), r) ==>
          StripsAt(ds, dir, Beyond(dir, r, low, d), v) >= 1)
    && (AxisLen(Across(dir), r) > Gutter(Across(dir), cfg) ==>
          exists v :: AxisStart(Across(dir), r) <= v < AxisEnd(Across(dir), r)
            && PanesAt(rects, dir, Beyond(dir, r, low, Gutter(dir, cfg)), v) >= 1)
  }

  /** A pane stays inside the area it was resolved in. */
  lemma PaneInside(node: LayoutNode, area: Area, cfg: Config, r: PaneRect)
    requires Fitting(node, area, cfg) && r in Resolve(node, area, cfg)
    ensures r.area.cols > 0 && r.area.rows > 0
    ensures area.col <= r.area.col && r.area.col + r.area.cols <= area.col + area.cols
    ensures area.row <= r.area.row && r.area.row + r.area.rows <= area.row + area.rows
  {
    hide Resolve, Fits, Positive, Dividers;
    MinimumKept(node, area, cfg);
    var a := r.area;
    CellInside(node, area, cfg, r, a.col, a.row);
    CellInside(node, area, cfg, r, a.col + a.cols - 1, a.row + a.rows - 1);
  }

  lemma CellInside(node: LayoutNode, area: Area, cfg: Config, r: PaneRect, x: int, y: int)
    requires Fitting(node, area, cfg) && r in Resolve(node, area, cfg) && Contains(r.area, x, y)
    ensures Contains(area, x, y)
  {
    hide Resolve, Fits, Positive, Dividers;
    ExactPartition(node, [], area, cfg, x, y);
    SomeHit(Resolve(node, area, cfg), r, x, y);
  }

  lemma {:induction false} SomeHit(rects: seq<PaneRect>, r: PaneRect, x: int, y: int)
    requires r in rects && Contains(r.area, x, y)
    ensures PaneHits(rects, x, y) >= 1
  {
    if r != rects[0] { SomeHit(rects[1..], r, x, y); }
  }

  lemma {:induction false} WhichChild(children: seq<LayoutNode>, dir: SplitDir, es: seq<Extent>, area: Area,
                                      cfg: Config, r: PaneRect) returns (k: nat)
    requires |es| == |children| && (forall c :: c in children ==> Arity(c))
    requires r in ResolveAll(children, dir, es, area, cfg)
    ensures k < |children| && r in Resolve(children[k], Along(dir, area, es[k]), cfg)
    decreases children
  {
    hide Resolve;
    if r in Resolve(children[0], Along(dir, area, es[0]), cfg) {
      k := 0;
    } else {
      k := WhichChild(children[1..], dir, es[1..], area, cfg, r);
      k := k + 1;
    }
  }

  /** A pane that does not reach the side of the area is bordered there. */
  lemma {:induction false} PaneBordered(node: LayoutNode, path: seq<nat>, area: Area, cfg: Config, r: PaneRect,
                                        dir: SplitDir, low: bool)
    requires Fitting(node, area, cfg) && r in Resolve(node, area, cfg) && !Touches(r.area, area, dir, low)
    ensures Bordered(Resolve(node, area, cfg), Dividers(node, path, area, cfg), r.area, dir, low, cfg)
    decreases node
  {
    hide Fits, Arity, Positive, Bordered, ChildArea, Resolve, Dividers;
    if node.Leaf? {
      OnlyPane(node, area, cfg);
      assert false;
    }
    hide Touches, AxisStart, AxisLen, AxisEnd;
    var k := PaneOfChild(node, area, cfg, r);
    ChildFits(node, area, cfg, k);
    var child := ChildArea(node, area, cfg, k);
    if Touches(r.area, child, dir, low) {
      SideOfChild(node, area, cfg, k, r.area, dir, low);
      NextToSibling(node, path, area, cfg, k, r, low);
    } else {
      PaneBordered(node.children[k], path + [k], child, cfg, r, dir, low);
      BorderedMore(node, path, area, cfg, k, r.area, dir, low);
    }
  }

  /** A side of a child that is not a side of the split faces a sibling. */
  lemma SideOfChild(node: LayoutNode, area: Area, cfg: Config, k: nat, r: Area, dir: SplitDir, low: bool)
    requires Fitting(node, area, cfg) && node.Split? && k < |node.children|
    requires Touches(r, ChildArea(node, area, cfg, k), dir, low) && !Touches(r, area, dir, low)
    ensures node.dir == dir && if low then k > 0 else k + 1 < |node.children|
  {
    hide Fits, Arity, Positive, ChildArea;
    ChildFits(node, area, cfg, k);
  }

  lemma OnlyPane(node: LayoutNode, area: Area, cfg: Config)
    requires Fitting(node, area, cfg) && node.Leaf?
    ensures Resolve(node, area, cfg) == [PaneRect(node.paneIndex, area)]
  {}

  lemma PaneOfChild(node: LayoutNode, area: Area, cfg: Config, r: PaneRect) returns (k: nat)
    requires Arity(node) && node.Split? && r in Resolve(node, area, cfg)
    ensures k < |node.children| && Arity(node.children[k])
      && r in Resolve(node.children[k], ChildArea(node, area, cfg, k), cfg)
  {
    hide ChildExtents;
    k := WhichChild(node.children, node.dir, ChildExtents(node.dir, node.ratios, area, cfg), area, cfg, r);
  }

  /** What borders a pane within its child borders it in the split. */
  lemma BorderedMore(node: LayoutNode, path: seq<nat>, area: Area, cfg: Config, k: nat, r: Area, dir: SplitDir,
                     low: bool)
    requires Arity(node) && node.Split? && k < |node.children|
    requires var child := ChildArea(node, area, cfg, k);
      Bordered(Resolve(node.children[k], child, cfg), Dividers(node.children[k], path + [k], child, cfg),
               r, dir, low, cfg)
    ensures Bordered(Resolve(node, area, cfg), Dividers(node, path, area, cfg), r, dir, low, cfg)
  {
    hide Resolve, Dividers, PaneHits, StripHits, ChildArea;
    var across, child := Across(dir), ChildArea(node, area, cfg, k);
    forall d, v | 0 <= d < Gutter(dir, cfg) && AxisStart(across, r) <= v < AxisEnd(across, r)
      ensures StripsAt(Dividers(node, path, area, cfg), dir, Beyond(dir, r, low, d), v) >= 1
    {
      var u := Beyond(dir, r, low, d);
      assert StripsAt(Dividers(node.children[k], path + [k], child, cfg), dir, u, v) >= 1;
      StripsOfSplit(node, path, area, cfg, k, AxisCell(dir, u, v), AxisCell(across, u, v));
    }
    if AxisLen(across, r) > Gutter(across, cfg) {
      var u := Beyond(dir, r, low, Gutter(dir, cfg));
      var v :| AxisStart(across, r) <= v < AxisEnd(across, r)
        && PanesAt(Resolve(node.children[k], child, cfg), dir, u, v) >= 1;
      PanesOfSplit(node, area, cfg, k, AxisCell(dir, u, v), AxisCell(across, u, v));
      assert PanesAt(Resolve(node, area, cfg), dir, u, v) >= 1;
    }
  }

  /** A pane at the side of its child, with a sibling beyond. */
  lemma NextToSibling(node: LayoutNode, path: seq<nat>, area: Area, cfg: Config, k: nat, r: PaneRect, low: bool)
    requires Fitting(node, area, cfg) && node.Split?
    requires k < |node.children| && if low then k > 0 else k + 1 < |node.children|
    requires var child := ChildArea(node, area, cfg, k);
      Arity(node.children[k]) && r in Resolve(node.children[k], child, cfg) && Touches(r.area, child, node.dir, low)
    ensures Bordered(Resolve(node, area, cfg), Dividers(node, path, area, cfg), r.area, node.dir, low, cfg)
  {
    hide Fits, Arity, Positive, Resolve, Dividers, PaneHits, StripHits, ChildArea;
    var dir := node.dir;
    var across := Across(dir);
    var b, n := if low then k - 1 else k, if low then k - 1 else k + 1;
    ChildFits(node, area, cfg, k);
    ChildFits(node, area, cfg, n);
    PaneInside(node.children[k], ChildArea(node, area, cfg, k), cfg, r);
    var from, to := AxisStart(across, r.area), AxisEnd(across, r.area);
    forall d, v | 0 <= d < Gutter(dir, cfg) && from <= v < to
      ensures StripsAt(Dividers(node, path, area, cfg), dir, Beyond(dir, r.area, low, d), v) >= 1
    {
      GutterCell(node, path, area, cfg, b, Beyond(dir, r.area, low, d), v);
    }
    if to - from > Gutter(across, cfg) {
      var c := PaneAtEdge(node.children[n], ChildArea(node, area, cfg, n), cfg, dir, !low, from, to);
      var u := Beyond(dir, r.area, low, Gutter(dir, cfg));
      PanesOfSplit(node, area, cfg, n, AxisCell(dir, u, c), AxisCell(across, u, c));
      assert PanesAt(Resolve(node, area, cfg), dir, u, c) >= 1;
    }
  }

  /** Between two children every cell lies in a strip. */
  lemma GutterCell(node: LayoutNode, path: seq<nat>, area: Area, cfg: Config, b: nat, u: int, v: int)
    requires Fitting(node, area, cfg) && node.Split? && b + 1 < |node.children|
    requires AxisEnd(node.dir, ChildArea(node, area, cfg, b)) <= u
    requires u < AxisStart(node.dir, ChildArea(node, area, cfg, b + 1))
    requires AxisStart(Across(node.dir), area) <= v < AxisEnd(Across(node.dir), area)
    ensures StripsAt(Dividers(node, path, area, cfg), node.dir, u, v) >= 1
  {
    hide Fits, Positive, Dividers, StripHits, ChildArea, ChildExtents, Chain, Boundaries;
    var dir := node.dir;
    var x, y := AxisCell(dir, u, v), AxisCell(Across(dir), u, v);
    SplitChain(node, area, cfg);
    AreaAlong(node, area, cfg, b);
    AreaAlong(node, area, cfg, b + 1);
    ChildFits(node, area, cfg, b);
    ChildFits(node, area, cfg, b + 1);
    StripBetween(path, dir, 0, ChildExtents(dir, node.ratios, area, cfg), area, cfg, AxisEnd(dir, area), b, x, y);
    StripsOfSplit(node, path, area, cfg, b, x, y);
  }
}
