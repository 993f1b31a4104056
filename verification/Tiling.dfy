/** Exactly when panes and strips tile the area, and what they still do when they do not. */
module Tiling {
  import opened Widths
  import opened Apportionment
  import opened Layout

  /** The same configuration without a minimum size: panes then fill their slots. */
  function Unclamped(cfg: Config): Config {
    cfg.(minCols := 0, minRows := 0)
  }

  function Clamped(r: PaneRect, cfg: Config): PaneRect {
    r.(area := r.area.(cols := Max(r.area.cols, cfg.minCols), rows := Max(r.area.rows, cfg.minRows)))
  }

  predicate BigEnough(r: PaneRect, cfg: Config) {
    r.area.cols >= cfg.minCols && r.area.rows >= cfg.minRows
  }

  function ClampAll(slots: seq<PaneRect>, cfg: Config): (r: seq<PaneRect>)
    ensures |r| == |slots|
  {
    seq(|slots|, k requires 0 <= k < |slots| => Clamped(slots[k], cfg))
  }

  predicate AllBig(slots: seq<PaneRect>, cfg: Config) {
    forall k :: 0 <= k < |slots| ==> BigEnough(slots[k], cfg)
  }

  lemma ClampConcat(a: seq<PaneRect>, b: seq<PaneRect>, cfg: Config)
    ensures ClampAll(a + b, cfg) == ClampAll(a, cfg) + ClampAll(b, cfg)
    ensures AllBig(a + b, cfg) <==> AllBig(a, cfg) && AllBig(b, cfg)
  {
    hide BigEnough, Clamped;
    if AllBig(a + b, cfg) {
      assert forall k :: 0 <= k < |a| ==> a[k] == (a + b)[k];
      assert forall k :: 0 <= k < |b| ==> b[k] == (a + b)[|a| + k];
    }
  }

  /** Panes are their slots, clamped; and a layout fits exactly when its gutters do and every
      slot reaches the minimum. */
  lemma {:induction false} ClampedSlots(node: LayoutNode, area: Area, cfg: Config)
    requires Arity(node)
    ensures var slots := Resolve(node, area, Unclamped(cfg));
      && Resolve(node, area, cfg) == ClampAll(slots, cfg)
      && (Fits(node, area, cfg) <==> Fits(node, area, Unclamped(cfg)) && AllBig(slots, cfg))
    decreases node
  {
    if node.Split? {
      hide ClampAll, AllBig;
      var es := ChildExtents(node.dir, node.ratios, area, cfg);
      assert es == ChildExtents(node.dir, node.ratios, area, Unclamped(cfg));
      ClampedSlotsAll(node.children, node.dir, es, area, cfg);
    } else {
      var slot := PaneRect(node.paneIndex, area);
      assert Resolve(node, area, Unclamped(cfg)) == [slot] && [slot][0] == slot;
    }
  }

  lemma {:induction false} ClampedSlotsAll(children: seq<LayoutNode>, dir: SplitDir, es: seq<Extent>, area: Area,
                                           cfg: Config)
    requires |es| == |children| && forall c :: c in children ==> Arity(c)
    ensures var slots := ResolveAll(children, dir, es, area, Unclamped(cfg));
      && ResolveAll(children, dir, es, area, cfg) == ClampAll(slots, cfg)
      && (FitsAll(children, dir, es, area, cfg)
          <==> FitsAll(children, dir, es, area, Unclamped(cfg)) && AllBig(slots, cfg))
    decreases children
  {
    if children != [] {
      hide Resolve, Fits, ClampAll, AllBig;
      var first := Along(dir, area, es[0]);
      ClampedSlots(children[0], first, cfg);
      ClampedSlotsAll(children[1..], dir, es[1..], area, cfg);
      ClampConcat(Resolve(children[0], first, Unclamped(cfg)),
                  ResolveAll(children[1..], dir, es[1..], area, Unclamped(cfg)), cfg);
    }
  }

  /** Larger panes cover no cell less often. */
  lemma {:induction false} MoreHits(panes: seq<PaneRect>, slots: seq<PaneRect>, x: int, y: int)
    requires |panes| == |slots|
    requires forall k :: 0 <= k < |slots| ==> Contains(slots[k].area, x, y) ==> Contains(panes[k].area, x, y)
    ensures PaneHits(panes, x, y) >= PaneHits(slots, x, y)
    ensures (exists k :: 0 <= k < |slots| && Contains(panes[k].area, x, y) && !Contains(slots[k].area, x, y))
      ==> PaneHits(panes, x, y) > PaneHits(slots, x, y)
  {
    hide Contains;
    if slots != [] {
      MoreHits(panes[1..], slots[1..], x, y);
      forall k | 0 < k < |slots| && Contains(panes[k].area, x, y) && !Contains(slots[k].area, x, y)
        ensures PaneHits(panes, x, y) > PaneHits(slots, x, y)
      {
        assert panes[k] == panes[1..][k - 1] && slots[k] == slots[1..][k - 1];
      }
    }
  }

  /** With no gutters and no minimum every layout fits every area. */
  lemma {:induction false} AlwaysFits(node: LayoutNode, area: Area)
    requires Arity(node) && Positive(node)
    ensures Fits(node, area, Config(0, 0, 0, 0))
    decreases node
  {
    if node.Split? {
      AlwaysFitsAll(node.children, node.dir, ChildExtents(node.dir, node.ratios, area, Config(0, 0, 0, 0)), area);
    }
  }

  lemma {:induction false} AlwaysFitsAll(children: seq<LayoutNode>, dir: SplitDir, es: seq<Extent>, area: Area)
    requires |es| == |children| && forall c :: c in children ==> Arity(c) && Positive(c)
    ensures FitsAll(children, dir, es, area, Config(0, 0, 0, 0))
    decreases children
  {
    hide Fits;
    if children != [] {
      AlwaysFits(children[0], Along(dir, area, es[0]));
      AlwaysFitsAll(children[1..], dir, es[1..], area);
    }
  }

  ghost predicate TilesExactly(node: LayoutNode, area: Area, cfg: Config)
    requires Arity(node)
  {
    forall x, y :: PaneHits(Resolve(node, area, cfg), x, y) + StripHits(Dividers(node, [], area, cfg), x, y)
      == Count(Contains(area, x, y))
  }

  /** Panes and strips tile the area exactly if and only if the gutters fit and no pane's slot is
      under the minimum size: gutters that do not fit leave some slot empty, and a clamped pane
      always covers a cell too many. */
  lemma TilesIffFits(node: LayoutNode, area: Area, cfg: Config)
    requires Arity(node) && Positive(node) && InRange(area) && cfg.minCols > 0 && cfg.minRows > 0
    ensures TilesExactly(node, area, cfg) <==> Fits(node, area, cfg)
  {
    hide Resolve, Dividers, Fits, Positive, PaneHits, Contains;
    if Fits(node, area, cfg) {
      forall x, y
        ensures PaneHits(Resolve(node, area, cfg), x, y) + StripHits(Dividers(node, [], area, cfg), x, y)
             == Count(Contains(area, x, y))
      {
        ExactPartition(node, [], area, cfg, x, y);
      }
    } else {
      var x, y := CellTooMany(node, area, cfg);
    }
  }

  lemma CellTooMany(node: LayoutNode, area: Area, cfg: Config) returns (x: int, y: int)
    requires Arity(node) && Positive(node) && InRange(area) && cfg.minCols > 0 && cfg.minRows > 0
    requires !Fits(node, area, cfg)
    ensures PaneHits(Resolve(node, area, cfg), x, y) + StripHits(Dividers(node, [], area, cfg), x, y)
          > Count(Contains(area, x, y))
  {
    hide Resolve, Dividers, Fits, Positive, PaneHits;
    ClampedSlots(node, area, cfg);
    var panes, slots := Resolve(node, area, cfg), Resolve(node, area, Unclamped(cfg));
    if AllBig(slots, cfg) { BigMeansFits(node, area, cfg); }
    var k :| 0 <= k < |slots| && !BigEnough(slots[k], cfg);
    var s := slots[k].area;
    x := if s.cols < cfg.minCols then s.col + s.cols else s.col;
    y := if s.cols < cfg.minCols then s.row else s.row + s.rows;
    assert Contains(panes[k].area, x, y) && !Contains(s, x, y);
    MoreHits(panes, slots, x, y);
    SameDividers(node, [], area, cfg);
    if Contains(area, x, y) { Covers(node, [], area, Unclamped(cfg), x, y); }
  }

  // ----- gutters that do not fit

  /** Nothing to share leaves nothing for anyone. */
  lemma NoCells(total: U16, ratios: seq<U16>, gutter: U16)
    requires 0 < |ratios| <= U16_MAX && Sum(ratios) > 0 && Avail(total, |ratios|, gutter) == 0
    ensures forall i :: 0 <= i < |ratios| ==> Lens(total, ratios, gutter)[i] == 0
  {
    hide Alloc, Sum;
    ExactSumIff(0, ratios);
    ZeroSum(Lens(total, ratios, gutter));
  }

  lemma {:induction false} ZeroSum(s: seq<nat>)
    requires Sum(s) == 0
    ensures forall i :: 0 <= i < |s| ==> s[i] == 0
  {
    if s != [] { ZeroSum(s[..|s| - 1]); }
  }

  /** Children of a split with no cells to share are empty along its axis. */
  lemma EmptyExtents(dir: SplitDir, ratios: seq<U16>, area: Area, cfg: Config)
    requires 0 < |ratios| <= U16_MAX && Sum(ratios) > 0
    requires Avail(AxisLen(dir, area), |ratios|, Gutter(dir, cfg)) == 0
    ensures forall k :: 0 <= k < |ratios| ==> ChildExtents(dir, ratios, area, cfg)[k].1 == 0
  {
    hide Alloc, Sum, Place;
    var lens := Lens(AxisLen(dir, area), ratios, Gutter(dir, cfg));
    NoCells(AxisLen(dir, area), ratios, Gutter(dir, cfg));
    forall k | 0 <= k < |ratios| ensures ChildExtents(dir, ratios, area, cfg)[k].1 == 0 {
      PlaceLens(AxisStart(dir, area), lens, Gutter(dir, cfg), k);
    }
  }

  /** An area empty along an axis has only slots empty along it, and at least one. */
  lemma {:induction false} FlatSlots(node: LayoutNode, area: Area, cfg: Config, dir: SplitDir)
    requires Arity(node) && Positive(node) && AxisLen(dir, area) == 0
    ensures var slots := Resolve(node, area, Unclamped(cfg));
      slots != [] && forall k :: 0 <= k < |slots| ==> AxisLen(dir, slots[k].area) == 0
    decreases node
  {
    if node.Split? {
      var es := ChildExtents(node.dir, node.ratios, area, Unclamped(cfg));
      assert node.ratios != [];
      if node.dir == dir { EmptyExtents(dir, node.ratios, area, Unclamped(cfg)); }
      FlatSlotsAll(node.children, node.dir, es, area, cfg, dir);
    }
  }

  lemma {:induction false} FlatSlotsAll(children: seq<LayoutNode>, split: SplitDir, es: seq<Extent>, area: Area,
                                        cfg: Config, dir: SplitDir)
    requires |es| == |children| && forall c :: c in children ==> Arity(c) && Positive(c)
    requires if split == dir then forall k :: 0 <= k < |es| ==> es[k].1 == 0 else AxisLen(dir, area) == 0
    ensures var slots := ResolveAll(children, split, es, area, Unclamped(cfg));
      (children != [] ==> slots != []) && forall k :: 0 <= k < |slots| ==> AxisLen(dir, slots[k].area) == 0
    decreases children
  {
    hide Resolve, Positive;
    if children != [] {
      FlatSlots(children[0], Along(split, area, es[0]), cfg, dir);
      FlatSlotsAll(children[1..], split, es[1..], area, cfg, dir);
    }
  }

  lemma FlatIsSmall(slots: seq<PaneRect>, cfg: Config, dir: SplitDir)
    requires slots != [] && AxisLen(dir, slots[0].area) == 0 && cfg.minCols > 0 && cfg.minRows > 0
    ensures !AllBig(slots, cfg)
  {
    assert !BigEnough(slots[0], cfg);
  }

  /** If every slot reaches a positive minimum, the gutters fit everywhere. */
  lemma {:induction false} BigMeansFits(node: LayoutNode, area: Area, cfg: Config)
    requires Arity(node) && Positive(node) && cfg.minCols > 0 && cfg.minRows > 0
    requires AllBig(Resolve(node, area, Unclamped(cfg)), cfg)
    ensures Fits(node, area, Unclamped(cfg))
    decreases node
  {
    if node.Split? {
      var dir, ratios := node.dir, node.ratios;
      var es := ChildExtents(dir, ratios, area, Unclamped(cfg));
      assert ratios != [];
      if (|ratios| - 1) * Gutter(dir, cfg) > AxisLen(dir, area) {
        EmptyExtents(dir, ratios, area, Unclamped(cfg));
        FlatSlotsAll(node.children, dir, es, area, cfg, dir);
        FlatIsSmall(Resolve(node, area, Unclamped(cfg)), cfg, dir);
        assert false;
      }
      BigMeansFitsAll(node.children, dir, es, area, cfg);
    }
  }

  lemma {:induction false} BigMeansFitsAll(children: seq<LayoutNode>, dir: SplitDir, es: seq<Extent>, area: Area,
                                           cfg: Config)
    requires |es| == |children| && forall c :: c in children ==> Arity(c) && Positive(c)
    requires cfg.minCols > 0 && cfg.minRows > 0
    requires AllBig(ResolveAll(children, dir, es, area, Unclamped(cfg)), cfg)
    ensures FitsAll(children, dir, es, area, Unclamped(cfg))
    decreases children
  {
    hide Resolve, Fits, Positive, AllBig, ClampAll;
    if children != [] {
      var first := Along(dir, area, es[0]);
      ClampConcat(Resolve(children[0], first, Unclamped(cfg)),
                  ResolveAll(children[1..], dir, es[1..], area, Unclamped(cfg)), cfg);
      BigMeansFits(children[0], first, cfg);
      BigMeansFitsAll(children[1..], dir, es[1..], area, cfg);
    }
  }

  // ----- no cell is ever left out

  /** Whether or not anything fits, every cell of the area lies in some pane or strip. */
  lemma {:induction false} Covers(node: LayoutNode, path: seq<nat>, area: Area, cfg: Config, x: int, y: int)
    requires Arity(node) && Positive(node) && InRange(area) && Contains(area, x, y)
    ensures PaneHits(Resolve(node, area, cfg), x, y) + StripHits(Dividers(node, path, area, cfg), x, y) >= 1
    decreases node
  {
    if node.Split? {
      hide Sum, StripHits, PaneHits, Chain, Place, Lens, Boundaries, Contains;
      var dir, ratios := node.dir, node.ratios;
      var es := ChildExtents(dir, ratios, area, cfg);
      var start, total, gutter := AxisStart(dir, area), AxisLen(dir, area), Gutter(dir, cfg);
      SomeRatio(ratios);
      CellWithin(dir, area, x, y);
      if (|ratios| - 1) * gutter <= total {
        SplitExtentsChain(node, area, cfg);
        CoversAll(node.children, 0, dir, es, path, area, cfg, x, y);
      } else {
        NoCells(total, ratios, gutter);
        StripsCover(path, dir, 0, start, Lens(total, ratios, gutter), area, cfg, x, y);
      }
      StripHitsConcat(Boundaries(path, dir, 0, es, area, cfg),
                      DividersAll(node.children, 0, dir, es, path, area, cfg), x, y);
    } else {
      var rect := Resolve(node, area, cfg)[0];
      assert Resolve(node, area, cfg) == [rect] && Contains(rect.area, x, y);
    }
  }

  /** Gutters between empty children follow one another without gap. */
  lemma {:induction false} StripsCover(path: seq<nat>, dir: SplitDir, at: nat, pos: U16, lens: seq<U16>, area: Area,
                                       cfg: Config, x: int, y: int)
    requires forall i :: 0 <= i < |lens| ==> lens[i] == 0
    requires Contains(area, x, y) && InRange(area) && pos <= AxisCell(dir, x, y)
    requires AxisCell(dir, x, y) < pos + (|lens| - 1) * Gutter(dir, cfg)
    ensures StripHits(Boundaries(path, dir, at, Place(pos, lens, Gutter(dir, cfg)), area, cfg), x, y) >= 1
    decreases |lens|
  {
    hide Contains, Boundaries, StripHits;
    var g, u := Gutter(dir, cfg), AxisCell(dir, x, y);
    NegativeSpan(|lens| - 1, g);
    var es := Place(pos, lens, g);
    var next := SatAdd(SatAdd(pos, lens[0]), g);
    assert es[1..] == Place(next, lens[1..], g);
    BoundaryHits(path, dir, at, es, area, cfg, x, y);
    if u < pos + g {
      InStrip(dir, area, pos, g, x, y);
    } else {
      CellBelow(dir, area, x, y);
      Distribute(g, |lens| - 2, 1);
      StripsCover(path, dir, at + 1, next, lens[1..], area, cfg, x, y);
    }
  }

  lemma NegativeSpan(n: int, g: nat)
    ensures n <= 0 ==> n * g <= 0
  {}

  lemma InStrip(dir: SplitDir, area: Area, pos: U16, g: U16, x: int, y: int)
    requires Contains(area, x, y) && pos <= AxisCell(dir, x, y) < pos + g
    ensures Contains(Along(dir, area, (pos, g)), x, y)
  {}

  lemma CellWithin(dir: SplitDir, area: Area, x: int, y: int)
    requires Contains(area, x, y)
    ensures AxisStart(dir, area) <= AxisCell(dir, x, y) < AxisStart(dir, area) + AxisLen(dir, area)
  {}

  lemma CellBelow(dir: SplitDir, area: Area, x: int, y: int)
    requires Contains(area, x, y) && InRange(area)
    ensures AxisCell(dir, x, y) < U16_MAX
  {}

  lemma {:induction false} CoversAll(children: seq<LayoutNode>, at: nat, dir: SplitDir, es: seq<Extent>,
                                     path: seq<nat>, area: Area, cfg: Config, x: int, y: int)
    requires |es| == |children| && forall c :: c in children ==> Arity(c) && Positive(c)
    requires InRange(area) && Contains(area, x, y)
    requires Chain(es, Gutter(dir, cfg), AxisStart(dir, area) + AxisLen(dir, area)) && es[0].0 <= AxisCell(dir, x, y)
    ensures PaneHits(ResolveAll(children, dir, es, area, cfg), x, y)
          + StripHits(DividersAll(children, at, dir, es, path, area, cfg), x, y)
          + StripHits(Boundaries(path, dir, at, es, area, cfg), x, y) >= 1
    decreases children
  {
    hide Resolve, Dividers, Positive, Boundaries, PaneHits, StripHits;
    var first, u := Along(dir, area, es[0]), AxisCell(dir, x, y);
    PaneHitsConcat(Resolve(children[0], first, cfg), ResolveAll(children[1..], dir, es[1..], area, cfg), x, y);
    StripHitsConcat(Dividers(children[0], path + [at], first, cfg),
                    DividersAll(children[1..], at + 1, dir, es[1..], path, area, cfg), x, y);
    BoundaryHits(path, dir, at, es, area, cfg, x, y);
    if u < es[0].0 + es[0].1 {
      Covers(children[0], path + [at], first, cfg, x, y);
    } else if u >= es[1].0 {
      CoversAll(children[1..], at + 1, dir, es[1..], path, area, cfg, x, y);
    }
  }

  lemma {:induction false} SameDividers(node: LayoutNode, path: seq<nat>, area: Area, cfg: Config)
    requires Arity(node)
    ensures Dividers(node, path, area, cfg) == Dividers(node, path, area, Unclamped(cfg))
    decreases node
  {
    if node.Split? {
      var es := ChildExtents(node.dir, node.ratios, area, cfg);
      SameBoundaries(path, node.dir, 0, es, area, cfg);
      SameDividersAll(node.children, 0, node.dir, es, path, area, cfg);
    }
  }

  lemma {:induction false} SameBoundaries(path: seq<nat>, dir: SplitDir, at: nat, es: seq<Extent>, area: Area,
                                          cfg: Config)
    ensures Boundaries(path, dir, at, es, area, cfg) == Boundaries(path, dir, at, es, area, Unclamped(cfg))
    decreases |es|
  {
    if |es| >= 2 { SameBoundaries(path, dir, at + 1, es[1..], area, cfg); }
  }

  lemma {:induction false} SameDividersAll(children: seq<LayoutNode>, at: nat, dir: SplitDir, es: seq<Extent>,
                                           path: seq<nat>, area: Area, cfg: Config)
    requires |es| == |children| && forall c :: c in children ==> Arity(c)
    ensures DividersAll(children, at, dir, es, path, area, cfg)
         == DividersAll(children, at, dir, es, path, area, Unclamped(cfg))
    decreases children
  {
    hide Dividers;
    if children != [] {
      SameDividers(children[0], path + [at], Along(dir, area, es[0]), cfg);
      SameDividersAll(children[1..], at + 1, dir, es[1..], path, area, cfg);
    }
  }
}
