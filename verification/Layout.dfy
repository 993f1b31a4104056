/** The tiling-layout resolver: a ratio tree and an area give one rectangle per
    pane and one strip per divider. */
module Layout {
  import opened Widths
  import opened Apportionment

  datatype SplitDir = Horizontal | Vertical

  datatype LayoutNode =
    | Leaf(paneIndex: U32)
    | Split(dir: SplitDir, ratios: seq<U16>, children: seq<LayoutNode>)

  /** A rectangle of cells; `(col, row)` is the top-left corner. */
  datatype Area = Area(col: U16, row: U16, cols: U16, rows: U16)

  datatype PaneRect = PaneRect(paneIndex: U32, area: Area)

  datatype Config = Config(gutterCols: U16, gutterRows: U16, minCols: U16, minRows: U16)

  /** The boundary between `children[before]` and `children[before + 1]` of the
      split at `path`; `hit` is the gutter strip. */
  datatype Divider = Divider(path: seq<nat>, dir: SplitDir, before: nat, hit: Area,
                             pairStart: U16, pairLen: U16)

  /** Start and length of a child along its split's axis. */
  type Extent = (U16, U16)

  function Leaves(node: LayoutNode): seq<U32> {
    match node
    case Leaf(i) => [i]
    case Split(_, _, children) => LeavesAll(children)
  }

  function LeavesAll(children: seq<LayoutNode>): seq<U32> {
    if children == [] then [] else Leaves(children[0]) + LeavesAll(children[1..])
  }

  /** As many ratios as children, and no more than a `u16` can count. */
  predicate Arity(node: LayoutNode) {
    node.Split? ==>
      && |node.ratios| == |node.children| <= U16_MAX
      && forall c :: c in node.children ==> Arity(c)
  }

  /** No split has all ratios zero (so none is empty). */
  predicate Positive(node: LayoutNode) {
    node.Split? ==>
      && Sum(node.ratios) > 0
      && forall c :: c in node.children ==> Positive(c)
  }

  // ----- one axis

  function AxisStart(dir: SplitDir, area: Area): U16 {
    if dir.Horizontal? then area.col else area.row
  }

  function AxisLen(dir: SplitDir, area: Area): U16 {
    if dir.Horizontal? then area.cols else area.rows
  }

  /** The coordinate of a cell on `dir`'s axis. */
  function AxisCell(dir: SplitDir, x: int, y: int): int {
    if dir.Horizontal? then x else y
  }

  function Gutter(dir: SplitDir, cfg: Config): U16 {
    if dir.Horizontal? then cfg.gutterCols else cfg.gutterRows
  }

  /** `area` with its extent on `dir`'s axis replaced. */
  function Along(dir: SplitDir, area: Area, e: Extent): Area {
    if dir.Horizontal? then area.(col := e.0, cols := e.1) else area.(row := e.0, rows := e.1)
  }

  /** Cells left for the children once the gutters are taken out. */
  function Avail(total: U16, n: nat, gutter: U16): (a: U16)
    requires 0 < n <= U16_MAX
    ensures a <= total
  {
    SatSub(total, SatMul(n - 1, gutter))
  }

  function Lens(total: U16, ratios: seq<U16>, gutter: U16): (ls: seq<U16>)
    requires 0 < |ratios| <= U16_MAX
    ensures |ls| == |ratios|
  {
    var avail := Avail(total, |ratios|, gutter);
    RoundedFit(avail, ratios);
    Alloc(avail, ratios)
  }

  function Place(start: U16, lens: seq<U16>, gutter: U16): (es: seq<Extent>)
    ensures |es| == |lens|
    decreases |lens|
  {
    if lens == [] then []
    else [(start, lens[0])] + Place(SatAdd(SatAdd(start, lens[0]), gutter), lens[1..], gutter)
  }

  /** What `child_extents` computes. */
  function Extents(start: U16, total: U16, ratios: seq<U16>, gutter: U16): (es: seq<Extent>)
    requires |ratios| <= U16_MAX
    ensures |es| == |ratios|
  {
    if ratios == [] then [] else Place(start, Lens(total, ratios, gutter), gutter)
  }

  function ChildExtents(dir: SplitDir, ratios: seq<U16>, area: Area, cfg: Config): (es: seq<Extent>)
    requires |ratios| <= U16_MAX
    ensures |es| == |ratios|
  {
    Extents(AxisStart(dir, area), AxisLen(dir, area), ratios, Gutter(dir, cfg))
  }

  // ----- the tree

  /** What `resolve_into` appends for `node` in `area`. */
  function Resolve(node: LayoutNode, area: Area, cfg: Config): seq<PaneRect>
    requires Arity(node)
    decreases node
  {
    match node
    case Leaf(i) =>
      [PaneRect(i, area.(cols := Max(area.cols, cfg.minCols), rows := Max(area.rows, cfg.minRows)))]
    case Split(dir, ratios, children) =>
      ResolveAll(children, dir, ChildExtents(dir, ratios, area, cfg), area, cfg)
  }

  function ResolveAll(children: seq<LayoutNode>, dir: SplitDir, es: seq<Extent>, area: Area, cfg: Config): seq<PaneRect>
    requires |es| == |children| && forall c :: c in children ==> Arity(c)
    decreases children
  {
    if children == [] then []
    else Resolve(children[0], Along(dir, area, es[0]), cfg) + ResolveAll(children[1..], dir, es[1..], area, cfg)
  }

  /** What `dividers_into` appends for `node` in `area`. */
  function Dividers(node: LayoutNode, path: seq<nat>, area: Area, cfg: Config): seq<Divider>
    requires Arity(node)
    decreases node
  {
    match node
    case Leaf(_) => []
    case Split(dir, ratios, children) =>
      var es := ChildExtents(dir, ratios, area, cfg);
      Boundaries(path, dir, 0, es, area, cfg) + DividersAll(children, 0, dir, es, path, area, cfg)
  }

  /** One divider per pair of neighbours in `es`. */
  function Boundaries(path: seq<nat>, dir: SplitDir, before: nat, es: seq<Extent>, area: Area, cfg: Config)
    : (ds: seq<Divider>)
    ensures |ds| == if es == [] then 0 else |es| - 1
    decreases |es|
  {
    if |es| < 2 then []
    else [Divider(path, dir, before,
                  Along(dir, area, (SatAdd(es[0].0, es[0].1), Gutter(dir, cfg))),
                  es[0].0, SatAdd(es[0].1, es[1].1))]
         + Boundaries(path, dir, before + 1, es[1..], area, cfg)
  }

  function DividersAll(children: seq<LayoutNode>, at: nat, dir: SplitDir, es: seq<Extent>, path: seq<nat>,
                       area: Area, cfg: Config): seq<Divider>
    requires |es| == |children| && forall c :: c in children ==> Arity(c)
    decreases children
  {
    if children == [] then []
    else Dividers(children[0], path + [at], Along(dir, area, es[0]), cfg)
         + DividersAll(children[1..], at + 1, dir, es[1..], path, area, cfg)
  }

  // ----- exact tiling

  predicate Contains(a: Area, x: int, y: int) {
    a.col <= x < a.col + a.cols && a.row <= y < a.row + a.rows
  }

  function Count(b: bool): nat {
    if b then 1 else 0
  }

  function PaneHits(rects: seq<PaneRect>, x: int, y: int): nat {
    if rects == [] then 0 else Count(Contains(rects[0].area, x, y)) + PaneHits(rects[1..], x, y)
  }

  function StripHits(ds: seq<Divider>, x: int, y: int): nat {
    if ds == [] then 0 else Count(Contains(ds[0].hit, x, y)) + StripHits(ds[1..], x, y)
  }

  /** The area ends inside the coordinate range. */
  predicate InRange(a: Area) {
    a.col + a.cols <= U16_MAX && a.row + a.rows <= U16_MAX
  }

  /** At every split the gutters fit, and no leaf slot is under the minimum. */
  predicate Fits(node: LayoutNode, area: Area, cfg: Config)
    requires Arity(node)
    decreases node
  {
    match node
    case Leaf(_) => area.cols >= cfg.minCols && area.rows >= cfg.minRows
    case Split(dir, ratios, children) =>
      && (|ratios| - 1) * Gutter(dir, cfg) <= AxisLen(dir, area)
      && FitsAll(children, dir, ChildExtents(dir, ratios, area, cfg), area, cfg)
  }

  predicate FitsAll(children: seq<LayoutNode>, dir: SplitDir, es: seq<Extent>, area: Area, cfg: Config)
    requires |es| == |children| && forall c :: c in children ==> Arity(c)
    decreases children
  {
    children == [] ||
    (Fits(children[0], Along(dir, area, es[0]), cfg) && FitsAll(children[1..], dir, es[1..], area, cfg))
  }

  /** Children follow one another with exactly one gutter between, up to `end`. */
  predicate Chain(es: seq<Extent>, gutter: nat, end: nat) {
    && es != []
    && es[0].0 as int + es[0].1 <= end
    && if |es| == 1 then es[0].0 as int + es[0].1 == end
       else es[1].0 == es[0].0 as int + es[0].1 + gutter && Chain(es[1..], gutter, end)
  }

  lemma {:induction false} PlaceLens(start: U16, lens: seq<U16>, gutter: U16, k: nat)
    requires k < |lens|
    ensures Place(start, lens, gutter)[k].1 == lens[k]
    decreases k
  {
    if k > 0 { PlaceLens(SatAdd(SatAdd(start, lens[0]), gutter), lens[1..], gutter, k - 1); }
  }

  lemma {:induction false} PlaceChains(start: U16, lens: seq<U16>, gutter: U16, end: U16)
    requires lens != [] && start + Sum(lens) + gutter * (|lens| - 1) == end
    ensures Chain(Place(start, lens, gutter), gutter, end)
    decreases |lens|
  {
    hide Sum;
    SumFront(lens);
    if |lens| == 1 {
      EmptySum(lens[1..]);
    } else {
      Distribute(gutter, |lens| - 1, 1);
      MulMonotone(gutter, 0, |lens| - 2);
      PlaceChains(start + lens[0] + gutter, lens[1..], gutter, end);
    }
  }

  lemma {:induction false} SumFront(s: seq<nat>)
    requires s != []
    ensures Sum(s) == s[0] + Sum(s[1..])
  {
    if |s| > 1 {
      var n := |s| - 1;
      SumFront(s[..n]);
      assert s[..n][1..] == s[1..][..n - 1];
    }
  }

  /** The children and gutters of a split fill its axis exactly. */
  lemma ExtentsChain(start: U16, total: U16, ratios: seq<U16>, gutter: U16)
    requires 0 < |ratios| <= U16_MAX && Sum(ratios) > 0
    requires (|ratios| - 1) * gutter <= total && start + total <= U16_MAX
    ensures Chain(Extents(start, total, ratios, gutter), gutter, start + total)
  {
    hide Alloc, Sum, Place;
    var lens := Lens(total, ratios, gutter);
    ExactSumIff(Avail(total, |ratios|, gutter), ratios);
    MulMonotone(gutter, 0, |ratios| - 1);
    assert Sum(lens) == total - gutter * (|ratios| - 1);
    PlaceChains(start, lens, gutter, start + total);
  }

  lemma {:induction false} PaneHitsConcat(a: seq<PaneRect>, b: seq<PaneRect>, x: int, y: int)
    ensures PaneHits(a + b, x, y) == PaneHits(a, x, y) + PaneHits(b, x, y)
  {
    if a == [] {
      assert a + b == b;
    } else {
      assert (a + b)[1..] == a[1..] + b;
      PaneHitsConcat(a[1..], b, x, y);
    }
  }

  lemma {:induction false} StripHitsConcat(a: seq<Divider>, b: seq<Divider>, x: int, y: int)
    ensures StripHits(a + b, x, y) == StripHits(a, x, y) + StripHits(b, x, y)
  {
    if a == [] {
      assert a + b == b;
    } else {
      assert (a + b)[1..] == a[1..] + b;
      StripHitsConcat(a[1..], b, x, y);
    }
  }

  /** Panes and divider strips partition the area: every cell inside lies in exactly
      one of them, and none of them covers a cell outside. */
  lemma {:induction false} ExactPartition(node: LayoutNode, path: seq<nat>, area: Area, cfg: Config, x: int, y: int)
    requires Arity(node) && Positive(node) && InRange(area) && Fits(node, area, cfg)
    ensures PaneHits(Resolve(node, area, cfg), x, y) + StripHits(Dividers(node, path, area, cfg), x, y)
         == Count(Contains(area, x, y))
    decreases node
  {
    hide Sum, ChildExtents, Contains, PaneHits, StripHits, Boundaries, Chain;
    match node
    case Leaf(_) =>
      LeafPartition(node, path, area, cfg, x, y);
    case Split(dir, ratios, children) =>
      var es := ChildExtents(dir, ratios, area, cfg);
      SplitExtentsChain(node, area, cfg);
      PartitionAll(children, 0, dir, es, path, area, cfg, x, y);
      StripHitsConcat(Boundaries(path, dir, 0, es, area, cfg),
                      DividersAll(children, 0, dir, es, path, area, cfg), x, y);
      assert Along(dir, area, (AxisStart(dir, area), AxisLen(dir, area))) == area;
  }

  lemma LeafPartition(node: LayoutNode, path: seq<nat>, area: Area, cfg: Config, x: int, y: int)
    requires node.Leaf? && Fits(node, area, cfg)
    ensures PaneHits(Resolve(node, area, cfg), x, y) + StripHits(Dividers(node, path, area, cfg), x, y)
         == Count(Contains(area, x, y))
  {
    hide Contains;
    var rect := PaneRect(node.paneIndex, area);
    assert Resolve(node, area, cfg) == [rect];
    assert [rect][1..] == [];
  }

  /** The children of a split whose gutters fit form a chain along its axis. */
  lemma SplitExtentsChain(node: LayoutNode, area: Area, cfg: Config)
    requires Arity(node) && Positive(node) && InRange(area) && node.Split?
    requires (|node.ratios| - 1) * Gutter(node.dir, cfg) <= AxisLen(node.dir, area)
    ensures var es := ChildExtents(node.dir, node.ratios, area, cfg);
      && Chain(es, Gutter(node.dir, cfg), AxisStart(node.dir, area) + AxisLen(node.dir, area))
      && es[0].0 == AxisStart(node.dir, area)
  {
    hide Sum, Lens;
    SomeRatio(node.ratios);
    ExtentsChain(AxisStart(node.dir, area), AxisLen(node.dir, area), node.ratios, Gutter(node.dir, cfg));
  }

  lemma {:induction false} PartitionAll(children: seq<LayoutNode>, at: nat, dir: SplitDir, es: seq<Extent>,
                                        path: seq<nat>, area: Area, cfg: Config, x: int, y: int)
    requires |es| == |children| && forall c :: c in children ==> Arity(c) && Positive(c)
    requires InRange(area) && FitsAll(children, dir, es, area, cfg)
    requires Chain(es, Gutter(dir, cfg), AxisStart(dir, area) + AxisLen(dir, area))
    ensures PaneHits(ResolveAll(children, dir, es, area, cfg), x, y)
          + StripHits(DividersAll(children, at, dir, es, path, area, cfg), x, y)
          + StripHits(Boundaries(path, dir, at, es, area, cfg), x, y)
         == Count(Contains(Along(dir, area, (es[0].0, AxisStart(dir, area) + AxisLen(dir, area) - es[0].0)), x, y))
    decreases children
  {
    hide Resolve, Dividers, Fits, Positive, Contains, Boundaries, PaneHits, StripHits;
    var first := Along(dir, area, es[0]);
    ExactPartition(children[0], path + [at], first, cfg, x, y);
    PaneHitsConcat(Resolve(children[0], first, cfg), ResolveAll(children[1..], dir, es[1..], area, cfg), x, y);
    StripHitsConcat(Dividers(children[0], path + [at], first, cfg),
                    DividersAll(children[1..], at + 1, dir, es[1..], path, area, cfg), x, y);
    BoundaryHits(path, dir, at, es, area, cfg, x, y);
    var end := AxisStart(dir, area) + AxisLen(dir, area);
    if |children| > 1 {
      ChainInside(es, Gutter(dir, cfg), end);
      PartitionAll(children[1..], at + 1, dir, es[1..], path, area, cfg, x, y);
      SliceCount(dir, area, es[0].0, es[0].0 + es[0].1, es[1].0, end, x, y);
    } else {
      assert children[1..] == [];
      NoHits(x, y);
    }
  }

  lemma NoHits(x: int, y: int)
    ensures PaneHits([], x, y) == 0 && StripHits([], x, y) == 0
  {}

  lemma BoundaryHits(path: seq<nat>, dir: SplitDir, at: nat, es: seq<Extent>, area: Area, cfg: Config, x: int, y: int)
    requires es != [] && es[0].0 as int + es[0].1 <= U16_MAX
    ensures StripHits(Boundaries(path, dir, at, es, area, cfg), x, y) ==
      if |es| == 1 then 0
      else Count(Contains(Along(dir, area, (es[0].0 + es[0].1, Gutter(dir, cfg))), x, y))
           + StripHits(Boundaries(path, dir, at + 1, es[1..], area, cfg), x, y)
  {
    if |es| > 1 {
      var bs := Boundaries(path, dir, at, es, area, cfg);
      assert bs[1..] == Boundaries(path, dir, at + 1, es[1..], area, cfg);
    }
  }

  /** An axis interval cut in three. */
  lemma SliceCount(dir: SplitDir, area: Area, a: U16, b: U16, c: U16, d: U16, x: int, y: int)
    requires a <= b <= c <= d
    ensures Count(Contains(Along(dir, area, (a, b - a)), x, y))
          + Count(Contains(Along(dir, area, (b, c - b)), x, y))
          + Count(Contains(Along(dir, area, (c, d - c)), x, y))
         == Count(Contains(Along(dir, area, (a, d - a)), x, y))
  {}

  lemma ChainInside(es: seq<Extent>, gutter: nat, end: nat)
    requires Chain(es, gutter, end) && |es| > 1
    ensures es[0].0 + es[0].1 + gutter <= end
  {}

  // ----- order and number

  function Panes(rects: seq<PaneRect>): seq<U32> {
    seq(|rects|, i requires 0 <= i < |rects| => rects[i].paneIndex)
  }

  /** Rectangles come in leaf order, one per leaf. */
  lemma {:induction false} LeafOrder(node: LayoutNode, area: Area, cfg: Config)
    requires Arity(node)
    ensures Panes(Resolve(node, area, cfg)) == Leaves(node)
    decreases node
  {
    if node.Split? {
      LeafOrderAll(node.children, node.dir, ChildExtents(node.dir, node.ratios, area, cfg), area, cfg);
    }
  }

  lemma {:induction false} LeafOrderAll(children: seq<LayoutNode>, dir: SplitDir, es: seq<Extent>, area: Area,
                                        cfg: Config)
    requires |es| == |children| && forall c :: c in children ==> Arity(c)
    ensures Panes(ResolveAll(children, dir, es, area, cfg)) == LeavesAll(children)
    decreases children
  {
    hide Resolve, Leaves;
    if children != [] {
      LeafOrder(children[0], Along(dir, area, es[0]), cfg);
      LeafOrderAll(children[1..], dir, es[1..], area, cfg);
    }
  }

  /** A layout has exactly one divider fewer than it has panes. */
  lemma {:induction false} DividerCount(node: LayoutNode, path: seq<nat>, area: Area, cfg: Config)
    requires Arity(node) && Positive(node)
    ensures |Dividers(node, path, area, cfg)| == |Leaves(node)| - 1
    decreases node
  {
    if node.Split? {
      assert node.ratios != [];
      DividerCountAll(node.children, 0, node.dir, ChildExtents(node.dir, node.ratios, area, cfg), path, area, cfg);
    }
  }

  lemma {:induction false} DividerCountAll(children: seq<LayoutNode>, at: nat, dir: SplitDir, es: seq<Extent>,
                                           path: seq<nat>, area: Area, cfg: Config)
    requires |es| == |children| && forall c :: c in children ==> Arity(c) && Positive(c)
    ensures |DividersAll(children, at, dir, es, path, area, cfg)| == |LeavesAll(children)| - |children|
    decreases children
  {
    hide Dividers, Leaves;
    if children != [] {
      DividerCount(children[0], path + [at], Along(dir, area, es[0]), cfg);
      DividerCountAll(children[1..], at + 1, dir, es[1..], path, area, cfg);
    }
  }

  // ----- the code

  /** `child_extents`: gutters come off before the ratios are apportioned. */
  method ComputeExtents(start: U16, total: U16, ratios: seq<U16>, gutter: U16) returns (out: seq<Extent>)
    requires |ratios| <= U16_MAX
    ensures out == Extents(start, total, ratios, gutter)
  {
    hide Alloc, Sum;
    out := [];
    if ratios == [] { return; }
    RatioSumFits(ratios);
    var lens := Apportion(SatSub(total, SatMul(|ratios| - 1, gutter)), ratios);
    var pos := start;
    for i := 0 to |lens|
      invariant out + Place(pos, lens[i..], gutter) == Place(start, lens, gutter)
    {
      assert lens[i..][1..] == lens[i + 1..];
      out := out + [(pos, lens[i])];
      pos := SatAdd(SatAdd(pos, lens[i]), gutter);
    }
  }

  /** Up to 65535 ratios of at most 65535 each cannot overflow the `u32` sum. */
  lemma RatioSumFits(ratios: seq<U16>)
    requires |ratios| <= U16_MAX
    ensures Sum(ratios) <= U32_MAX
  {
    var ones := seq(|ratios|, _ => 1);
    SumOnes(|ratios|);
    SumTimes(ratios, ones, U16_MAX);
  }

  /** `resolve_into`: appends to `acc` in leaf order. */
  method ResolveInto(node: LayoutNode, area: Area, cfg: Config, acc: seq<PaneRect>) returns (out: seq<PaneRect>)
    requires Arity(node)
    ensures out == acc + Resolve(node, area, cfg)
    decreases node
  {
    hide ChildExtents;
    match node
    case Leaf(i) =>
      out := acc + [PaneRect(i, area.(cols := Max(area.cols, cfg.minCols), rows := Max(area.rows, cfg.minRows)))];
    case Split(dir, ratios, children) =>
      var es := SplitExtents(dir, ratios, area, cfg);
      out := acc;
      for k := 0 to |children|
        invariant out + ResolveAll(children[k..], dir, es[k..], area, cfg) == acc + Resolve(node, area, cfg)
      {
        assert children[k..][1..] == children[k + 1..] && es[k..][1..] == es[k + 1..];
        assert children[k] in children;
        out := ResolveInto(children[k], Along(dir, area, es[k]), cfg, out);
      }
  }

  method SplitExtents(dir: SplitDir, ratios: seq<U16>, area: Area, cfg: Config) returns (es: seq<Extent>)
    requires |ratios| <= U16_MAX
    ensures es == ChildExtents(dir, ratios, area, cfg)
  {
    match dir
    case Horizontal => es := ComputeExtents(area.col, area.cols, ratios, cfg.gutterCols);
    case Vertical => es := ComputeExtents(area.row, area.rows, ratios, cfg.gutterRows);
  }

  /** `resolve_layout`. */
  method ResolveLayout(node: LayoutNode, areaCols: U16, areaRows: U16, cfg: Config) returns (out: seq<PaneRect>)
    requires Arity(node)
    ensures out == Resolve(node, Area(0, 0, areaCols, areaRows), cfg)
  {
    out := ResolveInto(node, Area(0, 0, areaCols, areaRows), cfg, []);
  }

  /** `dividers_into`: a split's own boundaries first, then each child's. */
  method DividersInto(node: LayoutNode, area: Area, cfg: Config, path: seq<nat>, acc: seq<Divider>)
    returns (out: seq<Divider>)
    requires Arity(node)
    ensures out == acc + Dividers(node, path, area, cfg)
    decreases node
  {
    hide ChildExtents;
    out := acc;
    if node.Leaf? || node.children == [] {
      assert Dividers(node, path, area, cfg) == [];
      return;
    }
    var es := SplitExtents(node.dir, node.ratios, area, cfg);
    out := BoundariesInto(path, node.dir, es, area, cfg, acc);
    out := ChildDividersInto(node.children, node.dir, es, area, cfg, path, out);
  }

  method ChildDividersInto(children: seq<LayoutNode>, dir: SplitDir, es: seq<Extent>, area: Area, cfg: Config,
                           path: seq<nat>, acc: seq<Divider>) returns (out: seq<Divider>)
    requires |es| == |children| && forall c :: c in children ==> Arity(c)
    ensures out == acc + DividersAll(children, 0, dir, es, path, area, cfg)
    decreases children
  {
    hide Dividers;
    out := acc;
    for k := 0 to |children|
      invariant out + DividersAll(children[k..], k, dir, es[k..], path, area, cfg)
             == acc + DividersAll(children, 0, dir, es, path, area, cfg)
    {
      assert children[k..][1..] == children[k + 1..] && es[k..][1..] == es[k + 1..];
      out := DividersInto(children[k], Along(dir, area, es[k]), cfg, path + [k], out);
    }
  }

  method BoundariesInto(path: seq<nat>, dir: SplitDir, es: seq<Extent>, area: Area, cfg: Config, acc: seq<Divider>)
    returns (out: seq<Divider>)
    requires es != []
    ensures out == acc + Boundaries(path, dir, 0, es, area, cfg)
  {
    out := acc;
    for k := 0 to |es| - 1
      invariant out + Boundaries(path, dir, k, es[k..], area, cfg) == acc + Boundaries(path, dir, 0, es, area, cfg)
    {
      assert es[k..][1..] == es[k + 1..];
      var strip := Along(dir, area, (SatAdd(es[k].0, es[k].1), Gutter(dir, cfg)));
      out := out + [Divider(path, dir, k, strip, es[k].0, SatAdd(es[k].1, es[k + 1].1))];
    }
  }

  /** `resolve_dividers`. */
  method ResolveDividers(node: LayoutNode, areaCols: U16, areaRows: U16, cfg: Config) returns (out: seq<Divider>)
    requires Arity(node)
    ensures out == Dividers(node, [], Area(0, 0, areaCols, areaRows), cfg)
  {
    out := DividersInto(node, Area(0, 0, areaCols, areaRows), cfg, [], []);
  }
}
