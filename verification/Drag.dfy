/** A dragged divider follows the pointer, up to rounding. */
module DragTracking {
  import opened Widths
  import opened Options
  import opened Apportionment
  import opened Layout
  import opened Borders
  import opened Tiling
  import opened Resize

  /** The slot of the node at `path`, when `root` is resolved into `area`. */
  function AreaAt(root: LayoutNode, path: seq<nat>, area: Area, cfg: Config): Area
    requires Arity(root) && NodeAt(root, path).Some?
    decreases path
  {
    if path == [] then area
    else AreaAt(root.children[path[0]], path[1..],
                Along(root.dir, area, ChildExtents(root.dir, root.ratios, area, cfg)[path[0]]), cfg)
  }

  /** `d` is the boundary after child `d.before` of the split at `rel`, with the geometry that split
      resolves to: the pair of children around it, and a strip that starts where the first of them
      ends, is one gutter thick and runs all across the split. */
  ghost predicate BelongsTo(d: Divider, root: LayoutNode, rel: seq<nat>, area: Area, cfg: Config)
    requires Arity(root)
  {
    && IsSplit(root, rel)
    && var node, slot := NodeAt(root, rel).value, AreaAt(root, rel, area, cfg);
    && d.dir == node.dir && d.before + 1 < |node.children| == |node.ratios| <= U16_MAX
    && var es := ChildExtents(node.dir, node.ratios, slot, cfg);
    && d.pairStart == es[d.before].0
    && d.pairLen == SatAdd(es[d.before].1, es[d.before + 1].1)
    && var edge := SatAdd(es[d.before].0, es[d.before].1);
    && d.hit == match node.dir
         case Horizontal => Area(edge, slot.row, cfg.gutterCols, slot.rows)
         case Vertical => Area(slot.col, edge, slot.cols, cfg.gutterRows)
  }

  /** Every divider of a resolved tree names its own split and geometry. */
  lemma {:induction false} DividerOrigin(node: LayoutNode, path: seq<nat>, area: Area, cfg: Config, d: Divider)
    requires Arity(node) && d in Dividers(node, path, area, cfg)
    ensures path <= d.path && BelongsTo(d, node, d.path[|path|..], area, cfg)
    decreases node
  {
    hide ChildExtents;
    var es := ChildExtents(node.dir, node.ratios, area, cfg);
    if d in Boundaries(path, node.dir, 0, es, area, cfg) {
      BoundaryFields(path, node.dir, [], es, area, cfg, d);
      assert d.path[|path|..] == [];
    } else {
      ChildDividerOrigin(node, [], node.children, path, area, cfg, d);
    }
  }

  lemma {:induction false} BoundaryFields(path: seq<nat>, dir: SplitDir, before: seq<Extent>, es: seq<Extent>,
                                          area: Area, cfg: Config, d: Divider)
    requires d in Boundaries(path, dir, |before|, es, area, cfg)
    ensures d.path == path && d.dir == dir && d.before + 1 < |before + es|
    ensures d.pairStart == (before + es)[d.before].0
    ensures d.pairLen == SatAdd((before + es)[d.before].1, (before + es)[d.before + 1].1)
    ensures d.hit == Along(dir, area, (SatAdd((before + es)[d.before].0, (before + es)[d.before].1), Gutter(dir, cfg)))
    decreases |es|
  {
    var bs := Boundaries(path, dir, |before|, es, area, cfg);
    if d != bs[0] {
      assert d in bs[1..];
      assert before + es == (before + [es[0]]) + es[1..];
      BoundaryFields(path, dir, before + [es[0]], es[1..], area, cfg, d);
    }
  }

  lemma {:induction false} ChildDividerOrigin(node: LayoutNode, before: seq<LayoutNode>, rest: seq<LayoutNode>,
                                              path: seq<nat>, area: Area, cfg: Config, d: Divider)
    requires Arity(node) && node.Split? && node.children == before + rest
    requires var es := ChildExtents(node.dir, node.ratios, area, cfg);
      && (forall c :: c in rest ==> Arity(c))
      && d in DividersAll(rest, |before|, node.dir, es[|before|..], path, area, cfg)
    ensures path <= d.path && BelongsTo(d, node, d.path[|path|..], area, cfg)
    decreases rest
  {
    hide Dividers, ChildExtents;
    var es := ChildExtents(node.dir, node.ratios, area, cfg);
    var k := |before|;
    assert rest[0] == node.children[k];
    var slot := Along(node.dir, area, es[k]);
    assert es[k..][0] == es[k] && es[k..][1..] == es[k + 1..];
    if d in Dividers(rest[0], path + [k], slot, cfg) {
      DividerOrigin(rest[0], path + [k], slot, cfg, d);
      var rel := d.path[|path|..];
      assert rel[0] == d.path[|path|] == (path + [k])[|path|];
      assert rel[1..] == d.path[|path| + 1..];
      assert path == (path + [k])[..|path|];
    } else {
      assert before + rest == (before + [rest[0]]) + rest[1..];
      ChildDividerOrigin(node, before + [rest[0]], rest[1..], path, area, cfg, d);
    }
  }

  /** Where a layout fits, so does every node of it in its own slot. */
  lemma {:induction false} FitsAtPath(root: LayoutNode, path: seq<nat>, area: Area, cfg: Config)
    requires Arity(root) && Positive(root) && InRange(area) && Fits(root, area, cfg) && NodeAt(root, path).Some?
    ensures var node, slot := NodeAt(root, path).value, AreaAt(root, path, area, cfg);
      Arity(node) && Positive(node) && InRange(slot) && Fits(node, slot, cfg)
    decreases path
  {
    if path != [] {
      hide ChildExtents, Chain;
      var k := path[0];
      var es := ChildExtents(root.dir, root.ratios, area, cfg);
      assert root.children[k] in root.children;
      SplitExtentsChain(root, area, cfg);
      ChainAt(es, Gutter(root.dir, cfg), AxisEnd(root.dir, area), k);
      FitsAt(root.children, root.dir, es, area, cfg, k);
      FitsAtPath(root.children[k], path[1..], Along(root.dir, area, es[k]), cfg);
    }
  }

  /** The strip of `d` starts where child `d.before` ends, and ends where the next child starts. */
  ghost predicate SitsBetween(d: Divider, root: LayoutNode, area: Area, cfg: Config)
    requires Arity(root)
  {
    && BelongsTo(d, root, d.path, area, cfg)
    && var node, slot := NodeAt(root, d.path).value, AreaAt(root, d.path, area, cfg);
    && var es := ChildExtents(node.dir, node.ratios, slot, cfg);
    && var end, next := es[d.before].0 as int + es[d.before].1, es[d.before + 1].0;
    match d.dir
    case Horizontal => d.hit.col == end && d.hit.col + d.hit.cols == next
    case Vertical => d.hit.row == end && d.hit.row + d.hit.rows == next
  }

  /** Where the layout fits, a divider's strip lies exactly between its two children. */
  lemma HitBetween(root: LayoutNode, area: Area, cfg: Config, d: Divider)
    requires Arity(root) && Positive(root) && InRange(area) && Fits(root, area, cfg)
    requires d in Dividers(root, [], area, cfg)
    ensures SitsBetween(d, root, area, cfg)
  {
    hide Dividers, ChildExtents, AreaAt, Fits, Positive, Arity, NodeAt;
    DividerOrigin(root, [], area, cfg, d);
    assert d.path[0..] == d.path;
    FitsAtPath(root, d.path, area, cfg);
    NextStart(NodeAt(root, d.path).value, AreaAt(root, d.path, area, cfg), cfg, d.before);
  }

  lemma NextStart(node: LayoutNode, slot: Area, cfg: Config, b: nat)
    requires Arity(node) && Positive(node) && InRange(slot) && Fits(node, slot, cfg)
    requires node.Split? && b + 1 < |node.children|
    ensures |node.ratios| == |node.children| <= U16_MAX
    ensures var es := ChildExtents(node.dir, node.ratios, slot, cfg);
      es[b].0 as int + es[b].1 + Gutter(node.dir, cfg) == es[b + 1].0
  {
    hide ChildExtents, Chain, FitsAll;
    SplitExtentsChain(node, slot, cfg);
    ChainAt(ChildExtents(node.dir, node.ratios, slot, cfg), Gutter(node.dir, cfg), AxisEnd(node.dir, slot), b);
  }

  /** Changing a split's ratios does not move the split itself. */
  lemma {:induction false} SlotUnmoved(root: LayoutNode, path: seq<nat>, r: seq<U16>, area: Area, cfg: Config)
    requires Arity(root) && IsSplit(root, path) && |r| == |NodeAt(root, path).value.children|
    ensures Arity(SetAt(root, path, r))
    ensures NodeAt(SetAt(root, path, r), path) == Some(NodeAt(root, path).value.(ratios := r))
    ensures AreaAt(SetAt(root, path, r), path, area, cfg) == AreaAt(root, path, area, cfg)
    decreases path
  {
    hide ChildExtents;
    if path != [] {
      var i := path[0];
      SlotUnmoved(root.children[i], path[1..], r,
                  Along(root.dir, area, ChildExtents(root.dir, root.ratios, area, cfg)[i]), cfg);
      var t := SetAt(root, path, r);
      forall c | c in t.children ensures Arity(c) {
        var k :| 0 <= k < |t.children| && t.children[k] == c;
        assert root.children[k] in root.children;
      }
    }
  }

  // ----- arithmetic

  /** `x` cells are less than one off the exact share of a weight `n`: `n * a / s`. */
  predicate Near(s: int, x: int, n: int, a: int) {
    n * a - s < s * x < n * a + s
  }

  /** `n` is the weight at `off` in `len`, of `pair`, rounded to the nearest. */
  predicate Halfway(len: int, n: int, off: int, pair: int) {
    -len <= 2 * (len * n - off * pair) <= len
  }

  /** `v` is less than `3 + a / (2 * s)` either way. */
  predicate Close(s: int, v: int, a: int) {
    -(6 * s + a) < 2 * s * v < 6 * s + a
  }

  /** Rounding `off * pair / len` to the nearest is off by at most half. */
  lemma NearestError(off: nat, pair: nat, len: int, n: int)
    requires len > 0 && n == (off * pair + len / 2) / len
    ensures -len <= 2 * (len * n - off * pair) <= len
  {
    var x := off * pair + len / 2;
    DivMod(x, len);
    assert x == len * n + x % len;
  }

  /** `x` cells for a share `n` of the weights `s`, when `a` cells are shared out and the
      pair got `len` of them for `pair`: `x` is close to `off`. */
  lemma TrackingBound(x: int, n: int, off: int, len: int, pair: int, a: int, s: int)
    requires s > 0 && len > 0 && 0 <= off <= len && a >= 0
    requires -s < s * x - n * a < s
    requires -len <= 2 * (len * n - off * pair) <= len
    requires -2 * s < s * len - pair * a < 2 * s
    ensures -(6 * s + a) < 2 * s * (x - off) < 6 * s + a
  {
    var e1, e2, e3 := s * x - n * a, 2 * (len * n - off * pair), s * len - pair * a;
    // len * (2 s (x - off)) = 2 len e1 + a e2 - 2 off e3
    TrackingIdentity(x, n, off, len, pair, a, s);
    Bounded(len, e1, s);
    Bounded(off, e3, 2 * s);
    Bounded(a, e2, len);
    var lhs, rhs := 2 * s * (x - off), 6 * s + a;
    MulMonotone(2 * s, off, len);
    Expand(len, s, a);
    Commute(2 * s, len);
    Commute(2 * s, off);
    assert -(len * rhs) < len * lhs < len * rhs;
    Cancel(len, lhs, rhs);
  }

  lemma Expand(len: int, s: int, a: int)
    ensures len * (6 * s + a) == 2 * (len * s) + a * len + 2 * (len * (2 * s))
  {}

  lemma TrackingIdentity(x: int, n: int, off: int, len: int, pair: int, a: int, s: int)
    ensures len * (2 * s * (x - off))
         == 2 * (len * (s * x - n * a)) + a * (2 * (len * n - off * pair)) - 2 * (off * (s * len - pair * a))
  {
    var t1 := len * (s * x - n * a);
    assert t1 == len * s * x - len * n * a;
    var t2 := off * (s * len - pair * a);
    assert t2 == off * s * len - off * pair * a;
    var t3 := a * (len * n - off * pair);
    assert t3 == len * n * a - off * pair * a;
  }

  lemma Bounded(k: nat, e: int, b: int)
    requires -b <= e <= b
    ensures -(k * b) <= k * e <= k * b
    ensures k > 0 && -b < e < b ==> -(k * b) < k * e < k * b
  {
    MulMonotone(k, e, b);
    MulMonotone(k, -b, e);
  }

  lemma Cancel(k: int, x: int, y: int)
    requires k > 0 && -(k * y) < k * x < k * y
    ensures -y < x < y
  {
    if x >= y { MulMonotone(k, y, x); }
    if x <= -y { MulMonotone(k, x, -y); }
  }

  // ----- the theorem

  /** Cells shared out among the children of the split at `path`. */
  function SharedCells(root: LayoutNode, path: seq<nat>, area: Area, cfg: Config): nat
    requires Arity(root) && IsSplit(root, path) && NodeAt(root, path).value.children != []
  {
    ArityAt(root, path);
    var node := NodeAt(root, path).value;
    Avail(AxisLen(node.dir, AreaAt(root, path, area, cfg)), |node.children|, Gutter(node.dir, cfg))
  }

  /** A divider's pair length is the two children's lengths, unsaturated. */
  lemma PairLength(ratios: seq<U16>, dir: SplitDir, slot: Area, cfg: Config, a: nat)
    requires a + 1 < |ratios| <= U16_MAX && Sum(ratios) > 0
    ensures var es := ChildExtents(dir, ratios, slot, cfg);
      var parts := Alloc(Avail(AxisLen(dir, slot), |ratios|, Gutter(dir, cfg)), ratios);
      && es[a].1 == parts[a] && es[a + 1].1 == parts[a + 1]
      && SatAdd(es[a].1, es[a + 1].1) == parts[a] + parts[a + 1]
  {
    hide Alloc, Sum, Place, Avail;
    var avail := Avail(AxisLen(dir, slot), |ratios|, Gutter(dir, cfg));
    var lens := Lens(AxisLen(dir, slot), ratios, Gutter(dir, cfg));
    PlaceLens(AxisStart(dir, slot), lens, Gutter(dir, cfg), a);
    PlaceLens(AxisStart(dir, slot), lens, Gutter(dir, cfg), a + 1);
    ExactSumIff(avail, ratios);
    PairAtMostSum(Alloc(avail, ratios), a, a + 1);
  }

  /** The cell the boundary is to reach: the pointer's, or the nearer end of the pair. */
  function Aim(d: Divider, pointer: U16): int {
    if pointer < d.pairStart then d.pairStart as int
    else if pointer > d.pairStart + d.pairLen then d.pairStart as int + d.pairLen
    else pointer as int
  }

  /** The drag is not held back by the floor: the weight of the pair, a `u16`, shared at the aim and
      rounded to the nearest, leaves both children at the floor or above. */
  ghost predicate FreeDrag(root: LayoutNode, d: Divider, pointer: U16)
    requires Arity(root)
  {
    && IsSplit(root, d.path) && d.pairLen >= 1
    && var ratios := NodeAt(root, d.path).value.ratios;
    && d.before + 1 < |ratios|
    && var pair := ratios[d.before] as int + ratios[d.before + 1];
    && pair <= U16_MAX
    && MIN_RATIO <= ((Aim(d, pointer) - d.pairStart) * pair + d.pairLen / 2) / d.pairLen <= pair - MIN_RATIO
  }

  lemma AimIs(d: Divider, pointer: U16, pair: nat)
    requires d.pairLen >= 1
    ensures DragOffset(d, pointer) == Aim(d, pointer) - d.pairStart
    ensures DragShare(d, pointer, pair) == ((Aim(d, pointer) - d.pairStart) * pair + d.pairLen / 2) / d.pairLen
  {}

  /** The new ratios of a free drag. */
  lemma FreeRatios(root: LayoutNode, d: Divider, pointer: U16)
    requires Arity(root) && FreeDrag(root, d, pointer)
    ensures var was := NodeAt(root, d.path).value.ratios;
      var r, a, pair := Dragged(was, d, pointer), d.before, was[d.before] as int + was[d.before + 1];
      && r[a] == DragShare(d, pointer, pair) && r[a + 1] == pair - r[a]
      && (forall j :: 0 <= j < |r| && j != a && j != a + 1 ==> r[j] == was[j])
      && Sum(r) == Sum(was)
  {
    hide Sum, DragShare;
    var was, a := NodeAt(root, d.path).value.ratios, d.before;
    var pair := was[a] as int + was[a + 1];
    AimIs(d, pointer, pair);
    var n := DragShare(d, pointer, pair);
    assert Dragged(was, d, pointer) == was[a := n][a + 1 := pair - n];
    TwoUpdates(was, a, a + 1, n, pair - n);
  }

  /** The cell where child `i` of the split at `path` ends. */
  function ChildEnd(root: LayoutNode, path: seq<nat>, i: nat, area: Area, cfg: Config): nat
    requires Arity(root) && IsSplit(root, path) && i < |NodeAt(root, path).value.children|
  {
    ArityAt(root, path);
    var node := NodeAt(root, path).value;
    var e := ChildExtents(node.dir, node.ratios, AreaAt(root, path, area, cfg), cfg)[i];
    e.0 as int + e.1
  }

  /** Resolving the dragged tree into the same area puts the boundary where the pointer is: child
      `before` then ends within `3 + avail / (2 * sum)` cells of the pointer, or of the nearer end of
      the pair if the pointer is outside it. */
  lemma DragTracks(root: LayoutNode, area: Area, cfg: Config, d: Divider, pointer: U16)
    requires Arity(root) && Positive(root) && InRange(area) && d in Dividers(root, [], area, cfg)
    requires FreeDrag(root, d, pointer)
    ensures BelongsTo(d, root, d.path, area, cfg)
    ensures var node := NodeAt(root, d.path).value;
      var t := SetAt(root, d.path, Dragged(node.ratios, d, pointer));
      && Arity(t) && IsSplit(t, d.path) && d.before < |NodeAt(t, d.path).value.children|
      && var sum, avail := Sum(node.ratios), SharedCells(root, d.path, area, cfg);
      var end := ChildEnd(t, d.path, d.before, area, cfg);
      -(6 * sum + avail) < 2 * sum * (end - Aim(d, pointer)) < 6 * sum + avail
  {
    hide Dividers, Sum, ChildExtents, Positive, AreaAt, DragShare, Dragged, Aim;
    DividerOrigin(root, [], area, cfg, d);
    assert d.path[0..] == d.path;
    PositiveAt(root, d.path);
    AxisRange(root, d.path, area, cfg, d.dir);
    FreeRatios(root, d, pointer);
    var node := NodeAt(root, d.path).value;
    var r := Dragged(node.ratios, d, pointer);
    SlotUnmoved(root, d.path, r, area, cfg);
    SplitTracks(node.ratios, r, AreaAt(root, d.path, area, cfg), cfg, d, pointer);
  }

  /** Along one axis a slot has no length or ends inside the coordinate range. */
  predicate Ranged(dir: SplitDir, slot: Area) {
    AxisLen(dir, slot) == 0 || AxisStart(dir, slot) + AxisLen(dir, slot) <= U16_MAX
  }

  lemma {:induction false} AxisRange(root: LayoutNode, path: seq<nat>, area: Area, cfg: Config, dir: SplitDir)
    requires Arity(root) && Positive(root) && Ranged(dir, area) && NodeAt(root, path).Some?
    ensures Ranged(dir, AreaAt(root, path, area, cfg))
    decreases path
  {
    if path != [] {
      hide ChildExtents, Ranged;
      var k, es := path[0], ChildExtents(root.dir, root.ratios, area, cfg);
      assert root.children[k] in root.children;
      ChildRanged(root.dir, root.ratios, area, cfg, dir, k);
      AxisRange(root.children[k], path[1..], Along(root.dir, area, es[k]), cfg, dir);
    }
  }

  lemma ChildRanged(split: SplitDir, ratios: seq<U16>, area: Area, cfg: Config, dir: SplitDir, k: nat)
    requires k < |ratios| <= U16_MAX && Sum(ratios) > 0 && Ranged(dir, area)
    ensures Ranged(dir, Along(split, area, ChildExtents(split, ratios, area, cfg)[k]))
  {
    hide Sum, Place, Lens, Chain;
    if split == dir {
      var start, total, gutter := AxisStart(dir, area), AxisLen(dir, area), Gutter(dir, cfg);
      if (|ratios| - 1) * gutter < total {
        ExtentsChain(start, total, ratios, gutter);
        ChainAt(ChildExtents(dir, ratios, area, cfg), gutter, start + total, k);
      } else {
        EmptyExtents(dir, ratios, area, cfg);
      }
    }
  }

  /** Where the gutters fit, a child starts behind the cells and gutters before it. */
  lemma {:induction false} PlaceAt(start: U16, lens: seq<U16>, gutter: U16, end: U16, a: nat)
    requires a < |lens| && start + Sum(lens) + gutter * (|lens| - 1) == end
    ensures Place(start, lens, gutter)[a].0 == start + Sum(lens[..a]) + gutter * a
    decreases a
  {
    hide Sum;
    if a == 0 {
      EmptySum(lens[..0]);
    } else {
      SumFront(lens);
      SumFront(lens[..a]);
      assert lens[..a][1..] == lens[1..][..a - 1];
      Distribute(gutter, |lens| - 1, 1);
      Distribute(gutter, a, 1);
      MulMonotone(gutter, 0, |lens| - 2);
      PlaceAt(start + lens[0] + gutter, lens[1..], gutter, end, a - 1);
    }
  }

  /** Start and length of child `a`, told from the shares. */
  lemma ExtentAt(ratios: seq<U16>, dir: SplitDir, slot: Area, cfg: Config, a: nat)
    requires a < |ratios| <= U16_MAX && Sum(ratios) > 0 && Ranged(dir, slot)
    requires Avail(AxisLen(dir, slot), |ratios|, Gutter(dir, cfg)) > 0
    ensures var e := ChildExtents(dir, ratios, slot, cfg)[a];
      var parts := Alloc(Avail(AxisLen(dir, slot), |ratios|, Gutter(dir, cfg)), ratios);
      e.1 == parts[a] && e.0 == AxisStart(dir, slot) + Sum(parts[..a]) + Gutter(dir, cfg) * a
  {
    hide Alloc, Sum, Place;
    var gutter, n := Gutter(dir, cfg), |ratios|;
    var avail := Avail(AxisLen(dir, slot), n, gutter);
    var lens := Lens(AxisLen(dir, slot), ratios, gutter);
    ExactSumIff(avail, ratios);
    MulMonotone(gutter, 0, n - 1);
    Commute(n - 1, gutter);
    PlaceLens(AxisStart(dir, slot), lens, gutter, a);
    PlaceAt(AxisStart(dir, slot), lens, gutter, AxisStart(dir, slot) + AxisLen(dir, slot), a);
  }

  /** `r` are the ratios `was` with the pair of `d` shared anew at the pointer. */
  predicate NewRatios(was: seq<U16>, r: seq<U16>, d: Divider, pointer: U16) {
    && d.before + 1 < |was| == |r|
    && var pair := was[d.before] as int + was[d.before + 1];
    && r[d.before] == DragShare(d, pointer, pair) && r[d.before] as int + r[d.before + 1] == pair
    && forall j :: 0 <= j < |r| && j != d.before && j != d.before + 1 ==> r[j] == was[j]
  }

  /** `r` are the ratios for dragging the divider `d` of a split with ratios `was` in `slot`. */
  predicate DragOf(was: seq<U16>, r: seq<U16>, slot: Area, cfg: Config, d: Divider, pointer: U16) {
    && NewRatios(was, r, d, pointer) && |was| <= U16_MAX && Sum(was) == Sum(r) > 0
    && d.pairLen >= 1 && Ranged(d.dir, slot)
    && var es := ChildExtents(d.dir, was, slot, cfg);
    && d.pairStart == es[d.before].0 && d.pairLen == SatAdd(es[d.before].1, es[d.before + 1].1)
  }

  function CellsOf(was: seq<U16>, slot: Area, cfg: Config, d: Divider): nat
    requires 0 < |was| <= U16_MAX
  {
    Avail(AxisLen(d.dir, slot), |was|, Gutter(d.dir, cfg))
  }

  lemma DragReshares(was: seq<U16>, r: seq<U16>, slot: Area, cfg: Config, d: Divider, pointer: U16)
    requires DragOf(was, r, slot, cfg, d, pointer)
    ensures Reshared(CellsOf(was, slot, cfg, d), was, r, d.before, was[d.before] as int + was[d.before + 1],
                     DragOffset(d, pointer), d.pairLen)
  {
    hide Alloc, Sum, ChildExtents, DragShare, Avail, Ranged, DragOffset, Halfway;
    PairLength(was, d.dir, slot, cfg, d.before);
    ShareError(d, pointer, was[d.before] as int + was[d.before + 1]);
  }

  /** How far the start of child `a` moves. */
  function StartShift(avail: nat, was: seq<nat>, r: seq<nat>, a: nat): int
    requires a < |was| == |r|
  {
    Sum(Alloc(avail, r)[..a]) - Sum(Alloc(avail, was)[..a])
  }

  /** The bound for one split, in its slot. */
  lemma SplitTracks(was: seq<U16>, r: seq<U16>, slot: Area, cfg: Config, d: Divider, pointer: U16)
    requires DragOf(was, r, slot, cfg, d, pointer)
    ensures var e := ChildExtents(d.dir, r, slot, cfg)[d.before];
      Close(Sum(was), e.0 as int + e.1 - Aim(d, pointer), CellsOf(was, slot, cfg, d))
  {
    hide Close, Reshared, Alternately, Alloc, Sum, ChildExtents, CellsOf, Aim, DragOffset;
    hide StartShift, Lost, DragShare, Ranged;
    var a, avail, pair := d.before, CellsOf(was, slot, cfg, d), was[d.before] as int + was[d.before + 1];
    DragReshares(was, r, slot, cfg, d, pointer);
    BoundaryMoves(was, r, slot, cfg, d, pointer);
    AimIs(d, pointer, pair);
    Shift(avail, was, r, a, pair, DragOffset(d, pointer), d.pairLen);
    DragBound(avail, was, r, a, pair, DragOffset(d, pointer), d.pairLen, StartShift(avail, was, r, a));
  }

  /** Where child `before` ends with the new ratios, seen from where it started with the old. */
  lemma BoundaryMoves(was: seq<U16>, r: seq<U16>, slot: Area, cfg: Config, d: Divider, pointer: U16)
    requires DragOf(was, r, slot, cfg, d, pointer)
    ensures var e, avail := ChildExtents(d.dir, r, slot, cfg)[d.before], CellsOf(was, slot, cfg, d);
      e.0 as int + e.1 - d.pairStart == StartShift(avail, was, r, d.before) + Alloc(avail, r)[d.before]
  {
    hide Alloc, Sum, ChildExtents, Avail, Ranged, DragShare;
    var a, avail := d.before, CellsOf(was, slot, cfg, d);
    PairLength(was, d.dir, slot, cfg, a);
    ExactSumIff(avail, was);
    PairAtMostSum(Alloc(avail, was), a, a + 1);
    ExtentAt(was, d.dir, slot, cfg, a);
    ExtentAt(r, d.dir, slot, cfg, a);
  }

  // ----- how the other children move

  /** Changing two neighbouring weights moves all other children the same way, if at all. */
  lemma SameWay(total: nat, was: seq<nat>, now: seq<nat>, i: nat, j: nat)
    requires |was| == |now| && Sum(was) == Sum(now) > 0 && i < |was| && j < |was|
    requires was[i] == now[i] && was[j] == now[j]
    ensures !(Alloc(total, now)[i] > Alloc(total, was)[i] && Alloc(total, now)[j] < Alloc(total, was)[j])
  {
    hide Alloc, Sum, Floors, Remainders;
    var d := Sum(was);
    QuotaAt(total, was, d, i);
    QuotaAt(total, now, d, i);
    QuotaAt(total, was, d, j);
    QuotaAt(total, now, d, j);
    RoundedWithin(total, was, i);
    RoundedWithin(total, now, i);
    RoundedWithin(total, was, j);
    RoundedWithin(total, now, j);
    if Alloc(total, now)[i] > Alloc(total, was)[i] && Alloc(total, now)[j] < Alloc(total, was)[j] {
      RoundedBefore(total, now, i, j);
      RoundedBefore(total, was, j, i);
    }
  }

  lemma RoundedWithin(total: nat, ratios: seq<nat>, i: nat)
    requires Sum(ratios) > 0 && i < |ratios|
    ensures var f := Floors(total, ratios, Sum(ratios))[i]; f <= Alloc(total, ratios)[i] <= f + 1
  {
    hide Alloc, Sum, Floors, Remainders;
    RoundedByRank(total, ratios, i);
  }

  lemma {:induction false} SumParts(s: seq<nat>, a: nat)
    requires a + 1 < |s|
    ensures Sum(s) == Sum(s[..a]) + s[a] + s[a + 1] + Sum(s[a + 2..])
  {
    hide Sum;
    assert s == s[..a] + [s[a], s[a + 1]] + s[a + 2..];
    SumConcat(s[..a] + [s[a], s[a + 1]], s[a + 2..]);
    SumConcat(s[..a], [s[a], s[a + 1]]);
    SumOfTwo(s[a], s[a + 1]);
  }

  /** What the pair loses the others gain, and those before it no more than all of them. */
  lemma Shift(avail: nat, was: seq<nat>, r: seq<nat>, a: nat, pair: nat, off: int, len: int)
    requires Reshared(avail, was, r, a, pair, off, len)
    requires forall j :: 0 <= j < |was| && j != a && j != a + 1 ==> r[j] == was[j]
    ensures Alternately(StartShift(avail, was, r, a), Lost(avail, r, a, len))
  {
    hide Alloc, Sum, Halfway;
    var x, y := Alloc(avail, was), Alloc(avail, r);
    ExactSumIff(avail, was);
    ExactSumIff(avail, r);
    SumParts(x, a);
    SumParts(y, a);
    if forall j :: 0 <= j < |x| && j != a && j != a + 1 ==> x[j] <= y[j] {
      SumPointwise(x[..a], y[..a]);
      SumPointwise(x[a + 2..], y[a + 2..]);
    } else {
      var i :| 0 <= i < |x| && i != a && i != a + 1 && x[i] > y[i];
      forall j | 0 <= j < |x| && j != a && j != a + 1 ensures y[j] <= x[j] { SameWay(avail, was, r, j, i); }
      SumPointwise(y[..a], x[..a]);
      SumPointwise(y[a + 2..], x[a + 2..]);
    }
  }

  /** New weights `r` for `was`, with the weight of the pair at `a` shared anew at `off` of its `len` cells. */
  predicate Reshared(avail: nat, was: seq<nat>, r: seq<nat>, a: nat, pair: nat, off: int, len: int) {
    && a + 1 < |was| == |r| && Sum(was) == Sum(r) > 0
    && was[a] + was[a + 1] == pair && r[a] + r[a + 1] == pair
    && 0 <= off <= len && len > 0 && Halfway(len, r[a], off, pair)
    && len == Alloc(avail, was)[a] + Alloc(avail, was)[a + 1]
  }

  /** The cells the pair loses. */
  function Lost(avail: nat, r: seq<nat>, a: nat, len: int): int
    requires a + 1 < |r|
  {
    len - Alloc(avail, r)[a] - Alloc(avail, r)[a + 1]
  }

  /** The same bound, on the apportionment alone; `shift` is how far the children before move. */
  lemma DragBound(avail: nat, was: seq<nat>, r: seq<nat>, a: nat, pair: nat, off: int, len: int, shift: int)
    requires Reshared(avail, was, r, a, pair, off, len) && Alternately(shift, Lost(avail, r, a, len))
    ensures Close(Sum(was), shift + Alloc(avail, r)[a] - off, avail)
  {
    hide Alloc, Sum, Dragging, Close, Alternately, Halfway, Near;
    SharesAround(avail, was, r, a, pair, off, len);
    EndArithmetic(shift, Sum(was), avail, off, len, pair, PairOf(r, a), PairOf(Alloc(avail, r), a), PairOf(was, a),
                  PairOf(Alloc(avail, was), a));
  }

  function PairOf(s: seq<nat>, a: nat): (int, int)
    requires a + 1 < |s|
  {
    (s[a], s[a + 1])
  }

  /** Of the weights `w` of a pair, `v` cells; and of the weights `asked` the drag asks for, `given` cells. */
  predicate Dragging(s: int, a: int, off: int, len: int, pair: int, asked: (int, int), given: (int, int), w: (int, int),
                     v: (int, int)) {
    && s > 0 && a >= 0 && 0 <= off <= len && len > 0
    && len == v.0 + v.1 && pair == w.0 + w.1 == asked.0 + asked.1
    && Near(s, given.0, asked.0, a) && Near(s, given.1, asked.1, a) && Near(s, v.0, w.0, a) && Near(s, v.1, w.1, a)
    && Halfway(len, asked.0, off, pair)
  }

  lemma SharesAround(avail: nat, was: seq<nat>, r: seq<nat>, a: nat, pair: nat, off: int, len: int)
    requires Reshared(avail, was, r, a, pair, off, len)
    ensures Dragging(Sum(was), avail, off, len, pair, PairOf(r, a), PairOf(Alloc(avail, r), a), PairOf(was, a),
                     PairOf(Alloc(avail, was), a))
  {
    hide Alloc, Sum, Near, Halfway;
    ShareNear(avail, r, a);
    ShareNear(avail, r, a + 1);
    ShareNear(avail, was, a);
    ShareNear(avail, was, a + 1);
  }

  /** `shift` lies between nothing and `lost`. */
  predicate Alternately(shift: int, lost: int) {
    0 <= shift <= lost || lost <= shift <= 0
  }

  lemma ShareNear(total: nat, ratios: seq<nat>, i: nat)
    requires Sum(ratios) > 0 && i < |ratios|
    ensures Near(Sum(ratios), Alloc(total, ratios)[i], ratios[i], total)
  {
    hide Alloc, Sum;
    QuotaError(total, ratios, i);
  }

  lemma EndArithmetic(shift: int, s: int, a: int, off: int, len: int, pair: int, asked: (int, int), given: (int, int),
                      w: (int, int), v: (int, int))
    requires Dragging(s, a, off, len, pair, asked, given, w, v) && Alternately(shift, len - given.0 - given.1)
    ensures Close(s, shift + given.0 - off, a)
  {
    PairError(a, s, len, pair, w.0, w.1, v.0, v.1);
    EndBound(shift, given.0, given.1, asked.0, asked.1, off, len, pair, a, s);
  }

  /** The boundary seen from either end of the pair: it lies between where the length of the first child
      puts it and where the length of the second does, and both are close to `off`. */
  lemma EndBound(shift: int, x: int, y: int, n: int, m: int, off: int, len: int, pair: int, a: int, s: int)
    requires s > 0 && a >= 0 && 0 <= off <= len && len > 0 && n + m == pair
    requires -s < s * x - n * a < s && -s < s * y - m * a < s
    requires -len <= 2 * (len * n - off * pair) <= len
    requires -2 * s < s * len - pair * a < 2 * s
    requires 0 <= shift <= len - (x + y) || len - (x + y) <= shift <= 0
    ensures -(6 * s + a) < 2 * s * (shift + x - off) < 6 * s + a
  {
    TrackingBound(x, n, off, len, pair, a, s);
    OtherEnd(n, m, off, len, pair);
    TrackingBound(y, m, len - off, len, pair, a, s);
    Negated(2 * s, y - (len - off));
    if shift >= 0 && shift <= len - (x + y) {
      Sandwich(2 * s, x - off, shift + x - off, -(y - (len - off)), 6 * s + a);
    } else {
      Sandwich(2 * s, -(y - (len - off)), shift + x - off, x - off, 6 * s + a);
    }
  }

  lemma Sandwich(k: nat, lo: int, mid: int, hi: int, b: int)
    requires lo <= mid <= hi && -b < k * lo && k * hi < b
    ensures -b < k * mid < b
  {
    MulMonotone(k, lo, mid);
    MulMonotone(k, mid, hi);
  }

  lemma Negated(k: int, x: int)
    ensures k * (-x) == -(k * x)
  {}

  lemma OtherEnd(n: int, m: int, off: int, len: int, pair: int)
    requires n + m == pair
    ensures len * m - (len - off) * pair == -(len * n - off * pair)
  {
    assert len * m == len * pair - len * n;
    assert (len - off) * pair == len * pair - off * pair;
  }

  lemma PairError(avail: int, s: int, len: int, pair: int, w0: int, w1: int, p0: int, p1: int)
    requires len == p0 + p1 && pair == w0 + w1
    requires w0 * avail - s < s * p0 < w0 * avail + s
    requires w1 * avail - s < s * p1 < w1 * avail + s
    ensures -2 * s < s * len - pair * avail < 2 * s
  {
    Distribute(s, p0, p1);
    Distribute(avail, w0, w1);
    Commute(w0, avail);
    Commute(w1, avail);
    Commute(pair, avail);
  }

  lemma ShareError(d: Divider, pointer: U16, pair: nat)
    requires d.pairLen >= 1
    ensures 0 <= DragOffset(d, pointer) <= d.pairLen
    ensures Halfway(d.pairLen, DragShare(d, pointer, pair), DragOffset(d, pointer), pair)
  {
    NearestError(DragOffset(d, pointer), pair, d.pairLen, DragShare(d, pointer, pair));
  }

  lemma {:induction false} PositiveAt(root: LayoutNode, path: seq<nat>)
    requires Positive(root) && IsSplit(root, path)
    ensures Sum(NodeAt(root, path).value.ratios) > 0
    decreases path
  {
    if path != [] { PositiveAt(root.children[path[0]], path[1..]); }
  }
}
