/** Geometric focus movement over resolved rectangles. */
module Focus {
  import opened Widths
  import opened Options
  import opened Sequences
  import opened Apportionment
  import opened Layout
  import opened Borders

  datatype FocusDir = Left | Right | Up | Down

  /** The axis a movement runs along. */
  function AxisOf(dir: FocusDir): SplitDir {
    if dir.Left? || dir.Right? then Horizontal else Vertical
  }

  /** Movement towards the low end of the axis. */
  predicate Low(dir: FocusDir) {
    dir.Left? || dir.Up?
  }

  function RightEdge(r: PaneRect): U16 {
    SatAdd(r.area.col, r.area.cols)
  }

  function BottomEdge(r: PaneRect): U16 {
    SatAdd(r.area.row, r.area.rows)
  }

  /** Overlap of `[a, a + aLen)` and `[b, b + bLen)`. */
  function AxisOverlap(a: U16, aLen: U16, b: U16, bLen: U16): nat {
    Max(0, Min(a + aLen, b + bLen) - Max(a, b))
  }

  function Overlap(cur: PaneRect, r: PaneRect, dir: FocusDir): nat {
    if dir.Left? || dir.Right? then AxisOverlap(cur.area.row, cur.area.rows, r.area.row, r.area.rows)
    else AxisOverlap(cur.area.col, cur.area.cols, r.area.col, r.area.cols)
  }

  /** How far `r` lies beyond `cur`'s edge on side `dir`; negative when it does not. */
  function Distance(cur: PaneRect, r: PaneRect, dir: FocusDir): int {
    match dir
    case Left => cur.area.col - RightEdge(r)
    case Right => r.area.col - RightEdge(cur)
    case Up => cur.area.row - BottomEdge(r)
    case Down => r.area.row - BottomEdge(cur)
  }

  predicate Candidate(cur: PaneRect, r: PaneRect, dir: FocusDir) {
    r.paneIndex != cur.paneIndex && Distance(cur, r, dir) >= 0 && Overlap(cur, r, dir) > 0
  }

  /** `p` strictly beats `q`: closer, or as close with more overlap. */
  predicate Beats(cur: PaneRect, p: PaneRect, q: PaneRect, dir: FocusDir) {
    || Distance(cur, p, dir) < Distance(cur, q, dir)
    || (Distance(cur, p, dir) == Distance(cur, q, dir) && Overlap(cur, p, dir) > Overlap(cur, q, dir))
  }

  /** The first rectangle of pane `focused`. */
  function Find(rects: seq<PaneRect>, focused: U32): (k: Option<nat>)
    ensures k.Some? ==> k.value < |rects| && rects[k.value].paneIndex == focused
    ensures k.None? ==> forall r :: r in rects ==> r.paneIndex != focused
  {
    if rects == [] then None
    else if rects[0].paneIndex == focused then Some(0)
    else match Find(rects[1..], focused) case None => None case Some(k) => Some(k + 1)
  }

  /** `rects[k]` is the lexicographic optimum among the candidates: every other one is further away, or
      as far and overlaps less, or as far with the same overlap and comes later. */
  ghost predicate Optimum(rects: seq<PaneRect>, cur: PaneRect, dir: FocusDir, k: nat) {
    && k < |rects|
    && Candidate(cur, rects[k], dir)
    && forall j :: 0 <= j < |rects| && j != k && Candidate(cur, rects[j], dir) ==>
         || Distance(cur, rects[k], dir) < Distance(cur, rects[j], dir)
         || (Distance(cur, rects[k], dir) == Distance(cur, rects[j], dir)
             && (Overlap(cur, rects[k], dir) > Overlap(cur, rects[j], dir)
                 || (Overlap(cur, rects[k], dir) == Overlap(cur, rects[j], dir) && k < j)))
  }

  /** `focus_neighbor`, for any list of rectangles. */
  method FocusNeighbor(rects: seq<PaneRect>, focused: U32, dir: FocusDir) returns (r: Option<U32>)
    ensures Find(rects, focused).None? ==> r.None?
    ensures Find(rects, focused).Some? ==>
      var cur := rects[Find(rects, focused).value];
      && (r.None? <==> forall j :: 0 <= j < |rects| ==> !Candidate(cur, rects[j], dir))
      && (r.Some? ==> exists k: nat :: Optimum(rects, cur, dir, k) && rects[k].paneIndex == r.value)
  {
    hide Distance, Overlap;
    var at := Find(rects, focused);
    if at.None? { return None; }
    var cur := rects[at.value];
    var best: Option<nat> := None;
    for j := 0 to |rects|
      invariant best.None? ==> forall i :: 0 <= i < j ==> !Candidate(cur, rects[i], dir)
      invariant best.Some? ==> best.value < j && Optimum(rects[..j], cur, dir, best.value)
    {
      assert rects[..j + 1] == rects[..j] + [rects[j]];
      if Candidate(cur, rects[j], dir) && (best.None? || Beats(cur, rects[j], rects[best.value], dir)) {
        best := Some(j);
      }
    }
    assert rects[..|rects|] == rects;
    r := if best.None? then None else Some(rects[best.value].paneIndex);
  }

  // ----- on a resolved layout

  /** The focused pane reaches the `dir` edge of the area. */
  predicate TouchesEdge(cur: PaneRect, area: Area, dir: FocusDir) {
    Touches(cur.area, area, AxisOf(dir), Low(dir))
  }

  /** Every cell of `area` is in exactly one rectangle or strip, and no other cell is in any. */
  ghost predicate Tiles(rects: seq<PaneRect>, ds: seq<Divider>, area: Area) {
    && InRange(area)
    && (forall k :: 0 <= k < |rects| ==> rects[k].area.cols > 0 && rects[k].area.rows > 0)
    && (forall x, y :: PaneHits(rects, x, y) + StripHits(ds, x, y) == Count(Contains(area, x, y)))
  }

  predicate DifferentPanes(rects: seq<PaneRect>) {
    forall p, q :: 0 <= p < q < |rects| ==> rects[p].paneIndex != rects[q].paneIndex
  }

  lemma {:induction false} HitsAt(rects: seq<PaneRect>, x: int, y: int, k: nat)
    requires k < |rects| && Contains(rects[k].area, x, y)
    ensures PaneHits(rects, x, y) >= 1
    ensures forall j :: 0 <= j < |rects| && j != k && Contains(rects[j].area, x, y) ==> PaneHits(rects, x, y) >= 2
  {
    if k > 0 {
      HitsAt(rects[1..], x, y, k - 1);
      assert forall j :: 0 < j < |rects| ==> rects[j] == rects[1..][j - 1];
    } else {
      forall j | 0 < j < |rects| && Contains(rects[j].area, x, y) ensures PaneHits(rects, x, y) >= 2 {
        HitsAt(rects[1..], x, y, j - 1);
      }
    }
  }

  lemma {:induction false} HitExists(rects: seq<PaneRect>, x: int, y: int) returns (k: nat)
    requires PaneHits(rects, x, y) >= 1
    ensures k < |rects| && Contains(rects[k].area, x, y)
  {
    if Contains(rects[0].area, x, y) {
      k := 0;
    } else {
      k := HitExists(rects[1..], x, y);
      k := k + 1;
    }
  }

  /** In a tiling a cell of a pane lies inside the area, in no other pane and in no strip. */
  lemma Owner(rects: seq<PaneRect>, ds: seq<Divider>, area: Area, x: int, y: int, i: nat)
    requires Tiles(rects, ds, area) && i < |rects| && Contains(rects[i].area, x, y)
    ensures Contains(area, x, y) && StripHits(ds, x, y) == 0
    ensures forall j :: 0 <= j < |rects| && Contains(rects[j].area, x, y) ==> j == i
  {
    HitsAt(rects, x, y, i);
    assert PaneHits(rects, x, y) + StripHits(ds, x, y) == Count(Contains(area, x, y));
  }

  lemma Inside(rects: seq<PaneRect>, ds: seq<Divider>, area: Area, k: nat)
    requires Tiles(rects, ds, area) && k < |rects|
    ensures var a := rects[k].area;
      && area.col <= a.col && a.col + a.cols <= area.col + area.cols
      && area.row <= a.row && a.row + a.rows <= area.row + area.rows
  {
    hide StripHits;
    var a := rects[k].area;
    Owner(rects, ds, area, a.col, a.row, k);
    Owner(rects, ds, area, a.col + a.cols - 1, a.row + a.rows - 1, k);
  }

  /** Distance and overlap along the axes, where no edge saturates. */
  lemma Measured(cur: PaneRect, r: PaneRect, dir: FocusDir)
    requires InRange(cur.area) && InRange(r.area)
    ensures var axis, across := AxisOf(dir), Across(AxisOf(dir));
      && Distance(cur, r, dir) == (if Low(dir) then AxisStart(axis, cur.area) - AxisEnd(axis, r.area)
                                   else AxisStart(axis, r.area) - AxisEnd(axis, cur.area))
      && Overlap(cur, r, dir) == Max(0, Min(AxisEnd(across, cur.area), AxisEnd(across, r.area))
                                      - Max(AxisStart(across, cur.area), AxisStart(across, r.area)))
  {}

  /** A cell of the area straight ahead of that side of `r`. */
  predicate Ahead(r: Area, area: Area, dir: FocusDir, x: int, y: int) {
    var axis, across := AxisOf(dir), Across(AxisOf(dir));
    && Contains(area, x, y)
    && AxisStart(across, r) <= AxisCell(across, x, y) < AxisEnd(across, r)
    && if Low(dir) then AxisCell(axis, x, y) < AxisStart(axis, r) else AxisEnd(axis, r) <= AxisCell(axis, x, y)
  }

  /** How far beyond that side of `r` a cell lies. */
  function CellsAhead(r: Area, dir: FocusDir, x: int, y: int): int {
    var axis := AxisOf(dir);
    if Low(dir) then AxisStart(axis, r) - 1 - AxisCell(axis, x, y) else AxisCell(axis, x, y) - AxisEnd(axis, r)
  }

  /** A candidate has a cell straight ahead, as far away as it is. */
  lemma CandidateAhead(rects: seq<PaneRect>, ds: seq<Divider>, area: Area, i: nat, j: nat, dir: FocusDir)
    returns (x: int, y: int)
    requires Tiles(rects, ds, area) && i < |rects| && j < |rects| && Candidate(rects[i], rects[j], dir)
    ensures Ahead(rects[i].area, area, dir, x, y) && Contains(rects[j].area, x, y)
    ensures CellsAhead(rects[i].area, dir, x, y) == Distance(rects[i], rects[j], dir)
  {
    hide PaneHits, StripHits, Distance, Overlap;
    var axis, across := AxisOf(dir), Across(AxisOf(dir));
    var a, b := rects[i].area, rects[j].area;
    Inside(rects, ds, area, i);
    Inside(rects, ds, area, j);
    Measured(rects[i], rects[j], dir);
    var u := if Low(dir) then AxisEnd(axis, b) - 1 else AxisStart(axis, b);
    var v := Max(AxisStart(across, a), AxisStart(across, b));
    x, y := AxisCell(axis, u, v), AxisCell(across, u, v);
  }

  /** A pane with a cell straight ahead is a candidate, no further away than that cell. */
  lemma AheadIsCandidate(rects: seq<PaneRect>, ds: seq<Divider>, area: Area, i: nat, j: nat, dir: FocusDir, x: int,
                         y: int)
    requires Tiles(rects, ds, area) && DifferentPanes(rects) && i < |rects| && j < |rects|
    requires Ahead(rects[i].area, area, dir, x, y) && Contains(rects[j].area, x, y)
    ensures Candidate(rects[i], rects[j], dir)
    ensures Distance(rects[i], rects[j], dir) <= CellsAhead(rects[i].area, dir, x, y)
  {
    hide PaneHits, StripHits, Distance, Overlap;
    var axis, across := AxisOf(dir), Across(AxisOf(dir));
    var a, b := rects[i].area, rects[j].area;
    Inside(rects, ds, area, i);
    Inside(rects, ds, area, j);
    Measured(rects[i], rects[j], dir);
    // The cell of the focused pane on that side, in line with the given one.
    var u, v := EdgeCell(axis, a, Low(dir)), AxisCell(across, x, y);
    var p, q := AxisCell(axis, u, v), AxisCell(across, u, v);
    assert Contains(a, p, q) && !Contains(a, x, y);
    Owner(rects, ds, area, p, q, i);
    assert !Contains(b, p, q);
  }

  /** On a tiling, with or without gutters, focus moves nowhere exactly when all of the area straight
      ahead of the focused pane is taken by divider strips. */
  lemma NoCandidateIff(rects: seq<PaneRect>, ds: seq<Divider>, area: Area, i: nat, dir: FocusDir)
    requires Tiles(rects, ds, area) && DifferentPanes(rects) && i < |rects|
    ensures (forall j :: 0 <= j < |rects| ==> !Candidate(rects[i], rects[j], dir)) <==>
      (forall x, y :: Ahead(rects[i].area, area, dir, x, y) ==> StripHits(ds, x, y) >= 1)
  {
    hide PaneHits, StripHits, Ahead, Candidate, Contains;
    forall j | 0 <= j < |rects| && Candidate(rects[i], rects[j], dir)
      ensures exists x, y :: Ahead(rects[i].area, area, dir, x, y) && StripHits(ds, x, y) == 0
    {
      var x, y := CandidateAhead(rects, ds, area, i, j, dir);
      Owner(rects, ds, area, x, y, j);
    }
    forall x, y | Ahead(rects[i].area, area, dir, x, y) && StripHits(ds, x, y) == 0
      ensures exists j :: 0 <= j < |rects| && Candidate(rects[i], rects[j], dir)
    {
      AheadInside(rects[i].area, area, dir, x, y);
      assert PaneHits(rects, x, y) + StripHits(ds, x, y) == Count(Contains(area, x, y));
      var k := HitExists(rects, x, y);
      AheadIsCandidate(rects, ds, area, i, k, dir, x, y);
    }
  }

  lemma AheadInside(r: Area, area: Area, dir: FocusDir, x: int, y: int)
    requires Ahead(r, area, dir, x, y)
    ensures Contains(area, x, y)
  {}

  // ----- how far focus moves

  /** The resolver's rectangles and strips tile the area. */
  lemma ResolvedTiles(node: LayoutNode, area: Area, cfg: Config)
    requires Fitting(node, area, cfg)
    ensures Tiles(Resolve(node, area, cfg), Dividers(node, [], area, cfg), area)
  {
    hide Resolve, Dividers, Fits, PaneHits, StripHits, Positive, Contains;
    forall x, y
      ensures PaneHits(Resolve(node, area, cfg), x, y) + StripHits(Dividers(node, [], area, cfg), x, y)
           == Count(Contains(area, x, y))
    {
      ExactPartition(node, [], area, cfg, x, y);
    }
    MinimumKept(node, area, cfg);
  }

  lemma DistinctRects(node: LayoutNode, area: Area, cfg: Config)
    requires Arity(node) && Distinct(Leaves(node))
    ensures var rects := Resolve(node, area, cfg);
      && DifferentPanes(rects)
      && (forall f :: f in Leaves(node) ==> exists i :: 0 <= i < |rects| && rects[i].paneIndex == f)
      && (forall i :: 0 <= i < |rects| ==> rects[i].paneIndex in Leaves(node))
  {
    hide Resolve, Leaves;
    LeafOrder(node, area, cfg);
    var rects := Resolve(node, area, cfg);
    assert forall i :: 0 <= i < |rects| ==> Panes(rects)[i] == rects[i].paneIndex;
  }

  /** No pane across a gutter is nearer than the gutter is wide. */
  lemma NotNearer(rects: seq<PaneRect>, ds: seq<Divider>, area: Area, cfg: Config, i: nat, j: nat, dir: FocusDir)
    requires Tiles(rects, ds, area) && i < |rects| && j < |rects| && Candidate(rects[i], rects[j], dir)
    requires Bordered(rects, ds, rects[i].area, AxisOf(dir), Low(dir), cfg)
    ensures Distance(rects[i], rects[j], dir) >= Gutter(AxisOf(dir), cfg)
  {
    hide PaneHits, StripHits, Candidate, Distance;
    var x, y := CandidateAhead(rects, ds, area, i, j, dir);
    GutterAhead(rects, ds, rects[i].area, area, cfg, dir, x, y);
    Owner(rects, ds, area, x, y, j);
  }

  lemma GutterAhead(rects: seq<PaneRect>, ds: seq<Divider>, r: Area, area: Area, cfg: Config, dir: FocusDir, x: int,
                    y: int)
    requires Bordered(rects, ds, r, AxisOf(dir), Low(dir), cfg) && Ahead(r, area, dir, x, y)
    ensures CellsAhead(r, dir, x, y) < Gutter(AxisOf(dir), cfg) ==> StripHits(ds, x, y) >= 1
  {
    hide PaneHits, StripHits;
    var axis, d := AxisOf(dir), CellsAhead(r, dir, x, y);
    if d < Gutter(axis, cfg) {
      assert StripsAt(ds, axis, Beyond(axis, r, Low(dir), d), AxisCell(Across(axis), x, y)) >= 1;
    }
  }

  lemma NoneAtEdge(rects: seq<PaneRect>, ds: seq<Divider>, area: Area, i: nat, j: nat, dir: FocusDir)
    requires Tiles(rects, ds, area) && i < |rects| && j < |rects| && TouchesEdge(rects[i], area, dir)
    ensures !Candidate(rects[i], rects[j], dir)
  {
    hide PaneHits, StripHits;
    Inside(rects, ds, area, i);
    Inside(rects, ds, area, j);
    Measured(rects[i], rects[j], dir);
  }

  /** A pane thicker than the gutter across has a candidate right behind the gutter. */
  lemma BehindGutter(rects: seq<PaneRect>, ds: seq<Divider>, area: Area, cfg: Config, i: nat, dir: FocusDir)
    returns (k: nat)
    requires Tiles(rects, ds, area) && DifferentPanes(rects) && i < |rects|
    requires Bordered(rects, ds, rects[i].area, AxisOf(dir), Low(dir), cfg) && ThickSide(rects[i], cfg, dir)
    ensures k < |rects| && Candidate(rects[i], rects[k], dir)
    ensures Distance(rects[i], rects[k], dir) == Gutter(AxisOf(dir), cfg)
  {
    hide PaneHits, StripHits, Candidate, Distance;
    var axis, across := AxisOf(dir), Across(AxisOf(dir));
    var a := rects[i].area;
    var u := Beyond(axis, a, Low(dir), Gutter(axis, cfg));
    var v :| AxisStart(across, a) <= v < AxisEnd(across, a) && PanesAt(rects, axis, u, v) >= 1;
    var x, y := AxisCell(axis, u, v), AxisCell(across, u, v);
    k := HitExists(rects, x, y);
    Owner(rects, ds, area, x, y, k);
    AheadIsCandidate(rects, ds, area, i, k, dir, x, y);
    NotNearer(rects, ds, area, cfg, i, k, dir);
  }

  /** The pane's side is longer than a gutter that might lie across. */
  predicate ThickSide(cur: PaneRect, cfg: Config, dir: FocusDir) {
    AxisLen(Across(AxisOf(dir)), cur.area) > Gutter(Across(AxisOf(dir)), cfg)
  }

  /** In a resolved layout no pane is a candidate at less than the gutter; and a pane whose side is
      longer than the gutter across has no candidate exactly at the edge of the area, and otherwise one
      right behind the gutter, so that the optimum lies there. */
  lemma NeighbourOnLayout(node: LayoutNode, area: Area, cfg: Config, i: nat, dir: FocusDir)
    requires Fitting(node, area, cfg) && Distinct(Leaves(node)) && i < |Resolve(node, area, cfg)|
    ensures var rects := Resolve(node, area, cfg);
      && (forall j :: 0 <= j < |rects| && Candidate(rects[i], rects[j], dir) ==>
            Distance(rects[i], rects[j], dir) >= Gutter(AxisOf(dir), cfg))
      && (TouchesEdge(rects[i], area, dir) ==> forall j :: 0 <= j < |rects| ==> !Candidate(rects[i], rects[j], dir))
      && (!TouchesEdge(rects[i], area, dir) && ThickSide(rects[i], cfg, dir) ==>
            && (exists j :: 0 <= j < |rects| && Candidate(rects[i], rects[j], dir))
            && forall k: nat :: Optimum(rects, rects[i], dir, k) ==>
                 Distance(rects[i], rects[k], dir) == Gutter(AxisOf(dir), cfg))
  {
    hide Resolve, Dividers, Fits, Positive, Arity, Leaves, Tiles, Touches, Bordered, Candidate, Distance, Overlap;
    var rects, ds := Resolve(node, area, cfg), Dividers(node, [], area, cfg);
    ResolvedTiles(node, area, cfg);
    DistinctRects(node, area, cfg);
    if TouchesEdge(rects[i], area, dir) {
      forall j | 0 <= j < |rects| ensures !Candidate(rects[i], rects[j], dir) {
        NoneAtEdge(rects, ds, area, i, j, dir);
      }
    } else {
      PaneBordered(node, [], area, cfg, rects[i], AxisOf(dir), Low(dir));
      forall j | 0 <= j < |rects| && Candidate(rects[i], rects[j], dir)
        ensures Distance(rects[i], rects[j], dir) >= Gutter(AxisOf(dir), cfg)
      {
        NotNearer(rects, ds, area, cfg, i, j, dir);
      }
      if ThickSide(rects[i], cfg, dir) {
        var k := BehindGutter(rects, ds, area, cfg, i, dir);
      }
    }
  }

  /** `r` is where focus goes from `rects[i]`: nowhere exactly if all straight ahead is divider;
      from a side longer than the gutter across, nowhere exactly at the edge of the area and otherwise
      just over the gutter. */
  ghost predicate GoodMove(rects: seq<PaneRect>, ds: seq<Divider>, area: Area, cfg: Config, dir: FocusDir, i: nat,
                           r: Option<U32>)
    requires i < |rects|
  {
    && (r.None? <==> forall x, y :: Ahead(rects[i].area, area, dir, x, y) ==> StripHits(ds, x, y) >= 1)
    && (ThickSide(rects[i], cfg, dir) ==> (r.None? <==> TouchesEdge(rects[i], area, dir)))
    && (r.Some? ==> exists k: nat :: OverGutter(rects, cfg, dir, i, k) && r == Some(rects[k].paneIndex))
  }

  /** `rects[k]` is the optimum, at least a gutter away and from a long enough side exactly that. */
  ghost predicate OverGutter(rects: seq<PaneRect>, cfg: Config, dir: FocusDir, i: nat, k: nat)
    requires i < |rects|
  {
    && Optimum(rects, rects[i], dir, k)
    && Distance(rects[i], rects[k], dir) >= Gutter(AxisOf(dir), cfg)
    && (ThickSide(rects[i], cfg, dir) ==> Distance(rects[i], rects[k], dir) == Gutter(AxisOf(dir), cfg))
  }

  /** What the client does on a focus key: resolve the tab and move over its rectangles. */
  method MoveFocus(node: LayoutNode, areaCols: U16, areaRows: U16, cfg: Config, focused: U32, dir: FocusDir)
    returns (rects: seq<PaneRect>, r: Option<U32>)
    requires Fitting(node, Area(0, 0, areaCols, areaRows), cfg) && Distinct(Leaves(node))
    ensures rects == Resolve(node, Area(0, 0, areaCols, areaRows), cfg)
    ensures focused !in Leaves(node) ==> r.None?
    ensures focused in Leaves(node) ==>
      var area := Area(0, 0, areaCols, areaRows);
      exists i: nat :: i < |rects| && rects[i].paneIndex == focused
        && GoodMove(rects, Dividers(node, [], area, cfg), area, cfg, dir, i, r)
  {
    hide Resolve, Leaves, Fits, Positive, Arity, Tiles, TouchesEdge, Distance, Overlap, Dividers, Candidate;
    hide Ahead, StripHits;
    var area := Area(0, 0, areaCols, areaRows);
    rects := ResolveLayout(node, areaCols, areaRows, cfg);
    DistinctRects(node, area, cfg);
    r := FocusNeighbor(rects, focused, dir);
    var at := Find(rects, focused);
    if at.Some? {
      ResolvedTiles(node, area, cfg);
      NoCandidateIff(rects, Dividers(node, [], area, cfg), area, at.value, dir);
      NeighbourOnLayout(node, area, cfg, at.value, dir);
      assert GoodMove(rects, Dividers(node, [], area, cfg), area, cfg, dir, at.value, r);
    }
  }

  // ----- a pane that focus cannot leave

  /** Two columns: panes of one, one and two rows, and panes of two and three rows. */
  function TwoColumns(): LayoutNode {
    Split(Horizontal, [500, 500], [LeftColumn(), RightColumn()])
  }

  function LeftColumn(): LayoutNode {
    Split(Vertical, [250, 250, 500], [Leaf(0), Leaf(1), Leaf(2)])
  }

  function RightColumn(): LayoutNode {
    Split(Vertical, [400, 600], [Leaf(3), Leaf(4)])
  }

  /** The configuration the client resolves with. */
  const OneCell := Config(1, 1, 1, 1)

  lemma PlaceTwo(start: U16, a: U16, b: U16, g: U16)
    requires start + a + g + b + g <= U16_MAX
    ensures Place(start, [a, b], g) == [(start, a), (start + a + g, b)]
  {
    assert [a, b][1..] == [b] && [b][1..] == [];
    assert Place(start + a + g, [b], g) == [(start + a + g, b)];
  }

  lemma ColumnExtents(col: U16)
    ensures var area := Area(col, 0, 10, 6);
      && ChildExtents(Vertical, [250, 250, 500], area, OneCell) == [(0, 1), (2, 1), (4, 2)]
      && ChildExtents(Vertical, [400, 600], area, OneCell) == [(0, 2), (3, 3)]
  {
    hide Alloc;
    SumOfThree(250, 250, 500);
    SumOfThree(1, 1, 2);
    SumOfTwo(400, 600);
    SumOfTwo(2, 3);
    WholeQuotas(4, 1000, [250, 250, 500], [1, 1, 2]);
    WholeQuotas(5, 1000, [400, 600], [2, 3]);
    assert [1, 1, 2][1..] == [1, 2];
    PlaceTwo(2, 1, 2, 1);
    PlaceTwo(0, 2, 3, 1);
    assert Place(0, [1, 1, 2], 1) == [(0, 1), (2, 1), (4, 2)];
  }

  lemma ColumnsExtents()
    ensures ChildExtents(Horizontal, [500, 500], Area(0, 0, 21, 6), OneCell) == [(0, 10), (11, 10)]
  {
    hide Alloc;
    SumOfTwo(500, 500);
    SumOfTwo(10, 10);
    WholeQuotas(20, 1000, [500, 500], [10, 10]);
    PlaceTwo(0, 10, 10, 1);
  }

  lemma ResolveTwo(c: LayoutNode, d: LayoutNode, dir: SplitDir, e: Extent, f: Extent, area: Area, cfg: Config)
    requires Arity(c) && Arity(d)
    ensures ResolveAll([c, d], dir, [e, f], area, cfg)
         == Resolve(c, Along(dir, area, e), cfg) + Resolve(d, Along(dir, area, f), cfg)
    ensures FitsAll([c, d], dir, [e, f], area, cfg)
        <==> Fits(c, Along(dir, area, e), cfg) && Fits(d, Along(dir, area, f), cfg)
  {
    hide Resolve, Fits;
    assert [c, d][1..] == [d] && [e, f][1..] == [f] && [d][1..] == [] && [f][1..] == [];
    assert ResolveAll([d], dir, [f], area, cfg) == Resolve(d, Along(dir, area, f), cfg);
    assert FitsAll([d], dir, [f], area, cfg) <==> Fits(d, Along(dir, area, f), cfg);
  }

  lemma Columns(col: U16)
    ensures Arity(LeftColumn()) && Arity(RightColumn())
    ensures var area := Area(col, 0, 10, 6);
      && Fits(LeftColumn(), area, OneCell) && Fits(RightColumn(), area, OneCell)
      && Resolve(LeftColumn(), area, OneCell)
         == [PaneRect(0, Area(col, 0, 10, 1)), PaneRect(1, Area(col, 2, 10, 1)), PaneRect(2, Area(col, 4, 10, 2))]
      && Resolve(RightColumn(), area, OneCell) == [PaneRect(3, Area(col, 0, 10, 2)), PaneRect(4, Area(col, 3, 10, 3))]
  {
    hide ChildExtents;
    var area := Area(col, 0, 10, 6);
    ColumnExtents(col);
    ResolveTwo(Leaf(3), Leaf(4), Vertical, (0, 2), (3, 3), area, OneCell);
    ResolveTwo(Leaf(1), Leaf(2), Vertical, (2, 1), (4, 2), area, OneCell);
    assert [Leaf(0), Leaf(1), Leaf(2)][1..] == [Leaf(1), Leaf(2)];
    assert [(0, 1), (2, 1), (4, 2)][1..] == [(2, 1), (4, 2)];
  }

  /** With the client's own gutters a pane may have nowhere to go although it does not reach the edge:
      pane 1 has one row, and across from that row lies the divider between panes 3 and 4. */
  lemma StuckPane()
    ensures var node, area := TwoColumns(), Area(0, 0, 21, 6);
      && Fitting(node, area, OneCell) &&
      var rects := Resolve(node, area, OneCell);
      && |rects| == 5 && rects[1] == PaneRect(1, Area(0, 2, 10, 1))
      && !TouchesEdge(rects[1], area, Right)
      && forall j :: 0 <= j < 5 ==> !Candidate(rects[1], rects[j], Right)
  {
    hide ChildExtents, Resolve, Fits;
    var node, area := TwoColumns(), Area(0, 0, 21, 6);
    Columns(0);
    Columns(11);
    ColumnsExtents();
    SumOfTwo(500, 500);
    SumOfTwo(400, 600);
    SumOfThree(250, 250, 500);
    ResolveTwo(LeftColumn(), RightColumn(), Horizontal, (0, 10), (11, 10), area, OneCell);
    SplitResolves(node, area, OneCell);
  }

  lemma SplitResolves(node: LayoutNode, area: Area, cfg: Config)
    requires Arity(node) && node.Split?
    ensures var es := ChildExtents(node.dir, node.ratios, area, cfg);
      && Resolve(node, area, cfg) == ResolveAll(node.children, node.dir, es, area, cfg)
      && (Fits(node, area, cfg) <==> (|node.ratios| - 1) * Gutter(node.dir, cfg) <= AxisLen(node.dir, area)
                                     && FitsAll(node.children, node.dir, es, area, cfg))
  {}
}
