/**
 * Placement rules: whether a segment lies on a free lattice edge, whether a whole stick fits at an
 * origin, the stick's centre offset, and the exhaustive search for some origin where it fits.
 * Every query is a pure function of the grid, so none of them changes a dot, slot or cell.
 */
module GridValidator {
  import opened Wrappers
  import opened Geometry
  import opened GridState
  import opened ConnectionManager
  import opened Sticks
  import opened Rounding

  /** Both dots in bounds and one lattice step apart. */
  predicate IsValidConnection(g: Grid, start: Pos, end: Pos) {
    IsWithinBounds(g, start) && IsWithinBounds(g, end) && UnitAdjacent(start, end)
  }

  /** `conn == null || conn.IsOccupied`: a pair with no slot between them counts as occupied. */
  predicate IsConnectionOccupied(g: Grid, start: Pos, end: Pos) {
    var c := GetConnection(g, start, end);
    c.None? || Occupied(g, c.value)
  }

  /**
   * For a valid pair on a well-formed grid, occupied exactly when some occupied edge joins the
   * two dots; any pair without a slot between them reads as occupied.
   */
  lemma IsConnectionOccupiedMeaning(g: Grid, start: Pos, end: Pos)
    ensures GetConnection(g, start, end).None? ==> IsConnectionOccupied(g, start, end)
    ensures WellFormed(g) && IsValidConnection(g, start, end) ==>
      (IsConnectionOccupied(g, start, end) <==> exists e :: Occupied(g, e) && IsEndpoint(start, e) && IsEndpoint(end, e))
  {
    if WellFormed(g) && IsValidConnection(g, start, end) {
      OccupiedEdgeBetween(g, start, end);
    }
  }

  /** On a well-formed grid the only slot with both dots of a valid pair as endpoints is the one found. */
  lemma OccupiedEdgeBetween(g: Grid, start: Pos, end: Pos)
    requires WellFormed(g) && IsValidConnection(g, start, end)
    ensures GetConnection(g, start, end).Some?
    ensures forall e :: HasConnection(g, e) && IsEndpoint(start, e) && IsEndpoint(end, e)
                        ==> GetConnection(g, start, end) == Some(e)
  {
    forall e | HasConnection(g, e) && IsEndpoint(start, e) && IsEndpoint(end, e)
      ensures GetConnection(g, start, end) == Some(e)
    {
      GetConnectionOfEndpoints(g, e);
    }
  }

  /** The lattice point a stick point lands on: `origin + p - RoundToInt(centerOffset)`. */
  function Placed(origin: Pos, p: Pos, offset: Pos): Pos {
    origin.Plus(p).Minus(offset)
  }

  /** `IsValidPlacement`: every segment lands in bounds as a unit step. */
  predicate IsValidPlacement(g: Grid, origin: Pos, segs: seq<Segment>, offset: Pos) {
    forall i :: 0 <= i < |segs| ==>
      IsValidConnection(g, Placed(origin, segs[i].start, offset), Placed(origin, segs[i].end, offset))
  }

  /**
   * `CanPlaceStick`: a valid placement whose every segment lands on a slot that exists and is
   * free. The centre offset is passed already rounded, as every use of it in the source rounds it.
   */
  predicate CanPlaceStick(g: Grid, origin: Pos, segs: seq<Segment>, offset: Pos) {
    && IsValidPlacement(g, origin, segs, offset)
    && forall i :: 0 <= i < |segs| ==>
         !IsConnectionOccupied(g, Placed(origin, segs[i].start, offset), Placed(origin, segs[i].end, offset))
  }

  /**
   * On a well-formed grid a stick fits exactly when every segment lands in bounds as a unit step
   * and no occupied edge joins its two landing dots.
   */
  lemma CanPlaceStickMeaning(g: Grid, origin: Pos, segs: seq<Segment>, offset: Pos)
    requires WellFormed(g)
    ensures CanPlaceStick(g, origin, segs, offset) <==>
      forall i :: 0 <= i < |segs| ==>
        var a, b := Placed(origin, segs[i].start, offset), Placed(origin, segs[i].end, offset);
        IsValidConnection(g, a, b) && !exists e :: Occupied(g, e) && IsEndpoint(a, e) && IsEndpoint(b, e)
  {
    forall i | 0 <= i < |segs| {
      IsConnectionOccupiedMeaning(g, Placed(origin, segs[i].start, offset), Placed(origin, segs[i].end, offset));
    }
  }

  /** One coordinate of a point: x when alongX, y otherwise. */
  function Coord(p: Pos, alongX: bool): int {
    if alongX then p.x else p.y
  }

  /** Sum over the segments of start + end along one axis: twice the sum of the midpoints. */
  function SumCoord(segs: seq<Segment>, alongX: bool): int
    decreases |segs|
  {
    if segs == [] then 0
    else Coord(segs[0].start, alongX) + Coord(segs[0].end, alongX) + SumCoord(segs[1..], alongX)
  }

  /**
   * `CalculateStickCenterOffset` followed by `Vector2Int.RoundToInt`: the mean of the segment
   * midpoints, SumCoord / (2n) per axis, rounded to nearest with halves to even.
   */
  function CenterOffset(segs: seq<Segment>): (r: Pos)
    requires |segs| > 0
    ensures IsRoundHalfEven(SumCoord(segs, true), 2 * |segs|, r.x)
    ensures IsRoundHalfEven(SumCoord(segs, false), 2 * |segs|, r.y)
  {
    Pos(RoundHalfEven(SumCoord(segs, true), 2 * |segs|), RoundHalfEven(SumCoord(segs, false), 2 * |segs|))
  }

  /** The least coordinate along one axis over both ends of every segment. */
  function MinCoord(segs: seq<Segment>, alongX: bool): (r: int)
    requires |segs| > 0
    ensures forall i :: 0 <= i < |segs| ==> r <= Coord(segs[i].start, alongX) && r <= Coord(segs[i].end, alongX)
    ensures exists i :: 0 <= i < |segs| && (r == Coord(segs[i].start, alongX) || r == Coord(segs[i].end, alongX))
    decreases |segs|
  {
    var here := Min(Coord(segs[0].start, alongX), Coord(segs[0].end, alongX));
    if |segs| == 1 then here
    else
      var rest := MinCoord(segs[1..], alongX);
      assert forall i :: 1 <= i < |segs| ==> segs[i] == segs[1..][i - 1];
      Min(here, rest)
  }

  /** The greatest coordinate along one axis over both ends of every segment. */
  function MaxCoord(segs: seq<Segment>, alongX: bool): (r: int)
    requires |segs| > 0
    ensures forall i :: 0 <= i < |segs| ==> Coord(segs[i].start, alongX) <= r && Coord(segs[i].end, alongX) <= r
    ensures exists i :: 0 <= i < |segs| && (r == Coord(segs[i].start, alongX) || r == Coord(segs[i].end, alongX))
    decreases |segs|
  {
    var here := Max(Coord(segs[0].start, alongX), Coord(segs[0].end, alongX));
    if |segs| == 1 then here
    else
      var rest := MaxCoord(segs[1..], alongX);
      assert forall i :: 1 <= i < |segs| ==> segs[i] == segs[1..][i - 1];
      Max(here, rest)
  }

  /** The sum of 2n endpoint coordinates lies between 2n times the least and 2n times the greatest. */
  lemma {:induction false} SumCoordBounds(segs: seq<Segment>, alongX: bool, lo: int, hi: int)
    requires forall i :: 0 <= i < |segs| ==>
      lo <= Coord(segs[i].start, alongX) <= hi && lo <= Coord(segs[i].end, alongX) <= hi
    ensures lo * (2 * |segs|) <= SumCoord(segs, alongX) <= hi * (2 * |segs|)
    decreases |segs|
  {
    if segs != [] {
      assert forall i :: 0 <= i < |segs[1..]| ==> segs[1..][i] == segs[i + 1];
      SumCoordBounds(segs[1..], alongX, lo, hi);
      var k := 2 * |segs[1..]|;
      assert 2 * |segs| == k + 2;
      MulAddTwo(lo, k);
      MulAddTwo(hi, k);
    }
  }

  lemma MulAddTwo(a: int, k: int)
    ensures a * (k + 2) == a * k + 2 * a
  {
  }

  /** The rounded centre lies in the bounding box of the stick's endpoints. */
  lemma CenterInBoundingBox(segs: seq<Segment>)
    requires |segs| > 0
    ensures MinCoord(segs, true) <= CenterOffset(segs).x <= MaxCoord(segs, true)
    ensures MinCoord(segs, false) <= CenterOffset(segs).y <= MaxCoord(segs, false)
  {
    SumCoordBounds(segs, true, MinCoord(segs, true), MaxCoord(segs, true));
    SumCoordBounds(segs, false, MinCoord(segs, false), MaxCoord(segs, false));
    RoundHalfEvenBetween(SumCoord(segs, true), 2 * |segs|, MinCoord(segs, true), MaxCoord(segs, true));
    RoundHalfEvenBetween(SumCoord(segs, false), 2 * |segs|, MinCoord(segs, false), MaxCoord(segs, false));
  }

  /** Width along x, height along y. */
  function Size(g: Grid, alongX: bool): int {
    if alongX then g.width else g.height
  }

  /**
   * First scanned origin coordinate: `Max(0, -min)` where min is the least endpoint coordinate
   * after subtracting the rounded centre.
   */
  function ScanStart(segs: seq<Segment>, alongX: bool): int
    requires |segs| > 0
  {
    Max(0, -(MinCoord(segs, alongX) - Coord(CenterOffset(segs), alongX)))
  }

  /** Last scanned origin coordinate: `Min(size - 1, size - 1 - max)`, max shifted likewise. */
  function ScanEnd(g: Grid, segs: seq<Segment>, alongX: bool): int
    requires |segs| > 0
  {
    Min(Size(g, alongX) - 1, Size(g, alongX) - 1 - (MaxCoord(segs, alongX) - Coord(CenterOffset(segs), alongX)))
  }

  /** Coordinates of a landing point are computed axis by axis. */
  lemma CoordPlaced(origin: Pos, p: Pos, offset: Pos, alongX: bool)
    ensures Coord(Placed(origin, p, offset), alongX) == Coord(origin, alongX) + Coord(p, alongX) - Coord(offset, alongX)
  {
  }

  /** Every endpoint of the placed stick lies within [0, size) along one axis. */
  predicate PlacedInRange(g: Grid, origin: Pos, segs: seq<Segment>, offset: Pos, alongX: bool) {
    forall i :: 0 <= i < |segs| ==>
      && 0 <= Coord(Placed(origin, segs[i].start, offset), alongX) < Size(g, alongX)
      && 0 <= Coord(Placed(origin, segs[i].end, offset), alongX) < Size(g, alongX)
  }

  /**
   * The clamps against 0 and size - 1 at the start and end of the scan never bite, because the
   * rounded centre lies inside the bounding box.
   */
  lemma ScanClampsRedundant(g: Grid, segs: seq<Segment>, alongX: bool)
    requires |segs| > 0
    ensures ScanStart(segs, alongX) == Coord(CenterOffset(segs), alongX) - MinCoord(segs, alongX)
    ensures ScanEnd(g, segs, alongX)
            == Size(g, alongX) - 1 - (MaxCoord(segs, alongX) - Coord(CenterOffset(segs), alongX))
  {
    CenterInBoundingBox(segs);
  }

  /** The scanned range along one axis is exactly the origins that keep every endpoint in bounds. */
  lemma ScanRangeExact(g: Grid, segs: seq<Segment>, origin: Pos, alongX: bool)
    requires |segs| > 0
    ensures PlacedInRange(g, origin, segs, CenterOffset(segs), alongX)
            <==> ScanStart(segs, alongX) <= Coord(origin, alongX) <= ScanEnd(g, segs, alongX)
  {
    ScanClampsRedundant(g, segs, alongX);
    var off := CenterOffset(segs);
    var lo, hi := MinCoord(segs, alongX), MaxCoord(segs, alongX);
    var o, c, n := Coord(origin, alongX), Coord(off, alongX), Size(g, alongX);
    if PlacedInRange(g, origin, segs, off, alongX) {
      var i :| 0 <= i < |segs| && (lo == Coord(segs[i].start, alongX) || lo == Coord(segs[i].end, alongX));
      var j :| 0 <= j < |segs| && (hi == Coord(segs[j].start, alongX) || hi == Coord(segs[j].end, alongX));
      CoordPlaced(origin, segs[i].start, off, alongX);
      CoordPlaced(origin, segs[i].end, off, alongX);
      CoordPlaced(origin, segs[j].start, off, alongX);
      CoordPlaced(origin, segs[j].end, off, alongX);
      assert o + lo - c >= 0;
      assert o + hi - c < n;
    }
    if ScanStart(segs, alongX) <= o <= ScanEnd(g, segs, alongX) {
      forall i | 0 <= i < |segs|
        ensures 0 <= Coord(Placed(origin, segs[i].start, off), alongX) < n
        ensures 0 <= Coord(Placed(origin, segs[i].end, off), alongX) < n
      {
        CoordPlaced(origin, segs[i].start, off, alongX);
        CoordPlaced(origin, segs[i].end, off, alongX);
      }
    }
  }

  /** An origin where the stick fits lies in the scanned rectangle. */
  lemma PlaceableInScan(g: Grid, segs: seq<Segment>, origin: Pos)
    requires |segs| > 0 && CanPlaceStick(g, origin, segs, CenterOffset(segs))
    ensures ScanStart(segs, true) <= origin.x <= ScanEnd(g, segs, true)
    ensures ScanStart(segs, false) <= origin.y <= ScanEnd(g, segs, false)
  {
    var off := CenterOffset(segs);
    forall i | 0 <= i < |segs|
      ensures 0 <= Placed(origin, segs[i].start, off).x < g.width && 0 <= Placed(origin, segs[i].start, off).y < g.height
      ensures 0 <= Placed(origin, segs[i].end, off).x < g.width && 0 <= Placed(origin, segs[i].end, off).y < g.height
    {
      assert IsValidConnection(g, Placed(origin, segs[i].start, off), Placed(origin, segs[i].end, off));
    }
    assert PlacedInRange(g, origin, segs, off, true);
    assert PlacedInRange(g, origin, segs, off, false);
    ScanRangeExact(g, segs, origin, true);
    ScanRangeExact(g, segs, origin, false);
  }

  /** If no origin in the scanned rectangle fits, no origin at all fits. */
  lemma NoFitOutsideScan(g: Grid, segs: seq<Segment>)
    requires |segs| > 0
    requires forall a, b ::
      ScanStart(segs, true) <= a <= ScanEnd(g, segs, true) && ScanStart(segs, false) <= b <= ScanEnd(g, segs, false)
      ==> !CanPlaceStick(g, Pos(a, b), segs, CenterOffset(segs))
    ensures forall o: Pos :: !CanPlaceStick(g, o, segs, CenterOffset(segs))
  {
    forall o: Pos | CanPlaceStick(g, o, segs, CenterOffset(segs)) ensures false {
      PlaceableInScan(g, segs, o);
    }
  }

  /** Searching the scanned rectangle answers whether the stick fits anywhere. */
  lemma ScanDecides(g: Grid, segs: seq<Segment>, found: bool)
    requires |segs| > 0
    requires found <==> exists a, b ::
      && ScanStart(segs, true) <= a <= ScanEnd(g, segs, true)
      && ScanStart(segs, false) <= b <= ScanEnd(g, segs, false)
      && CanPlaceStick(g, Pos(a, b), segs, CenterOffset(segs))
    ensures found <==> exists o: Pos :: CanPlaceStick(g, o, segs, CenterOffset(segs))
  {
    if !found {
      NoFitOutsideScan(g, segs);
    }
  }

  /** The inner loop of the scan: some origin (x, b) with b in [y0, y1] where the stick fits. */
  method ScanColumn(g: Grid, segs: seq<Segment>, offset: Pos, x: int, y0: int, y1: int) returns (found: bool)
    ensures found <==> exists b :: y0 <= b <= y1 && CanPlaceStick(g, Pos(x, b), segs, offset)
  {
    var y := y0;
    while y <= y1
      invariant y0 <= y || y1 < y0
      invariant forall b :: y0 <= b < y ==> !CanPlaceStick(g, Pos(x, b), segs, offset)
      invariant y0 <= y1 ==> y <= y1 + 1
    {
      if CanPlaceStick(g, Pos(x, y), segs, offset) {
        return true;
      }
      y := y + 1;
    }
    return false;
  }

  /** The outer loop of the scan: some origin in [x0, x1] x [y0, y1] where the stick fits. */
  method ScanRectangle(g: Grid, segs: seq<Segment>, offset: Pos, x0: int, x1: int, y0: int, y1: int)
    returns (found: bool)
    ensures found <==> exists a, b :: x0 <= a <= x1 && y0 <= b <= y1 && CanPlaceStick(g, Pos(a, b), segs, offset)
  {
    var x := x0;
    while x <= x1
      invariant x0 <= x || x1 < x0
      invariant x0 <= x1 ==> x <= x1 + 1
      invariant forall a, b :: x0 <= a < x && y0 <= b <= y1 ==> !CanPlaceStick(g, Pos(a, b), segs, offset)
    {
      found := ScanColumn(g, segs, offset, x, y0, y1);
      if found {
        return;
      }
      forall a, b | x0 <= a < x + 1 && y0 <= b <= y1
        ensures !CanPlaceStick(g, Pos(a, b), segs, offset)
      {
      }
      x := x + 1;
    }
    return false;
  }

  /**
   * `CanStickBePlacedAnywhere`: scans the origins column by column and answers whether the stick
   * fits somewhere; it fits at some origin exactly when the scan finds one.
   */
  method CanStickBePlacedAnywhere(g: Grid, stick: StickData) returns (r: bool)
    requires |stick.segments| > 0
    ensures r <==> exists o: Pos :: CanPlaceStick(g, o, stick.segments, CenterOffset(stick.segments))
  {
    var segs := stick.segments;
    var off := CenterOffset(segs);
    var startX, endX := ScanStart(segs, true), ScanEnd(g, segs, true);
    var startY, endY := ScanStart(segs, false), ScanEnd(g, segs, false);
    if startX > endX || startY > endY {
      NoFitOutsideScan(g, segs);
      return false;
    }
    r := ScanRectangle(g, segs, off, startX, endX, startY, endY);
    ScanDecides(g, segs, r);
  }
}
