/**
 * Committing a stick: after the validator accepts the placement the combo is reset, and segment by
 * segment the slot and its two dots are occupied and the two cells beside it are checked for
 * completion, so a blast can fire between two segments of the same stick. Also the read-only
 * preview: which cells a placement would close and which cells those would blast.
 */
module PlacementManager {
  import opened Wrappers
  import opened Geometry
  import opened Counting
  import opened Events
  import opened Dots
  import opened Connections
  import opened GridState
  import opened ConnectionManager
  import opened BlastManager
  import opened CellManager
  import opened Sticks
  import opened GridValidator

  /** `OccupyConnection`: the slot becomes occupied and both given dots become occupied. */
  function OccupyConnection(g: Grid, e: EdgeRef, start: Pos, end: Pos): (r: Grid)
    requires HasConnection(g, e) && start in g.dots && end in g.dots
    ensures SameShape(g, r) && r.cells == g.cells
    ensures forall f :: HasConnection(r, f) <==> HasConnection(g, f)
    ensures forall f :: Occupied(r, f) <==> Occupied(g, f) || f == e
    ensures forall f | HasConnection(g, f) ::
      ConnectionAt(r, f).startDot == ConnectionAt(g, f).startDot
      && ConnectionAt(r, f).endDot == ConnectionAt(g, f).endDot
    ensures r.dots[start].isOccupied && r.dots[end].isOccupied
    ensures forall p | p in g.dots && p != start && p != end :: r.dots[p] == g.dots[p]
    ensures forall p | p in g.dots :: r.dots[p].gridPosition == g.dots[p].gridPosition
  {
    var g1 := WithConnection(g, e, Occupy(ConnectionAt(g, e)));
    var d1 := g1.dots[start := SetOccupied(g1.dots[start], true)];
    g1.(dots := d1[end := SetOccupied(d1[end], true)])
  }

  /** Occupying keeps a grid well formed. */
  lemma OccupyConnectionWellFormed(g: Grid, e: EdgeRef, start: Pos, end: Pos)
    requires WellFormed(g) && HasConnection(g, e) && start in g.dots && end in g.dots
    ensures WellFormed(OccupyConnection(g, e, start, end))
  {
    ConnectionEndpoints(g, e);
  }

  /** For a valid pair the cells beside it do not depend on the order of its two dots. */
  lemma AdjacentCellsSymmetric(a: Pos, b: Pos)
    requires UnitAdjacent(a, b)
    ensures GetAdjacentCellPositions(a, b) == GetAdjacentCellPositions(b, a)
  {
  }

  /** The slot found for a valid pair is beside exactly the cells listed for that pair. */
  lemma SlotBesideCells(g: Grid, start: Pos, end: Pos, c: Pos)
    requires WellFormed(g) && IsValidConnection(g, start, end)
    ensures GetConnection(g, start, end).Some?
    ensures GetConnection(g, start, end).value in GetCellConnections(c) <==>
      c in GetAdjacentCellPositions(start, end)
  {
    var e := GetConnection(g, start, end).value;
    SideIffAdjacent(e, c);
    AdjacentCellsSymmetric(start, end);
  }

  /** Occupying the slot of a valid pair keeps every dot consistent with its slots. */
  lemma OccupyKeepsDotsConsistent(g: Grid, start: Pos, end: Pos)
    requires WellFormed(g) && IsValidConnection(g, start, end) && DotsConsistent(g)
    ensures GetConnection(g, start, end).Some?
    ensures DotsConsistent(OccupyConnection(g, GetConnection(g, start, end).value, start, end))
  {
    var e := GetConnection(g, start, end).value;
    var r := OccupyConnection(g, e, start, end);
    OccupyConnectionWellFormed(g, e, start, end);
    assert forall p :: IsEndpoint(p, e) <==> p == start || p == end;
    forall p | p in r.dots ensures r.dots[p].isOccupied == DotHasOccupiedConnections(r, p) {
      if p == start || p == end {
        assert IsEndpoint(p, e);
        EndpointDotConsistent(r, e, p);
      } else {
        assert !IsEndpoint(p, e);
        UntouchedDotConsistent(g, r, e, p);
      }
    }
  }

  /** A dot at an end of an occupied slot is covered, and it is marked occupied. */
  lemma EndpointDotConsistent(r: Grid, e: EdgeRef, p: Pos)
    requires WellFormed(r) && p in r.dots && r.dots[p].isOccupied
    requires Occupied(r, e) && IsEndpoint(p, e)
    ensures r.dots[p].isOccupied == DotHasOccupiedConnections(r, p)
  {
    assert e in IncidentEdges(p);
    OccupiedSlotGuard(r, p, e);
  }

  /** A dot at neither end of the newly occupied slot keeps its mark and its answer. */
  lemma UntouchedDotConsistent(g: Grid, r: Grid, e: EdgeRef, p: Pos)
    requires r.width == g.width && r.height == g.height
    requires forall f :: Occupied(r, f) <==> Occupied(g, f) || f == e
    requires !IsEndpoint(p, e)
    requires p in g.dots && p in r.dots && r.dots[p] == g.dots[p]
    requires g.dots[p].isOccupied == DotHasOccupiedConnections(g, p)
    ensures r.dots[p].isOccupied == DotHasOccupiedConnections(r, p)
  {
    DotHasOccupiedFrame(g, r, p);
  }

  /**
   * Occupying the slot of a valid pair on a settled grid leaves at most the two cells beside it
   * pending: no other cell's sides change.
   */
  lemma OccupyLeavesPending(g: Grid, start: Pos, end: Pos)
    requires WellFormed(g) && IsValidConnection(g, start, end) && Settled(g)
    ensures GetConnection(g, start, end).Some?
    ensures Pending(OccupyConnection(g, GetConnection(g, start, end).value, start, end),
                    AdjacentSet(start, end))
  {
    var e := GetConnection(g, start, end).value;
    var r := OccupyConnection(g, e, start, end);
    OccupyKeepsDotsConsistent(g, start, end);
    OccupyKeepsCompleteFull(g, e, start, end);
    OccupyKeepsOthers(g, start, end);
    OccupyKeepsLines(g, e, start, end);
  }

  /** Occupying a slot keeps complete cells full. */
  lemma OccupyKeepsCompleteFull(g: Grid, e: EdgeRef, start: Pos, end: Pos)
    requires HasConnection(g, e) && start in g.dots && end in g.dots
    requires CompleteImpliesFull(g)
    ensures CompleteImpliesFull(OccupyConnection(g, e, start, end))
  {
    var r := OccupyConnection(g, e, start, end);
    forall c | c in r.cells && r.cells[c].isComplete ensures IsCellFull(r, c) {
      assert IsCellFull(g, c);
    }
  }

  /** Occupying the slot of a valid pair makes no cell full except those beside it. */
  lemma OccupyKeepsOthers(g: Grid, start: Pos, end: Pos)
    requires WellFormed(g) && IsValidConnection(g, start, end)
    requires forall c | IsCellWithinBounds(g, c) :: IsCellFull(g, c) ==> IsComplete(g, c)
    ensures GetConnection(g, start, end).Some?
    ensures forall c | IsCellWithinBounds(g, c) && c !in AdjacentSet(start, end) ::
      IsCellFull(OccupyConnection(g, GetConnection(g, start, end).value, start, end), c) ==>
      IsComplete(OccupyConnection(g, GetConnection(g, start, end).value, start, end), c)
  {
    var e := GetConnection(g, start, end).value;
    var r := OccupyConnection(g, e, start, end);
    forall c | IsCellWithinBounds(g, c) && c !in AdjacentSet(start, end) && IsCellFull(r, c)
      ensures IsComplete(r, c)
    {
      SlotBesideCells(g, start, end, c);
      var s := GetCellConnections(c);
      assert Occupied(g, s[0]) && Occupied(g, s[1]) && Occupied(g, s[2]) && Occupied(g, s[3]);
    }
  }

  /** Occupying a slot leaves the completion flags, and so the line clause, as they were. */
  lemma OccupyKeepsLines(g: Grid, e: EdgeRef, start: Pos, end: Pos)
    requires HasConnection(g, e) && start in g.dots && end in g.dots
    requires forall l | LineInRange(g, l) :: exists c :: c in CellsOfLine(g, l) && !IsComplete(g, c)
    ensures forall l | LineInRange(OccupyConnection(g, e, start, end), l) ::
      exists c :: c in CellsOfLine(OccupyConnection(g, e, start, end), l)
                  && !IsComplete(OccupyConnection(g, e, start, end), c)
  {
    var r := OccupyConnection(g, e, start, end);
    forall l | LineInRange(r, l) ensures exists c :: c in CellsOfLine(r, l) && !IsComplete(r, c) {
      CellsOfLineShape(g, r, l);
      var c :| c in CellsOfLine(g, l) && !IsComplete(g, c);
      assert c in CellsOfLine(r, l) && !IsComplete(r, c);
    }
  }

  /** The cells beside a pair of dots, as a set. */
  function AdjacentSet(start: Pos, end: Pos): set<Pos> {
    set c | c in GetAdjacentCellPositions(start, end)
  }

  /** `CheckAdjacentCells`: the completion check on each in-bounds cell beside the segment, in order. */
  function CheckAdjacentCells(s: BlastState, g: Grid, start: Pos, end: Pos): (r: CheckResult)
    requires WellFormed(g) && g.width >= 2 && g.height >= 2
    ensures SameShape(g, r.grid) && WellFormed(r.grid)
    ensures s.isBlasting ==> r.state == s
    ensures !s.isBlasting ==> !r.state.isBlasting && r.state.comboCount >= s.comboCount
    ensures r.state.comboCount == s.comboCount ==>
      r.grid == g.(cells := r.grid.cells)
      && forall d | d in g.cells && d !in AdjacentSet(start, end) :: r.grid.cells[d] == g.cells[d]
    ensures r.state.comboCount == s.comboCount + ScoreCount(r.events)
  {
    var cs := GetAdjacentCellPositions(start, end);
    var r1 := if IsCellWithinBounds(g, cs[0]) then CheckAndCompleteCell(s, g, cs[0]) else CheckResult(s, g, []);
    var r2 := if IsCellWithinBounds(r1.grid, cs[1]) then CheckAndCompleteCell(r1.state, r1.grid, cs[1])
              else CheckResult(r1.state, r1.grid, []);
    ScoreCountAppend(r1.events, r2.events);
    CheckResult(r2.state, r2.grid, r1.events + r2.events)
  }

  /** Checking both cells beside the segment discharges them from the pending set. */
  lemma CheckAdjacentCellsSettles(s: BlastState, g: Grid, start: Pos, end: Pos)
    requires WellFormed(g) && g.width >= 2 && g.height >= 2
    requires !s.isBlasting && Pending(g, AdjacentSet(start, end))
    ensures Settled(CheckAdjacentCells(s, g, start, end).grid)
  {
    var cs := GetAdjacentCellPositions(start, end);
    var P := AdjacentSet(start, end);
    assert P == {cs[0], cs[1]};
    CheckAndCompleteCellSettles(s, g, cs[0], P);
    var r1 := CheckAndCompleteCell(s, g, cs[0]);
    CheckAndCompleteCellSettles(r1.state, r1.grid, cs[1], P - {cs[0]});
    assert P - {cs[0]} - {cs[1]} == {};
  }

  /** The slot between two dots depends only on which slots exist. */
  lemma GetConnectionFrame(g: Grid, r: Grid, a: Pos, b: Pos)
    requires r.horizontal.Keys == g.horizontal.Keys && r.vertical.Keys == g.vertical.Keys
    ensures GetConnection(r, a, b) == GetConnection(g, a, b)
  {
  }

  /** A pair whose slot is occupied stays so while slots only gain occupancy. */
  lemma IsConnectionOccupiedMonotone(g: Grid, r: Grid, a: Pos, b: Pos)
    requires r.horizontal.Keys == g.horizontal.Keys && r.vertical.Keys == g.vertical.Keys
    requires forall f :: Occupied(g, f) ==> Occupied(r, f)
    requires IsConnectionOccupied(g, a, b)
    ensures IsConnectionOccupied(r, a, b)
  {
    GetConnectionFrame(g, r, a, b);
  }

  /**
   * One segment of `PlaceStick`: find the slot between its two landing dots; if there is one,
   * occupy it with its dots and check the cells beside it.
   */
  function PlaceSegment(s: BlastState, g: Grid, start: Pos, end: Pos): (r: CheckResult)
    requires WellFormed(g) && g.width >= 2 && g.height >= 2
    requires IsWithinBounds(g, start) && IsWithinBounds(g, end)
    ensures SameShape(g, r.grid) && WellFormed(r.grid)
    ensures s.isBlasting ==> r.state == s
    ensures !s.isBlasting ==> !r.state.isBlasting && r.state.comboCount >= s.comboCount
    ensures r.state.comboCount == s.comboCount ==>
      forall f :: Occupied(g, f) ==> Occupied(r.grid, f)
    ensures r.state.comboCount == s.comboCount ==> IsConnectionOccupied(r.grid, start, end)
    ensures r.state.comboCount == s.comboCount ==>
      forall f :: Occupied(r.grid, f) ==> Occupied(g, f) || GetConnection(g, start, end) == Some(f)
    ensures r.state.comboCount == s.comboCount + ScoreCount(r.events)
  {
    match GetConnection(g, start, end)
    case None => CheckResult(s, g, [])
    case Some(e) => OccupyAndCheck(s, g, e, start, end)
  }

  /** The body of one segment once its slot is found. */
  function OccupyAndCheck(s: BlastState, g: Grid, e: EdgeRef, start: Pos, end: Pos): (r: CheckResult)
    requires WellFormed(g) && g.width >= 2 && g.height >= 2
    requires IsWithinBounds(g, start) && IsWithinBounds(g, end) && GetConnection(g, start, end) == Some(e)
    ensures SameShape(g, r.grid) && WellFormed(r.grid)
    ensures s.isBlasting ==> r.state == s
    ensures !s.isBlasting ==> !r.state.isBlasting && r.state.comboCount >= s.comboCount
    ensures r.state.comboCount == s.comboCount ==>
      forall f :: Occupied(g, f) ==> Occupied(r.grid, f)
    ensures r.state.comboCount == s.comboCount ==> IsConnectionOccupied(r.grid, start, end)
    ensures r.state.comboCount == s.comboCount ==> forall f :: Occupied(r.grid, f) ==> Occupied(g, f) || f == e
    ensures r.state.comboCount == s.comboCount + ScoreCount(r.events)
  {
    var g1 := OccupyConnection(g, e, start, end);
    OccupyConnectionWellFormed(g, e, start, end);
    var r := CheckAdjacentCells(s, g1, start, end);
    assert r.state.comboCount == s.comboCount ==>
      && (forall f :: Occupied(g, f) ==> Occupied(r.grid, f))
      && (forall f :: Occupied(r.grid, f) ==> Occupied(g, f) || f == e)
      && IsConnectionOccupied(r.grid, start, end) by {
      if r.state.comboCount == s.comboCount {
        NoWaveOccupies(g, e, start, end, r.grid);
      }
    }
    r
  }

  /** If only cells change after occupying, the slot and every earlier occupied slot stay occupied. */
  lemma NoWaveOccupies(g: Grid, e: EdgeRef, start: Pos, end: Pos, r: Grid)
    requires start in g.dots && end in g.dots && GetConnection(g, start, end) == Some(e)
    requires r == OccupyConnection(g, e, start, end).(cells := r.cells)
    ensures forall f :: Occupied(g, f) ==> Occupied(r, f)
    ensures forall f :: Occupied(r, f) ==> Occupied(g, f) || f == e
    ensures IsConnectionOccupied(r, start, end)
  {
    var g1 := OccupyConnection(g, e, start, end);
    forall f ensures Occupied(r, f) == Occupied(g1, f) {
      OccupiedFrame(g1, r, f);
    }
    GetConnectionFrame(g, r, start, end);
  }

  /** A segment placed on a settled grid outside a blast run leaves it settled. */
  lemma PlaceSegmentSettles(s: BlastState, g: Grid, start: Pos, end: Pos)
    requires WellFormed(g) && g.width >= 2 && g.height >= 2
    requires IsValidConnection(g, start, end) && !s.isBlasting && Settled(g)
    ensures Settled(PlaceSegment(s, g, start, end).grid)
  {
    var e := GetConnection(g, start, end).value;
    OccupyLeavesPending(g, start, end);
    OccupyConnectionWellFormed(g, e, start, end);
    CheckAdjacentCellsSettles(s, OccupyConnection(g, e, start, end), start, end);
  }

  /** Where segment i of a stick lands: its start and end shifted by origin - offset. */
  function StartAt(origin: Pos, segs: seq<Segment>, offset: Pos, i: int): Pos
    requires 0 <= i < |segs|
  {
    Placed(origin, segs[i].start, offset)
  }

  function EndAt(origin: Pos, segs: seq<Segment>, offset: Pos, i: int): Pos
    requires 0 <= i < |segs|
  {
    Placed(origin, segs[i].end, offset)
  }

  /** The slot segment i of a stick lands on, when there is one. */
  predicate IsSegmentSlot(g: Grid, origin: Pos, segs: seq<Segment>, offset: Pos, f: EdgeRef) {
    exists i :: 0 <= i < |segs| && GetConnection(g, StartAt(origin, segs, offset, i), EndAt(origin, segs, offset, i)) == Some(f)
  }

  /** A valid placement stays valid for the remaining segments on a grid of the same size. */
  lemma ValidPlacementTail(g: Grid, r: Grid, origin: Pos, segs: seq<Segment>, offset: Pos)
    requires segs != [] && IsValidPlacement(g, origin, segs, offset)
    requires r.width == g.width && r.height == g.height
    ensures IsValidPlacement(r, origin, segs[1..], offset)
  {
    forall i | 0 <= i < |segs[1..]|
      ensures IsValidConnection(r, Placed(origin, segs[1..][i].start, offset),
                                Placed(origin, segs[1..][i].end, offset))
    {
      assert segs[1..][i] == segs[i + 1];
    }
  }

  /**
   * The segment loop of `PlaceStick`, in order. When no wave fires (the combo is unchanged),
   * every slot occupied before stays occupied and every segment ends on an occupied slot.
   */
  function PlaceSegments(s: BlastState, g: Grid, origin: Pos, segs: seq<Segment>, offset: Pos): (r: CheckResult)
    requires WellFormed(g) && g.width >= 2 && g.height >= 2
    requires IsValidPlacement(g, origin, segs, offset)
    ensures SameShape(g, r.grid) && WellFormed(r.grid)
    ensures s.isBlasting ==> r.state == s
    ensures !s.isBlasting ==> !r.state.isBlasting && r.state.comboCount >= s.comboCount
    ensures r.state.comboCount == s.comboCount ==>
      forall f :: Occupied(g, f) ==> Occupied(r.grid, f)
    ensures r.state.comboCount == s.comboCount ==>
      forall i :: 0 <= i < |segs| ==>
        IsConnectionOccupied(r.grid, StartAt(origin, segs, offset, i), EndAt(origin, segs, offset, i))
    ensures r.state.comboCount == s.comboCount ==>
      forall f :: Occupied(r.grid, f) ==> Occupied(g, f) || IsSegmentSlot(g, origin, segs, offset, f)
    ensures r.state.comboCount == s.comboCount + ScoreCount(r.events)
    decreases |segs|
  {
    if segs == [] then CheckResult(s, g, [])
    else
      var start, end := StartAt(origin, segs, offset, 0), EndAt(origin, segs, offset, 0);
      var step := PlaceSegment(s, g, start, end);
      ValidPlacementTail(g, step.grid, origin, segs, offset);
      var rest := PlaceSegments(step.state, step.grid, origin, segs[1..], offset);
      assert rest.state.comboCount == s.comboCount ==> forall i :: 0 <= i < |segs| ==>
        IsConnectionOccupied(rest.grid, StartAt(origin, segs, offset, i), EndAt(origin, segs, offset, i)) by {
        if rest.state.comboCount == s.comboCount {
          forall i | 0 <= i < |segs|
            ensures IsConnectionOccupied(rest.grid, StartAt(origin, segs, offset, i), EndAt(origin, segs, offset, i))
          {
            if i == 0 {
              IsConnectionOccupiedMonotone(step.grid, rest.grid, start, end);
            } else {
              assert segs[1..][i - 1] == segs[i];
              assert StartAt(origin, segs[1..], offset, i - 1) == StartAt(origin, segs, offset, i);
              assert EndAt(origin, segs[1..], offset, i - 1) == EndAt(origin, segs, offset, i);
            }
          }
        }
      }
      assert rest.state.comboCount == s.comboCount ==> forall f :: Occupied(rest.grid, f) ==>
        Occupied(g, f) || IsSegmentSlot(g, origin, segs, offset, f) by {
        if rest.state.comboCount == s.comboCount {
          forall f | Occupied(rest.grid, f) && !Occupied(g, f)
            ensures IsSegmentSlot(g, origin, segs, offset, f)
          {
            SegmentSlotTail(g, step.grid, origin, segs, offset, f);
          }
        }
      }
      ScoreCountAppend(step.events, rest.events);
      CheckResult(rest.state, rest.grid, step.events + rest.events)
  }

  /** A slot of the remaining segments, found on a grid of the same shape, is a slot of the stick. */
  lemma SegmentSlotTail(g: Grid, r: Grid, origin: Pos, segs: seq<Segment>, offset: Pos, f: EdgeRef)
    requires segs != [] && SameShape(g, r)
    requires GetConnection(g, StartAt(origin, segs, offset, 0), EndAt(origin, segs, offset, 0)) == Some(f)
      || IsSegmentSlot(r, origin, segs[1..], offset, f)
    ensures IsSegmentSlot(g, origin, segs, offset, f)
  {
    if !(GetConnection(g, StartAt(origin, segs, offset, 0), EndAt(origin, segs, offset, 0)) == Some(f)) {
      var i :| 0 <= i < |segs[1..]| &&
        GetConnection(r, StartAt(origin, segs[1..], offset, i), EndAt(origin, segs[1..], offset, i)) == Some(f);
      assert segs[1..][i] == segs[i + 1];
      GetConnectionFrame(g, r, StartAt(origin, segs, offset, i + 1), EndAt(origin, segs, offset, i + 1));
    }
  }

  /** Placing every segment of a stick on a settled grid outside a blast run leaves it settled. */
  lemma {:induction false} PlaceSegmentsSettles(s: BlastState, g: Grid, origin: Pos, segs: seq<Segment>, offset: Pos)
    requires WellFormed(g) && g.width >= 2 && g.height >= 2
    requires IsValidPlacement(g, origin, segs, offset) && !s.isBlasting && Settled(g)
    ensures Settled(PlaceSegments(s, g, origin, segs, offset).grid)
    decreases |segs|
  {
    if segs != [] {
      var start, end := StartAt(origin, segs, offset, 0), EndAt(origin, segs, offset, 0);
      assert IsValidConnection(g, start, end);
      PlaceSegmentSettles(s, g, start, end);
      var step := PlaceSegment(s, g, start, end);
      ValidPlacementTail(g, step.grid, origin, segs, offset);
      PlaceSegmentsSettles(step.state, step.grid, origin, segs[1..], offset);
    }
  }

  /** What `PlaceStick` leaves: whether it placed, the blast state, the grid and the events. */
  datatype PlaceResult = PlaceResult(placed: bool, state: BlastState, grid: Grid, events: seq<Event>)

  /**
   * `PlaceStick`: a stick the validator rejects at this origin changes nothing and fades the
   * preview sound out. An accepted stick resets the combo before any slot is occupied, then
   * places its segments in order, so the combo it leaves counts the waves this placement fired
   * (one score report each). When none fired, the occupied slots are exactly the earlier ones
   * and the stick's own.
   */
  function PlaceStick(s: BlastState, g: Grid, origin: Pos, segs: seq<Segment>): (r: PlaceResult)
    requires WellFormed(g) && g.width >= 2 && g.height >= 2 && |segs| > 0
    ensures r.placed <==> CanPlaceStick(g, origin, segs, CenterOffset(segs))
    ensures !r.placed ==> r == PlaceResult(false, s, g, [SoundFadedOut("highlightBlast")])
    ensures SameShape(g, r.grid) && WellFormed(r.grid)
    ensures r.placed ==> r.state.isBlasting == s.isBlasting
    ensures r.placed ==> r.state.comboCount == ScoreCount(r.events)
    ensures r.placed && r.state.comboCount == 0 ==>
      forall f :: Occupied(r.grid, f) <==> Occupied(g, f) || IsSegmentSlot(g, origin, segs, CenterOffset(segs), f)
    ensures r.placed && r.state.comboCount == 0 ==>
      forall i :: 0 <= i < |segs| ==>
           IsConnectionOccupied(r.grid, StartAt(origin, segs, CenterOffset(segs), i),
                                EndAt(origin, segs, CenterOffset(segs), i))
  {
    var offset := CenterOffset(segs);
    if !CanPlaceStick(g, origin, segs, offset) then PlaceResult(false, s, g, [SoundFadedOut("highlightBlast")])
    else
      var run := PlaceSegments(ResetCombo(s), g, origin, segs, offset);
      assert run.state.comboCount == 0 ==> forall f :: IsSegmentSlot(g, origin, segs, offset, f) ==> Occupied(run.grid, f) by {
        if run.state.comboCount == 0 {
          forall f | IsSegmentSlot(g, origin, segs, offset, f) ensures Occupied(run.grid, f) {
            var i :| 0 <= i < |segs| && GetConnection(g, StartAt(origin, segs, offset, i), EndAt(origin, segs, offset, i)) == Some(f);
            GetConnectionFrame(g, run.grid, StartAt(origin, segs, offset, i), EndAt(origin, segs, offset, i));
          }
        }
      }
      PlaceResult(true, run.state, run.grid, run.events)
  }

  /** Placing a stick on a settled grid outside a blast run leaves it settled. */
  lemma PlaceStickSettles(s: BlastState, g: Grid, origin: Pos, segs: seq<Segment>)
    requires WellFormed(g) && g.width >= 2 && g.height >= 2 && |segs| > 0
    requires !s.isBlasting && Settled(g)
    ensures Settled(PlaceStick(s, g, origin, segs).grid)
  {
    var offset := CenterOffset(segs);
    if CanPlaceStick(g, origin, segs, offset) {
      PlaceSegmentsSettles(ResetCombo(s), g, origin, segs, offset);
    }
  }
  /**
   * `IsMatchingConnection`: the stored connection joins the two dots, in either order. The source
   * compares the endpoint dots' grid positions; connections here store those positions.
   */
  predicate IsMatchingConnection(g: Grid, e: EdgeRef, start: Pos, end: Pos)
    requires HasConnection(g, e)
  {
    var c := ConnectionAt(g, e);
    (c.startDot == start && c.endDot == end) || (c.startDot == end && c.endDot == start)
  }

  /** One side of a cell for `WouldCompleteCell`: it exists and is occupied or is the new segment. */
  predicate SideWouldBeOccupied(g: Grid, e: EdgeRef, start: Pos, end: Pos) {
    HasConnection(g, e) && (Occupied(g, e) || IsMatchingConnection(g, e, start, end))
  }

  /**
   * `WouldCompleteCell`: every side of the cell exists and is either occupied already or is the
   * connection between the two given dots.
   */
  predicate WouldCompleteCell(g: Grid, c: Pos, start: Pos, end: Pos) {
    var s := GetCellConnections(c);
    && SideWouldBeOccupied(g, s[0], start, end) && SideWouldBeOccupied(g, s[1], start, end)
    && SideWouldBeOccupied(g, s[2], start, end) && SideWouldBeOccupied(g, s[3], start, end)
  }

  /** On a well-formed grid a stored connection matches a valid pair exactly when it is that pair's slot. */
  lemma MatchingIsTheSlot(g: Grid, e: EdgeRef, start: Pos, end: Pos)
    requires WellFormed(g) && IsValidConnection(g, start, end) && HasConnection(g, e)
    ensures GetConnection(g, start, end).Some?
    ensures IsMatchingConnection(g, e, start, end) <==> e == GetConnection(g, start, end).value
  {
    ConnectionEndpoints(g, e);
    var f := GetConnection(g, start, end).value;
    ConnectionEndpoints(g, f);
    OccupiedEdgeBetween(g, start, end);
  }

  /**
   * For a valid segment and an in-bounds cell, `WouldCompleteCell` holds exactly when occupying
   * the segment's slot would leave all four sides of the cell occupied.
   */
  lemma WouldCompleteCellMeaning(g: Grid, c: Pos, start: Pos, end: Pos)
    requires WellFormed(g) && IsValidConnection(g, start, end) && IsCellWithinBounds(g, c)
    ensures GetConnection(g, start, end).Some?
    ensures WouldCompleteCell(g, c, start, end) <==>
      IsCellFull(OccupyConnection(g, GetConnection(g, start, end).value, start, end), c)
  {
    var e := GetConnection(g, start, end).value;
    var s := GetCellConnections(c);
    CellSidesExist(g, c);
    MatchingIsTheSlot(g, s[0], start, end);
    MatchingIsTheSlot(g, s[1], start, end);
    MatchingIsTheSlot(g, s[2], start, end);
    MatchingIsTheSlot(g, s[3], start, end);
  }

  /** The cells a single segment would close: in bounds, not yet complete, and completed by it. */
  function CellsClosedBy(g: Grid, start: Pos, end: Pos): (r: seq<Pos>)
    ensures forall c :: c in r <==>
      c in GetAdjacentCellPositions(start, end) && IsCellWithinBounds(g, c) && !IsComplete(g, c)
      && WouldCompleteCell(g, c, start, end)
  {
    var cs := GetAdjacentCellPositions(start, end);
    (if IsCellWithinBounds(g, cs[0]) && !IsComplete(g, cs[0]) && WouldCompleteCell(g, cs[0], start, end)
     then [cs[0]] else [])
    + (if IsCellWithinBounds(g, cs[1]) && !IsComplete(g, cs[1]) && WouldCompleteCell(g, cs[1], start, end)
       then [cs[1]] else [])
  }

  /** A cell some segment of the stick would close on its own, looking at the current grid only. */
  predicate ClosedBySomeSegment(g: Grid, origin: Pos, segs: seq<Segment>, offset: Pos, c: Pos) {
    exists i :: 0 <= i < |segs| && c in CellsClosedBy(g, StartAt(origin, segs, offset, i), EndAt(origin, segs, offset, i))
  }

  /**
   * `SimulatePlacement`: for each segment in order, the cells beside it that are in bounds, not
   * complete, and would be completed by that segment alone. Read-only.
   */
  function SimulatePlacement(g: Grid, origin: Pos, segs: seq<Segment>, offset: Pos): (r: seq<Pos>)
    ensures forall c :: c in r <==> ClosedBySomeSegment(g, origin, segs, offset, c)
    decreases |segs|
  {
    if segs == [] then []
    else
      var here := CellsClosedBy(g, StartAt(origin, segs, offset, 0), EndAt(origin, segs, offset, 0));
      var rest := SimulatePlacement(g, origin, segs[1..], offset);
      assert forall c :: c in here + rest <==> ClosedBySomeSegment(g, origin, segs, offset, c) by {
        forall c ensures c in here + rest <==> ClosedBySomeSegment(g, origin, segs, offset, c) {
          SimulateStep(g, origin, segs, offset, c);
        }
      }
      here + rest
  }

  /** Splitting the witness segment into the first one and the rest. */
  lemma SimulateStep(g: Grid, origin: Pos, segs: seq<Segment>, offset: Pos, c: Pos)
    requires segs != []
    ensures ClosedBySomeSegment(g, origin, segs, offset, c) <==>
      c in CellsClosedBy(g, StartAt(origin, segs, offset, 0), EndAt(origin, segs, offset, 0))
      || ClosedBySomeSegment(g, origin, segs[1..], offset, c)
  {
    if ClosedBySomeSegment(g, origin, segs[1..], offset, c) {
      var i :| 0 <= i < |segs[1..]|
        && c in CellsClosedBy(g, StartAt(origin, segs[1..], offset, i), EndAt(origin, segs[1..], offset, i));
      assert segs[1..][i] == segs[i + 1];
      assert c in CellsClosedBy(g, StartAt(origin, segs, offset, i + 1), EndAt(origin, segs, offset, i + 1));
    }
    if ClosedBySomeSegment(g, origin, segs, offset, c) {
      var i :| 0 <= i < |segs|
        && c in CellsClosedBy(g, StartAt(origin, segs, offset, i), EndAt(origin, segs, offset, i));
      if i > 0 {
        assert segs[1..][i - 1] == segs[i];
        assert c in CellsClosedBy(g, StartAt(origin, segs[1..], offset, i - 1), EndAt(origin, segs[1..], offset, i - 1));
      }
    }
  }

  /**
   * For a valid placement, a predicted cell is one that a single segment of the stick would fill
   * on the current grid: every side but that segment's slot is already occupied. A cell that needs
   * two segments of the same stick is never predicted, so the preview can under-report.
   */
  lemma SimulatePlacementMeaning(g: Grid, origin: Pos, segs: seq<Segment>, offset: Pos, c: Pos)
    requires WellFormed(g) && IsValidPlacement(g, origin, segs, offset)
    requires c in SimulatePlacement(g, origin, segs, offset)
    ensures IsCellWithinBounds(g, c) && !IsComplete(g, c)
    ensures exists i :: (
      && 0 <= i < |segs|
      && IsValidConnection(g, StartAt(origin, segs, offset, i), EndAt(origin, segs, offset, i))
      && IsCellFull(OccupyConnection(g, GetConnection(g, StartAt(origin, segs, offset, i), EndAt(origin, segs, offset, i)).value,
                                     StartAt(origin, segs, offset, i), EndAt(origin, segs, offset, i)), c))
  {
    var i :| 0 <= i < |segs|
      && c in CellsClosedBy(g, StartAt(origin, segs, offset, i), EndAt(origin, segs, offset, i));
    WouldCompleteCellMeaning(g, c, StartAt(origin, segs, offset, i), EndAt(origin, segs, offset, i));
  }

  /** The predicted cells lying in a row, as a predicate on the column index. */
  function SimRowTest(sim: set<Pos>, row: int): int -> bool {
    x => Pos(x, row) in sim
  }

  /** The predicted cells lying in a column, as a predicate on the row index. */
  function SimColumnTest(sim: set<Pos>, column: int): int -> bool {
    y => Pos(column, y) in sim
  }

  /** A row cell that is complete or predicted, as a predicate on the column index. */
  function CoveredRowTest(g: Grid, sim: set<Pos>, row: int): int -> bool {
    x => IsComplete(g, Pos(x, row)) || Pos(x, row) in sim
  }

  /** A column cell that is complete or predicted, as a predicate on the row index. */
  function CoveredColumnTest(g: Grid, sim: set<Pos>, column: int): int -> bool {
    y => IsComplete(g, Pos(column, y)) || Pos(column, y) in sim
  }

  /**
   * `rowCompletions[y]`: the completed count of the row plus one per predicted cell in the row.
   * With every predicted cell in bounds, the cells of the set with that y are the Pos(x, y) with
   * 0 <= x < Width - 1 that it contains.
   */
  function RowCompletions(g: Grid, sim: set<Pos>, row: int): int
    requires g.width >= 1 && 0 <= row < g.height - 1
  {
    GetCompletedCellsInRow(g, row) + CountWhere(g.width - 1, SimRowTest(sim, row))
  }

  /** `colCompletions[x]`, likewise. */
  function ColumnCompletions(g: Grid, sim: set<Pos>, column: int): int
    requires g.height >= 1 && 0 <= column < g.width - 1
  {
    GetCompletedCellsInColumn(g, column) + CountWhere(g.height - 1, SimColumnTest(sim, column))
  }

  /**
   * `CalculateBlastCells`: every cell of each row whose completions reach Width - 1, and of each
   * column whose completions reach Height - 1.
   */
  function CalculateBlastCells(g: Grid, sim: set<Pos>): (r: set<Pos>)
    requires g.width >= 1 && g.height >= 1
    requires forall c | c in sim :: IsCellWithinBounds(g, c)
    ensures forall c :: c in r <==>
      && IsCellWithinBounds(g, c)
      && (RowCompletions(g, sim, c.y) >= g.width - 1 || ColumnCompletions(g, sim, c.x) >= g.height - 1)
  {
    set x, y | 0 <= x < g.width - 1 && 0 <= y < g.height - 1 &&
      (RowCompletions(g, sim, y) >= g.width - 1 || ColumnCompletions(g, sim, x) >= g.height - 1)
      :: Pos(x, y)
  }

  /** When no predicted cell is complete, a row reaches the bar exactly when every cell is complete or predicted. */
  lemma RowCompletionsMeaning(g: Grid, sim: set<Pos>, row: int)
    requires g.width >= 1 && 0 <= row < g.height - 1
    requires forall c | c in sim :: !IsComplete(g, c)
    ensures RowCompletions(g, sim, row) >= g.width - 1 <==>
      (forall x :: 0 <= x < g.width - 1 ==> IsComplete(g, Pos(x, row)) || Pos(x, row) in sim)
  {
    var n := g.width - 1;
    CountWhereDisjoint(n, RowCompleteTest(g, row), SimRowTest(sim, row), CoveredRowTest(g, sim, row));
    CountWhereFull(n, CoveredRowTest(g, sim, row));
    assert forall x :: CoveredRowTest(g, sim, row)(x) == (IsComplete(g, Pos(x, row)) || Pos(x, row) in sim);
  }

  /** The column analogue. */
  lemma ColumnCompletionsMeaning(g: Grid, sim: set<Pos>, column: int)
    requires g.height >= 1 && 0 <= column < g.width - 1
    requires forall c | c in sim :: !IsComplete(g, c)
    ensures ColumnCompletions(g, sim, column) >= g.height - 1 <==>
      (forall y :: 0 <= y < g.height - 1 ==> IsComplete(g, Pos(column, y)) || Pos(column, y) in sim)
  {
    var n := g.height - 1;
    CountWhereDisjoint(n, ColumnCompleteTest(g, column), SimColumnTest(sim, column), CoveredColumnTest(g, sim, column));
    CountWhereFull(n, CoveredColumnTest(g, sim, column));
    assert forall y :: CoveredColumnTest(g, sim, column)(y) == (IsComplete(g, Pos(column, y)) || Pos(column, y) in sim);
  }

  /**
   * With in-bounds predicted cells that are not yet complete, the preview blasts exactly the cells
   * of the rows and columns that would consist of complete or predicted cells only.
   */
  lemma CalculateBlastCellsMeaning(g: Grid, sim: set<Pos>, c: Pos)
    requires g.width >= 1 && g.height >= 1
    requires forall d | d in sim :: IsCellWithinBounds(g, d) && !IsComplete(g, d)
    ensures c in CalculateBlastCells(g, sim) <==>
      && IsCellWithinBounds(g, c)
      && ((forall x :: 0 <= x < g.width - 1 ==> IsComplete(g, Pos(x, c.y)) || Pos(x, c.y) in sim)
          || (forall y :: 0 <= y < g.height - 1 ==> IsComplete(g, Pos(c.x, y)) || Pos(c.x, y) in sim))
  {
    if IsCellWithinBounds(g, c) {
      RowCompletionsMeaning(g, sim, c.y);
      ColumnCompletionsMeaning(g, sim, c.x);
    }
  }
}
