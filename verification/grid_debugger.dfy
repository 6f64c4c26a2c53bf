/**
 * The debugging pattern a grid can be started with: slots are occupied directly, without
 * validation, cell checks or a combo reset, and then the cells of rows 2 and 3 are checked for
 * completion. On the default six-wide grid this completes eight cells and blasts nothing.
 */
module GridDebugger {
  import opened Wrappers
  import opened Geometry
  import opened Events
  import opened GridState
  import opened GridInitializer
  import opened ConnectionManager
  import opened BlastManager
  import opened CellManager
  import opened PlacementManager

  /**
   * `FillConnection`: when the two dots have a slot between them, the slot and both dots become
   * occupied; otherwise nothing happens. No cell is looked at.
   */
  function FillConnection(g: Grid, start: Pos, end: Pos): (r: Grid)
    requires WellFormed(g) && IsWithinBounds(g, start) && IsWithinBounds(g, end)
    ensures SameShape(g, r) && WellFormed(r) && r.cells == g.cells
    ensures GetConnection(g, start, end).None? ==> r == g
    ensures forall f :: Occupied(r, f) <==> Occupied(g, f) || GetConnection(g, start, end) == Some(f)
  {
    match GetConnection(g, start, end)
    case None => g
    case Some(e) =>
      OccupyConnectionWellFormed(g, e, start, end);
      OccupyConnection(g, e, start, end)
  }

  /** A pair of dots with both ends on the grid. */
  predicate PairInBounds(g: Grid, pair: (Pos, Pos)) {
    IsWithinBounds(g, pair.0) && IsWithinBounds(g, pair.1)
  }

  /** A pair whose second dot is one step right of or above the first. */
  predicate Forward(pair: (Pos, Pos)) {
    pair.1 == Pos(pair.0.x + 1, pair.0.y) || pair.1 == Pos(pair.0.x, pair.0.y + 1)
  }

  /** The slot a forward pair fills: indexed by its first dot, in the array of its direction. */
  function SlotOf(pair: (Pos, Pos)): EdgeRef {
    if pair.0.x == pair.1.x then Horizontal(pair.0) else Vertical(pair.0)
  }

  /** Filling the pairs one after another, in order. */
  function FillAll(g: Grid, pairs: seq<(Pos, Pos)>): (r: Grid)
    requires WellFormed(g)
    requires forall i :: 0 <= i < |pairs| ==> PairInBounds(g, pairs[i])
    ensures SameShape(g, r) && WellFormed(r) && r.cells == g.cells
    decreases |pairs|
  {
    if pairs == [] then g
    else
      assert PairInBounds(g, pairs[0]);
      var g1 := FillConnection(g, pairs[0].0, pairs[0].1);
      TailInBounds(g, g1, pairs);
      FillAll(g1, pairs[1..])
  }

  /** The remaining pairs still fit after one fill, which keeps the dimensions. */
  lemma TailInBounds(g: Grid, g1: Grid, pairs: seq<(Pos, Pos)>)
    requires pairs != [] && g1.width == g.width && g1.height == g.height
    requires forall i :: 0 <= i < |pairs| ==> PairInBounds(g, pairs[i])
    ensures forall i :: 0 <= i < |pairs[1..]| ==> PairInBounds(g1, pairs[1..][i])
  {
    forall i | 0 <= i < |pairs[1..]| ensures PairInBounds(g1, pairs[1..][i]) {
      assert pairs[1..][i] == pairs[i + 1];
      assert PairInBounds(g, pairs[i + 1]);
    }
  }

  /** Some pair of the sequence fills slot f. */
  predicate FillsSlot(pairs: seq<(Pos, Pos)>, f: EdgeRef) {
    exists i :: 0 <= i < |pairs| && SlotOf(pairs[i]) == f
  }

  /** A pair of the sequence fills f exactly when the first does or one of the rest does. */
  lemma FillsSlotSplit(pairs: seq<(Pos, Pos)>, f: EdgeRef)
    requires pairs != []
    ensures FillsSlot(pairs, f) <==> SlotOf(pairs[0]) == f || FillsSlot(pairs[1..], f)
  {
    if FillsSlot(pairs, f) {
      var i :| 0 <= i < |pairs| && SlotOf(pairs[i]) == f;
      if i > 0 {
        assert SlotOf(pairs[1..][i - 1]) == f;
      }
    }
    if FillsSlot(pairs[1..], f) {
      var j :| 0 <= j < |pairs[1..]| && SlotOf(pairs[1..][j]) == f;
      assert SlotOf(pairs[j + 1]) == f;
    }
  }

  /** After filling forward pairs, exactly the slots of those pairs have been added. */
  lemma {:induction false} FillAllOccupied(g: Grid, pairs: seq<(Pos, Pos)>, f: EdgeRef)
    requires WellFormed(g)
    requires forall i :: 0 <= i < |pairs| ==> PairInBounds(g, pairs[i]) && Forward(pairs[i])
    ensures Occupied(FillAll(g, pairs), f) <==> Occupied(g, f) || FillsSlot(pairs, f)
    decreases |pairs|
  {
    if pairs != [] {
      assert PairInBounds(g, pairs[0]) && Forward(pairs[0]);
      var g1 := FillConnection(g, pairs[0].0, pairs[0].1);
      assert GetConnection(g, pairs[0].0, pairs[0].1) == Some(SlotOf(pairs[0]));
      TailInBounds(g, g1, pairs);
      assert FillAll(g, pairs) == FillAll(g1, pairs[1..]);
      forall i | 0 <= i < |pairs[1..]| ensures Forward(pairs[1..][i]) {
        assert pairs[1..][i] == pairs[i + 1];
      }
      FillAllOccupied(g1, pairs[1..], f);
      FillsSlotSplit(pairs, f);
    }
  }

  /** One pass of the `y` loop: the first three and the last step of row y. */
  function RowPairs(y: int): seq<(Pos, Pos)> {
    [(Pos(0, y), Pos(1, y)), (Pos(1, y), Pos(2, y)), (Pos(2, y), Pos(3, y)), (Pos(4, y), Pos(5, y))]
  }

  /** The six upward steps from row y to row y + 1. */
  function RungPairs(y: int): (r: seq<(Pos, Pos)>)
    ensures |r| == 6 && forall i :: 0 <= i < 6 ==> r[i] == (Pos(i, y), Pos(i, y + 1))
  {
    seq(6, i => (Pos(i, y), Pos(i, y + 1)))
  }

  /** The steps of row y lie on a grid at least six wide with a row y. */
  lemma RowPairsFit(g: Grid, y: int)
    requires g.width >= 6 && 0 <= y < g.height
    ensures forall i :: 0 <= i < |RowPairs(y)| ==> PairInBounds(g, RowPairs(y)[i]) && Forward(RowPairs(y)[i])
  {
  }

  /** The rungs from row y lie on a grid at least six wide with a row y + 1. */
  lemma RungPairsFit(g: Grid, y: int)
    requires g.width >= 6 && 0 <= y < g.height - 1
    ensures forall i :: 0 <= i < |RungPairs(y)| ==> PairInBounds(g, RungPairs(y)[i]) && Forward(RungPairs(y)[i])
  {
  }

  /** A step of row y starting at column 0, 1, 2 or 4. */
  predicate RowSlot(y: int, f: EdgeRef) {
    f.Vertical? && f.at.y == y && (f.at.x == 0 || f.at.x == 1 || f.at.x == 2 || f.at.x == 4)
  }

  /** An upward step from row y at a column from 0 to 5. */
  predicate RungSlot(y: int, f: EdgeRef) {
    f.Horizontal? && f.at.y == y && 0 <= f.at.x < 6
  }

  /** The slots of `RowPairs(y)`: the steps of row y starting at columns 0, 1, 2 and 4. */
  lemma RowPairsSlots(y: int, f: EdgeRef)
    ensures FillsSlot(RowPairs(y), f) <==> RowSlot(y, f)
  {
    var r := RowPairs(y);
    if f.Vertical? && f.at.y == y {
      if f.at.x == 0 { assert SlotOf(r[0]) == f; }
      if f.at.x == 1 { assert SlotOf(r[1]) == f; }
      if f.at.x == 2 { assert SlotOf(r[2]) == f; }
      if f.at.x == 4 { assert SlotOf(r[3]) == f; }
    }
  }

  /** The slots of `RungPairs(y)`: the upward steps from row y at columns 0 to 5. */
  lemma RungPairsSlots(y: int, f: EdgeRef)
    ensures FillsSlot(RungPairs(y), f) <==> RungSlot(y, f)
  {
    if f.Horizontal? && f.at.y == y && 0 <= f.at.x < 6 {
      assert SlotOf(RungPairs(y)[f.at.x]) == f;
    }
  }

  /** The slots the pattern fills: rows 2 to 4 without the step from column 3, and all rungs of rows 2 and 3. */
  predicate IsPatternEdge(f: EdgeRef) {
    match f
    case Vertical(p) => (p.x == 0 || p.x == 1 || p.x == 2 || p.x == 4) && 2 <= p.y <= 4
    case Horizontal(p) => 0 <= p.x < 6 && (p.y == 2 || p.y == 3)
  }

  /** The part of the pattern that occupies slots, in the source's order: the rows, then the rungs. */
  function FillPatternConnections(g: Grid): (r: Grid)
    requires WellFormed(g) && g.width >= 6 && g.height >= 5
    ensures SameShape(g, r) && WellFormed(r) && r.cells == g.cells
  {
    FillRungs(FillRows(g))
  }

  /** The three row loops: rows 2, 3 and 4. */
  function FillRows(g: Grid): (r: Grid)
    requires WellFormed(g) && g.width >= 6 && g.height >= 5
    ensures SameShape(g, r) && WellFormed(r) && r.cells == g.cells
  {
    RowPairsFit(g, 2);
    var g1 := FillAll(g, RowPairs(2));
    RowPairsFit(g1, 3);
    var g2 := FillAll(g1, RowPairs(3));
    RowPairsFit(g2, 4);
    FillAll(g2, RowPairs(4))
  }

  /** The two rung loops: rungs between rows 2 and 3, and between rows 3 and 4. */
  function FillRungs(g: Grid): (r: Grid)
    requires WellFormed(g) && g.width >= 6 && g.height >= 5
    ensures SameShape(g, r) && WellFormed(r) && r.cells == g.cells
  {
    RungPairsFit(g, 2);
    var g1 := FillAll(g, RungPairs(2));
    RungPairsFit(g1, 3);
    FillAll(g1, RungPairs(3))
  }

  /** The row loops occupy exactly the row slots, on top of what was occupied. */
  lemma FillRowsOccupied(g: Grid, f: EdgeRef)
    requires WellFormed(g) && g.width >= 6 && g.height >= 5
    ensures Occupied(FillRows(g), f) <==> Occupied(g, f) || RowSlot(2, f) || RowSlot(3, f) || RowSlot(4, f)
  {
    RowPairsFit(g, 2);
    var g1 := FillAll(g, RowPairs(2));
    RowPairsFit(g1, 3);
    var g2 := FillAll(g1, RowPairs(3));
    RowPairsFit(g2, 4);
    assert FillRows(g) == FillAll(g2, RowPairs(4));
    FillAllOccupied(g, RowPairs(2), f);
    RowPairsSlots(2, f);
    FillAllOccupied(g1, RowPairs(3), f);
    RowPairsSlots(3, f);
    FillAllOccupied(g2, RowPairs(4), f);
    RowPairsSlots(4, f);
  }

  /** The rung loops occupy exactly the rung slots, on top of what was occupied. */
  lemma FillRungsOccupied(g: Grid, f: EdgeRef)
    requires WellFormed(g) && g.width >= 6 && g.height >= 5
    ensures Occupied(FillRungs(g), f) <==> Occupied(g, f) || RungSlot(2, f) || RungSlot(3, f)
  {
    RungPairsFit(g, 2);
    var g1 := FillAll(g, RungPairs(2));
    RungPairsFit(g1, 3);
    assert FillRungs(g) == FillAll(g1, RungPairs(3));
    FillAllOccupied(g, RungPairs(2), f);
    RungPairsSlots(2, f);
    FillAllOccupied(g1, RungPairs(3), f);
    RungPairsSlots(3, f);
  }

  /** On a grid with no occupied slot, exactly the pattern's slots end occupied. */
  lemma FillPatternConnectionsOccupied(g: Grid, f: EdgeRef)
    requires WellFormed(g) && g.width >= 6 && g.height >= 5
    requires !Occupied(g, f)
    ensures Occupied(FillPatternConnections(g), f) <==> IsPatternEdge(f)
  {
    FillRowsOccupied(g, f);
    FillRungsOccupied(FillRows(g), f);
    PatternEdgeParts(f);
  }

  /** The pattern's slots are the three row parts and the two rung parts. */
  lemma PatternEdgeParts(f: EdgeRef)
    ensures IsPatternEdge(f) <==>
      RowSlot(2, f) || RowSlot(3, f) || RowSlot(4, f) || RungSlot(2, f) || RungSlot(3, f)
  {
  }

  /** A cell whose four sides the pattern occupies: column 0, 1, 2 or 4 of row 2 or 3. */
  predicate IsPatternCell(c: Pos) {
    (c.y == 2 || c.y == 3) && (c.x == 0 || c.x == 1 || c.x == 2 || c.x == 4)
  }

  /** The eight pattern cells. */
  function PatternCells(): (r: set<Pos>)
    ensures forall c :: c in r <==> IsPatternCell(c)
  {
    {Pos(0, 2), Pos(1, 2), Pos(2, 2), Pos(4, 2), Pos(0, 3), Pos(1, 3), Pos(2, 3), Pos(4, 3)}
  }

  /**
   * A six-wide grid part-way through the completion loop: the pattern's slots are exactly the
   * occupied ones, and exactly the cells of D, all pattern cells, are complete.
   */
  ghost predicate Phase(g: Grid, D: set<Pos>) {
    && WellFormed(g) && g.width == 6 && g.height >= 5
    && (forall f :: Occupied(g, f) <==> IsPatternEdge(f))
    && (forall c :: c in D ==> IsPatternCell(c))
    && (forall c :: IsComplete(g, c) <==> c in D)
  }

  /** With the pattern's slots occupied, a cell is full exactly when it is a pattern cell. */
  lemma CellFullIffPattern(g: Grid, c: Pos)
    requires forall f :: Occupied(g, f) <==> IsPatternEdge(f)
    ensures IsCellFull(g, c) <==> IsPatternCell(c)
  {
    var s := GetCellConnections(c);
    assert Occupied(g, s[0]) <==> IsPatternEdge(s[0]);
    assert Occupied(g, s[1]) <==> IsPatternEdge(s[1]);
    assert Occupied(g, s[2]) <==> IsPatternEdge(s[2]);
    assert Occupied(g, s[3]) <==> IsPatternEdge(s[3]);
  }

  /** A cell outside the pattern is neither complete nor full, so it stops its lines. */
  lemma OutsideDoesNotCount(g: Grid, D: set<Pos>, c: Pos)
    requires Phase(g, D) && !IsPatternCell(c)
    ensures !CountsAsComplete(g, c)
  {
    CellFullIffPattern(g, c);
  }

  /** No line of a grid in a phase of the pattern is blastable. */
  lemma PhaseHasNoLines(g: Grid, D: set<Pos>)
    requires Phase(g, D)
    ensures CollectAllBlastPositions(g) == []
  {
    forall l | LineInRange(g, l) ensures !IsLineComplete(g, l) {
      match l
      case Row(y) =>
        var w := if y == 2 || y == 3 then Pos(3, y) else Pos(0, y);
        OutsideDoesNotCount(g, D, w);
      case Column(x) =>
        OutsideDoesNotCount(g, D, Pos(x, 0));
    }
    NoMemberEmpty(CollectAllBlastPositions(g));
  }

  /**
   * One completion check of the loop: a pattern cell not yet complete becomes complete with the
   * completion sound and no blast; any other cell of rows 2 and 3 is left alone.
   */
  lemma CheckStep(s: BlastState, g: Grid, D: set<Pos>, c: Pos)
    requires Phase(g, D) && c !in D
    requires 0 <= c.x < 5 && (c.y == 2 || c.y == 3)
    ensures CheckAndCompleteCell(s, g, c).state == s
    ensures Phase(CheckAndCompleteCell(s, g, c).grid, Advance(D, c))
    ensures CheckAndCompleteCell(s, g, c).events == Sounds(if IsPatternCell(c) then 1 else 0)
  {
    CellFullIffPattern(g, c);
    if IsPatternCell(c) {
      MarkKeepsPhase(g, D, c);
      PhaseHasNoLines(MarkComplete(g, c), D + {c});
      CheckCompletes(s, g, c);
    } else {
      assert Sounds(0) == [];
    }
  }

  /** A full cell whose completion leaves no line blastable: completed, with one sound. */
  lemma CheckCompletes(s: BlastState, g: Grid, c: Pos)
    requires WellFormed(g) && g.width >= 2 && g.height >= 2
    requires IsCellWithinBounds(g, c) && !IsComplete(g, c) && IsCellFull(g, c)
    requires CollectAllBlastPositions(MarkComplete(g, c)) == []
    ensures CheckAndCompleteCell(s, g, c) == CheckResult(s, MarkComplete(g, c), Sounds(1))
  {
    CompletionWithoutBlast(s, g, c);
    assert Sounds(1) == [SoundPlayed("completeCell")];
  }

  /** Marking a pattern cell complete moves the phase on by that cell. */
  lemma MarkKeepsPhase(g: Grid, D: set<Pos>, c: Pos)
    requires Phase(g, D) && IsCellWithinBounds(g, c) && IsPatternCell(c)
    ensures Phase(MarkComplete(g, c), D + {c})
  {
    var m := MarkComplete(g, c);
    CellsOnlyWellFormed(g, m);
    forall f ensures Occupied(m, f) <==> IsPatternEdge(f) {
      OccupiedFrame(g, m, f);
    }
    forall d ensures IsComplete(m, d) <==> d in D + {c} {
      if d != c {
        assert IsComplete(m, d) == IsComplete(g, d);
      }
    }
  }

  /** One pass of the inner loop: the completion checks of cells (x, 2) and (x, 3), in that order. */
  function CheckColumn(s: BlastState, g: Grid, x: int): (r: CheckResult)
    requires WellFormed(g) && g.width >= 2 && g.height >= 2
    ensures SameShape(g, r.grid) && WellFormed(r.grid)
  {
    var r1 := CheckAndCompleteCell(s, g, Pos(x, 2));
    var r2 := CheckAndCompleteCell(r1.state, r1.grid, Pos(x, 3));
    CheckResult(r2.state, r2.grid, r1.events + r2.events)
  }

  /** The completion loop from column x on, one column at a time up to the last but one. */
  function CompleteFrom(s: BlastState, g: Grid, x: int): (r: CheckResult)
    requires WellFormed(g) && g.width >= 2 && g.height >= 2 && 0 <= x <= g.width - 1
    ensures SameShape(g, r.grid) && WellFormed(r.grid)
    decreases g.width - 1 - x
  {
    if x == g.width - 1 then CheckResult(s, g, [])
    else
      var c := CheckColumn(s, g, x);
      var rest := CompleteFrom(c.state, c.grid, x + 1);
      CheckResult(rest.state, rest.grid, c.events + rest.events)
  }

  /** `FillTestPattern`: the pattern's slots, then the completion checks of rows 2 and 3. */
  function FillTestPattern(s: BlastState, g: Grid): (r: CheckResult)
    requires WellFormed(g) && g.width >= 6 && g.height >= 5
    ensures SameShape(g, r.grid) && WellFormed(r.grid)
  {
    CompleteFrom(s, FillPatternConnections(g), 0)
  }

  /** The pattern cells left of column x. */
  function DoneBefore(x: int): (r: set<Pos>)
    ensures forall c :: c in r <==> IsPatternCell(c) && c.x < x
  {
    set c | c in PatternCells() && c.x < x
  }

  /** The number of pattern columns from x to 4. */
  function PatternColumnsFrom(x: int): nat
    decreases 5 - x
  {
    if x >= 5 then 0 else (if x == 3 then 0 else 1) + PatternColumnsFrom(x + 1)
  }

  /** The completion sound, n times. */
  function Sounds(n: nat): seq<Event> {
    seq(n, i => SoundPlayed("completeCell"))
  }

  /** One column completes its pattern cells, with one sound each, and no blast. */
  lemma ColumnPattern(s: BlastState, g: Grid, x: int)
    requires 0 <= x < 5 && Phase(g, DoneBefore(x))
    ensures CheckColumn(s, g, x).state == s
    ensures Phase(CheckColumn(s, g, x).grid, DoneBefore(x + 1))
    ensures CheckColumn(s, g, x).events == Sounds(2 * (if x == 3 then 0 else 1))
  {
    var r1 := CheckAndCompleteCell(s, g, Pos(x, 2));
    CheckStep(s, g, DoneBefore(x), Pos(x, 2));
    SecondCell(s, r1.grid, x);
    ColumnSoundsPair(x);
  }

  /** The check of cell (x, 3), once cell (x, 2) has been checked, ends the column's phase. */
  lemma SecondCell(s: BlastState, m: Grid, x: int)
    requires 0 <= x < 5 && Phase(m, Advance(DoneBefore(x), Pos(x, 2)))
    ensures CheckAndCompleteCell(s, m, Pos(x, 3)).state == s
    ensures Phase(CheckAndCompleteCell(s, m, Pos(x, 3)).grid, DoneBefore(x + 1))
    ensures CheckAndCompleteCell(s, m, Pos(x, 3)).events == Sounds(if IsPatternCell(Pos(x, 3)) then 1 else 0)
  {
    var D := Advance(DoneBefore(x), Pos(x, 2));
    assert Pos(x, 3) !in D;
    CheckStep(s, m, D, Pos(x, 3));
    assert Advance(D, Pos(x, 3)) == DoneBefore(x + 1) by {
      DoneBeforeNext(x);
    }
  }

  /** The two sounds of column x. */
  lemma ColumnSoundsPair(x: int)
    requires 0 <= x < 5
    ensures Sounds(if IsPatternCell(Pos(x, 2)) then 1 else 0) + Sounds(if IsPatternCell(Pos(x, 3)) then 1 else 0)
      == Sounds(2 * (if x == 3 then 0 else 1))
  {
    var a := if x == 3 then 0 else 1;
    SoundsConcat(a, a);
  }

  /** From column x on, the loop completes the remaining pattern cells without a blast. */
  lemma {:induction false} CompleteFromPattern(s: BlastState, g: Grid, x: int)
    requires 0 <= x <= 5 && Phase(g, DoneBefore(x))
    ensures CompleteFrom(s, g, x).state == s
    ensures Phase(CompleteFrom(s, g, x).grid, PatternCells())
    ensures CompleteFrom(s, g, x).events == Sounds(2 * PatternColumnsFrom(x))
    decreases 5 - x
  {
    if x == 5 {
      assert DoneBefore(x) == PatternCells();
      assert Sounds(2 * PatternColumnsFrom(x)) == [];
      assert CompleteFrom(s, g, x) == CheckResult(s, g, []);
    } else {
      var c := CheckColumn(s, g, x);
      var n := 2 * (if x == 3 then 0 else 1);
      assert c.state == s && Phase(c.grid, DoneBefore(x + 1)) && c.events == Sounds(n) by {
        ColumnPattern(s, g, x);
      }
      var rest := CompleteFrom(s, c.grid, x + 1);
      assert rest.state == s && Phase(rest.grid, PatternCells())
        && rest.events == Sounds(2 * PatternColumnsFrom(x + 1)) by {
        CompleteFromPattern(s, c.grid, x + 1);
      }
      assert CompleteFrom(s, g, x) == CheckResult(rest.state, rest.grid, c.events + rest.events);
      assert c.events + rest.events == Sounds(2 * PatternColumnsFrom(x)) by {
        ColumnSounds(x);
      }
    }
  }

  /** The cells done once cell c has been checked. */
  function Advance(D: set<Pos>, c: Pos): set<Pos> {
    if IsPatternCell(c) then D + {c} else D
  }

  /** A column's sounds followed by those of the columns after it. */
  lemma ColumnSounds(x: int)
    requires 0 <= x < 5
    ensures Sounds(2 * (if x == 3 then 0 else 1)) + Sounds(2 * PatternColumnsFrom(x + 1))
      == Sounds(2 * PatternColumnsFrom(x))
  {
    SoundsConcat(2 * (if x == 3 then 0 else 1), 2 * PatternColumnsFrom(x + 1));
  }

  /** Passing column x adds its pattern cells to those done. */
  lemma DoneBeforeNext(x: int)
    ensures DoneBefore(x + 1) == Advance(Advance(DoneBefore(x), Pos(x, 2)), Pos(x, 3))
  {
  }

  lemma SoundsConcat(a: nat, b: nat)
    ensures Sounds(a) + Sounds(b) == Sounds(a + b)
  {
  }

  /** A six-wide grid with no slot occupied and no cell complete, as the initializer builds it. */
  ghost predicate Blank(g: Grid) {
    && WellFormed(g) && g.width == 6 && g.height >= 5
    && (forall f :: !Occupied(g, f))
    && (forall c :: !IsComplete(g, c))
  }

  /** A freshly initialised six-wide grid is blank. */
  lemma InitializeGridBlank(height: int)
    requires height >= 5
    ensures Blank(InitializeGrid(6, height))
  {
    var g := InitializeGrid(6, height);
    forall f ensures !Occupied(g, f) {
      if HasConnection(g, f) {
        match f
        case Horizontal(p) => assert p in g.horizontal;
        case Vertical(p) => assert p in g.vertical;
      }
    }
  }

  /**
   * The debugging pattern on a blank six-wide grid: exactly the pattern's slots are occupied,
   * exactly the eight pattern cells are complete (cells (3, 2) and (3, 3) are not), the blast state
   * is untouched, no line is left blastable, and the only sounds are eight completions.
   */
  lemma FillTestPatternScenario(s: BlastState, g: Grid)
    requires Blank(g)
    ensures var r := FillTestPattern(s, g);
      && r.state == s
      && (forall f :: Occupied(r.grid, f) <==> IsPatternEdge(f))
      && (forall c :: IsComplete(r.grid, c) <==> IsPatternCell(c))
      && !IsComplete(r.grid, Pos(3, 2)) && !IsComplete(r.grid, Pos(3, 3))
      && CollectAllBlastPositions(r.grid) == []
      && r.events == Sounds(8)
  {
    FillTestPatternRun(s, g);
    PatternDone(FillTestPattern(s, g).grid);
  }

  /** On a blank grid the whole run completes every pattern cell, with eight sounds and no blast. */
  lemma FillTestPatternRun(s: BlastState, g: Grid)
    requires Blank(g)
    ensures FillTestPattern(s, g).state == s
    ensures Phase(FillTestPattern(s, g).grid, PatternCells())
    ensures FillTestPattern(s, g).events == Sounds(8)
  {
    var filled := FillPatternConnections(g);
    FilledPhase(g);
    assert FillTestPattern(s, g) == CompleteFrom(s, filled, 0);
    assert 2 * PatternColumnsFrom(0) == 8;
    CompleteFromPattern(s, filled, 0);
  }

  /** Once every pattern cell is done: the occupancy and completion the pattern fixes, and no line. */
  lemma PatternDone(g: Grid)
    requires Phase(g, PatternCells())
    ensures forall f :: Occupied(g, f) <==> IsPatternEdge(f)
    ensures forall c :: IsComplete(g, c) <==> IsPatternCell(c)
    ensures !IsComplete(g, Pos(3, 2)) && !IsComplete(g, Pos(3, 3))
    ensures CollectAllBlastPositions(g) == []
  {
    PhaseHasNoLines(g, PatternCells());
  }

  /** On a blank grid, filling the pattern's slots starts the phase with nothing done. */
  lemma FilledPhase(g: Grid)
    requires Blank(g)
    ensures Phase(FillPatternConnections(g), DoneBefore(0))
  {
    var filled := FillPatternConnections(g);
    forall f ensures Occupied(filled, f) <==> IsPatternEdge(f) {
      FillPatternConnectionsOccupied(g, f);
    }
    forall c ensures !IsComplete(filled, c) {
      assert filled.cells == g.cells;
      assert !IsComplete(g, c);
    }
    assert DoneBefore(0) == {};
    assert WellFormed(filled) && filled.width == 6 && filled.height >= 5;
  }
}
