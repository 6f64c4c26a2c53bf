/**
 * Cell completion: a cell whose four sides are occupied is marked complete and triggers a blast
 * check; the completed-cell counts per row and column; and the set of cells showing a blast preview.
 */
module CellManager {
  import opened Geometry
  import opened Counting
  import opened Events
  import opened Cells
  import opened GridState
  import opened ConnectionManager
  import opened BlastManager

  /** `SetComplete(true)` on one cell; every other part of the grid is kept. */
  function MarkComplete(g: Grid, c: Pos): (r: Grid)
    requires c in g.cells
    ensures r == g.(cells := r.cells) && r.cells.Keys == g.cells.Keys
    ensures IsComplete(r, c)
    ensures r.cells[c].hasCollectible == g.cells[c].hasCollectible
    ensures r.cells[c].collectibleType == g.cells[c].collectibleType
    ensures forall d | d in g.cells && d != c :: r.cells[d] == g.cells[d]
  {
    g.(cells := g.cells[c := SetComplete(g.cells[c], true)])
  }

  /**
   * `CheckAndCompleteCell`: an out-of-bounds or already complete cell, or one with a side still
   * free, is left alone. A cell with all four sides occupied is marked complete, the completion
   * sound is emitted, and then the blast check runs.
   */
  function CheckAndCompleteCell(s: BlastState, g: Grid, c: Pos): (r: CheckResult)
    requires WellFormed(g) && g.width >= 2 && g.height >= 2
    ensures SameShape(g, r.grid) && WellFormed(r.grid)
    ensures !IsCellWithinBounds(g, c) || IsComplete(g, c) || !IsCellFull(g, c) ==>
      r == CheckResult(s, g, [])
    ensures IsCellWithinBounds(g, c) && !IsComplete(g, c) && IsCellFull(g, c) ==>
      r.events != [] && r.events[0] == SoundPlayed("completeCell")
    ensures s.isBlasting ==> r.state == s
    ensures !s.isBlasting ==> !r.state.isBlasting && r.state.comboCount >= s.comboCount
    ensures r.state.comboCount == s.comboCount ==>
      r.grid == g.(cells := r.grid.cells)
      && forall d | d in g.cells && d != c :: r.grid.cells[d] == g.cells[d]
    ensures r.state.comboCount == s.comboCount + ScoreCount(r.events)
  {
    if !IsCellWithinBounds(g, c) || IsComplete(g, c) || !IsCellFull(g, c) then
      CheckResult(s, g, [])
    else
      var marked := MarkComplete(g, c);
      CellsOnlyWellFormed(g, marked);
      var b := CheckForBlast(s, marked);
      ScoreCountAppend([SoundPlayed("completeCell")], b.events);
      CheckResult(b.state, b.grid, [SoundPlayed("completeCell")] + b.events)
  }

  /** When no blast follows, the cell ends complete and nothing else changes. */
  lemma CompletionWithoutBlast(s: BlastState, g: Grid, c: Pos)
    requires WellFormed(g) && g.width >= 2 && g.height >= 2
    requires IsCellWithinBounds(g, c) && !IsComplete(g, c) && IsCellFull(g, c)
    requires CollectAllBlastPositions(MarkComplete(g, c)) == []
    ensures CheckAndCompleteCell(s, g, c) ==
      CheckResult(s, MarkComplete(g, c), [SoundPlayed("completeCell")])
  {
  }

  /** When the new completion makes a line blastable, exactly one wave runs over the marked grid. */
  lemma CompletionWithBlast(s: BlastState, g: Grid, c: Pos)
    requires WellFormed(g) && g.width >= 2 && g.height >= 2
    requires IsCellWithinBounds(g, c) && !IsComplete(g, c) && IsCellFull(g, c)
    requires !s.isBlasting && CollectAllBlastPositions(MarkComplete(g, c)) != []
    ensures CheckAndCompleteCell(s, g, c).state == BlastState(false, s.comboCount + 1)
    ensures CheckAndCompleteCell(s, g, c).grid ==
      Wave(MarkComplete(g, c), CollectAllBlastPositions(MarkComplete(g, c)))
    ensures CheckAndCompleteCell(s, g, c).events ==
      [SoundPlayed("completeCell")] + WaveEvents(|CollectAllBlastPositions(MarkComplete(g, c))|)
  {
    var marked := MarkComplete(g, c);
    CellsOnlyWellFormed(g, marked);
    CheckForBlastIsOneWave(s, marked);
  }

  /**
   * The invariant a grid keeps between player moves, relaxed for the cells in P that may have just
   * become full: every complete cell is full, every full in-bounds cell outside P is complete, no
   * line consists of complete cells only, and every dot is occupied exactly when a slot touching
   * it is.
   */
  ghost predicate Pending(g: Grid, P: set<Pos>) {
    && CompleteImpliesFull(g)
    && (forall c | IsCellWithinBounds(g, c) && c !in P :: IsCellFull(g, c) ==> IsComplete(g, c))
    && (forall l | LineInRange(g, l) :: exists c :: c in CellsOfLine(g, l) && !IsComplete(g, c))
    && DotsConsistent(g)
  }

  /** The between-moves invariant: nothing pending. */
  ghost predicate Settled(g: Grid) {
    Pending(g, {})
  }

  /** On a settled grid no line is blastable. */
  lemma SettledHasNoLines(g: Grid)
    requires WellFormed(g) && Settled(g)
    ensures CollectAllBlastPositions(g) == []
  {
    forall l | LineInRange(g, l) ensures !IsLineComplete(g, l) {
      IsLineCompleteMeaning(g, l);
      var c :| c in CellsOfLine(g, l) && !IsComplete(g, c);
    }
    NoMemberEmpty(CollectAllBlastPositions(g));
  }

  /** A grid with no blastable line has no line of complete cells only. */
  lemma NoLinesNoCompleteLine(g: Grid, l: Line)
    requires WellFormed(g) && CollectAllBlastPositions(g) == [] && LineInRange(g, l)
    ensures exists c :: c in CellsOfLine(g, l) && !IsComplete(g, c)
  {
    IsLineCompleteMeaning(g, l);
    assert l !in CollectAllBlastPositions(g);
    var c :| c in CellsOfLine(g, l) && !CountsAsComplete(g, c);
  }

  /** Checking a cell outside a blast run discharges it from the pending set. */
  lemma CheckAndCompleteCellSettles(s: BlastState, g: Grid, c: Pos, P: set<Pos>)
    requires WellFormed(g) && g.width >= 2 && g.height >= 2
    requires !s.isBlasting && Pending(g, P)
    ensures Pending(CheckAndCompleteCell(s, g, c).grid, P - {c})
  {
    if IsCellWithinBounds(g, c) && !IsComplete(g, c) && IsCellFull(g, c) {
      var marked := MarkComplete(g, c);
      CellsOnlyWellFormed(g, marked);
      MarkKeepsPending(g, c, P);
      var lines := CollectAllBlastPositions(marked);
      if lines == [] {
        forall l | LineInRange(marked, l)
          ensures exists d :: d in CellsOfLine(marked, l) && !IsComplete(marked, d)
        {
          NoLinesNoCompleteLine(marked, l);
        }
      } else {
        CompletionWithBlast(s, g, c);
        WaveKeepsPending(marked, P - {c});
      }
    }
  }

  /** Marking a full cell complete keeps every part of the invariant but the line clause. */
  lemma MarkKeepsPending(g: Grid, c: Pos, P: set<Pos>)
    requires WellFormed(g) && Pending(g, P)
    requires IsCellWithinBounds(g, c) && IsCellFull(g, c)
    ensures CompleteImpliesFull(MarkComplete(g, c))
    ensures forall d | IsCellWithinBounds(g, d) && d !in P - {c} ::
      IsCellFull(MarkComplete(g, c), d) ==> IsComplete(MarkComplete(g, c), d)
    ensures DotsConsistent(MarkComplete(g, c))
  {
    var m := MarkComplete(g, c);
    forall d ensures IsCellFull(m, d) == IsCellFull(g, d) {
      SlotsFrame(g, m, d);
    }
    forall p | p in m.dots ensures DotHasOccupiedConnections(m, p) == DotHasOccupiedConnections(g, p) {
      DotsOnlyCellsFrame(g, m, p);
    }
  }

  /**
   * A wave over every blastable line of a grid keeps the relaxed invariant: it establishes
   * complete-implies-full itself, leaves no blastable line, keeps dots consistent, and can make a
   * full cell incomplete only by also emptying it.
   */
  lemma WaveKeepsPending(g: Grid, P: set<Pos>)
    requires WellFormed(g) && g.width >= 2 && g.height >= 2
    requires DotsConsistent(g)
    requires forall d | IsCellWithinBounds(g, d) && d !in P :: IsCellFull(g, d) ==> IsComplete(g, d)
    ensures Pending(Wave(g, CollectAllBlastPositions(g)), P)
  {
    var lines := CollectAllBlastPositions(g);
    var r := Wave(g, lines);
    WaveKeepsDotsConsistent(g, lines);
    NoLinesAfterWave(g);
    forall l | LineInRange(r, l) ensures exists d :: d in CellsOfLine(r, l) && !IsComplete(r, d) {
      NoLinesNoCompleteLine(r, l);
    }
    forall d | IsCellWithinBounds(r, d) && d !in P && IsCellFull(r, d) ensures IsComplete(r, d) {
      WaveMonotone(g, lines, d);
      WaveEdges(g, lines);
      var s := GetCellConnections(d);
      assert Occupied(g, s[0]) && Occupied(g, s[1]) && Occupied(g, s[2]) && Occupied(g, s[3]);
      WaveClearsLines(g, lines);
      WaveKeepsOtherCells(g, lines);
    }
  }

  /** The completion test for one cell of a row, as a predicate on the column index. */
  function RowCompleteTest(g: Grid, row: int): int -> bool {
    x => IsComplete(g, Pos(x, row))
  }

  /** The completion test for one cell of a column, as a predicate on the row index. */
  function ColumnCompleteTest(g: Grid, column: int): int -> bool {
    y => IsComplete(g, Pos(column, y))
  }

  /**
   * `GetCompletedCellsInRow`: the number of cells of the row flagged complete. Unlike the blast
   * test, a full but unflagged cell is not counted.
   */
  function GetCompletedCellsInRow(g: Grid, row: int): (r: nat)
    requires g.width >= 1 && 0 <= row < g.height - 1
    ensures r <= g.width - 1
    ensures r == g.width - 1 <==> forall x :: 0 <= x < g.width - 1 ==> IsComplete(g, Pos(x, row))
  {
    CountWhereFull(g.width - 1, RowCompleteTest(g, row));
    assert forall x :: RowCompleteTest(g, row)(x) == IsComplete(g, Pos(x, row));
    CountWhere(g.width - 1, RowCompleteTest(g, row))
  }

  /** `GetCompletedCellsInColumn`: the number of cells of the column flagged complete. */
  function GetCompletedCellsInColumn(g: Grid, column: int): (r: nat)
    requires g.height >= 1 && 0 <= column < g.width - 1
    ensures r <= g.height - 1
    ensures r == g.height - 1 <==> forall y :: 0 <= y < g.height - 1 ==> IsComplete(g, Pos(column, y))
  {
    CountWhereFull(g.height - 1, ColumnCompleteTest(g, column));
    assert forall y :: ColumnCompleteTest(g, column)(y) == IsComplete(g, Pos(column, y));
    CountWhere(g.height - 1, ColumnCompleteTest(g, column))
  }

  /** A row whose every cell is flagged complete is blastable; the converse fails for full cells. */
  lemma CompletedRowIsBlastable(g: Grid, row: int)
    requires g.width >= 1 && 0 <= row < g.height - 1
    requires GetCompletedCellsInRow(g, row) == g.width - 1
    ensures IsRowComplete(g, row)
  {
    forall x | 0 <= x < g.width - 1 ensures CountsAsComplete(g, Pos(x, row)) {
      assert IsComplete(g, Pos(x, row));
    }
  }

  /** A column whose every cell is flagged complete is blastable. */
  lemma CompletedColumnIsBlastable(g: Grid, column: int)
    requires g.height >= 1 && 0 <= column < g.width - 1
    requires GetCompletedCellsInColumn(g, column) == g.height - 1
    ensures IsColumnComplete(g, column)
  {
    forall y | 0 <= y < g.height - 1 ensures CountsAsComplete(g, Pos(column, y)) {
      assert IsComplete(g, Pos(column, y));
    }
  }

  /** `ShowBlastPreview`: the cell joins the preview set; the cell's own state is visual only. */
  function ShowBlastPreview(previews: set<Pos>, c: Pos): (r: set<Pos>)
    ensures c in r && previews <= r
    ensures forall d :: d in r ==> d in previews || d == c
  {
    previews + {c}
  }

  /** `ClearBlastPreviews`: the preview set is emptied. */
  function ClearBlastPreviews(previews: set<Pos>): (r: set<Pos>)
    ensures forall d :: d !in r
  {
    {}
  }

  /** Showing a preview twice is the same as once, and clearing forgets every preview shown. */
  lemma PreviewLaws(previews: set<Pos>, c: Pos)
    ensures ShowBlastPreview(ShowBlastPreview(previews, c), c) == ShowBlastPreview(previews, c)
    ensures ClearBlastPreviews(ShowBlastPreview(previews, c)) == ClearBlastPreviews(previews)
  {
  }
}
