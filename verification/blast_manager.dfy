/**
 * Line blasts. A row or column is blastable when each of its cells is flagged complete or has all
 * four sides occupied. A wave clears the cells of every blastable line, resets their occupied
 * sides, clears dots left bare, and downgrades every complete cell that lost a side.
 */
module BlastManager {
  import opened Wrappers
  import opened Geometry
  import opened Counting
  import opened Events
  import opened Cells
  import opened GridState
  import opened ConnectionManager

  /** The manager's own state: the re-entrancy flag and the combo counter. */
  datatype BlastState = BlastState(isBlasting: bool, comboCount: int)

  /** The source encodes a row y as (-1, y) and a column x as (x, -1). */
  datatype Line = Row(index: int) | Column(index: int)

  /** `ResetCombo`. */
  function ResetCombo(s: BlastState): (r: BlastState)
    ensures r.comboCount == 0 && r.isBlasting == s.isBlasting
  {
    s.(comboCount := 0)
  }

  /** A cell that counts towards a full line: flagged complete, or all four sides occupied. */
  predicate CountsAsComplete(g: Grid, c: Pos) {
    IsComplete(g, c) || IsCellFull(g, c)
  }

  /** The per-cell test of a row, as a predicate on the column index. */
  function RowTest(g: Grid, row: int): int -> bool {
    x => CountsAsComplete(g, Pos(x, row))
  }

  /** The per-cell test of a column, as a predicate on the row index. */
  function ColumnTest(g: Grid, column: int): int -> bool {
    y => CountsAsComplete(g, Pos(column, y))
  }

  /** `IsRowComplete`: the count of counting cells in the row reaches Width - 1. */
  function IsRowComplete(g: Grid, row: int): (r: bool)
    requires g.width >= 1
    ensures r <==> forall x :: 0 <= x < g.width - 1 ==> CountsAsComplete(g, Pos(x, row))
  {
    CountWhereFull(g.width - 1, RowTest(g, row));
    assert forall x :: RowTest(g, row)(x) == CountsAsComplete(g, Pos(x, row));
    CountWhere(g.width - 1, RowTest(g, row)) == g.width - 1
  }

  /** `IsColumnComplete`: the count of counting cells in the column reaches Height - 1. */
  function IsColumnComplete(g: Grid, column: int): (r: bool)
    requires g.height >= 1
    ensures r <==> forall y :: 0 <= y < g.height - 1 ==> CountsAsComplete(g, Pos(column, y))
  {
    CountWhereFull(g.height - 1, ColumnTest(g, column));
    assert forall y :: ColumnTest(g, column)(y) == CountsAsComplete(g, Pos(column, y));
    CountWhere(g.height - 1, ColumnTest(g, column)) == g.height - 1
  }

  /** The cells of a line. */
  function CellsOfLine(g: Grid, l: Line): set<Pos> {
    match l
    case Row(y) => set x | 0 <= x < g.width - 1 :: Pos(x, y)
    case Column(x) => set y | 0 <= y < g.height - 1 :: Pos(x, y)
  }

  /** A line inside the cell array. */
  predicate LineInRange(g: Grid, l: Line) {
    match l
    case Row(y) => 0 <= y < g.height - 1
    case Column(x) => 0 <= x < g.width - 1
  }

  predicate IsLineComplete(g: Grid, l: Line)
    requires g.width >= 1 && g.height >= 1
  {
    match l
    case Row(y) => IsRowComplete(g, y)
    case Column(x) => IsColumnComplete(g, x)
  }

  /** A line is blastable exactly when every one of its cells counts as complete. */
  lemma IsLineCompleteMeaning(g: Grid, l: Line)
    requires g.width >= 1 && g.height >= 1
    ensures IsLineComplete(g, l) <==> forall c :: c in CellsOfLine(g, l) ==> CountsAsComplete(g, c)
  {
    match l
    case Row(y) =>
      if !IsLineComplete(g, l) {
        var x :| 0 <= x < g.width - 1 && !CountsAsComplete(g, Pos(x, y));
        assert Pos(x, y) in CellsOfLine(g, l);
      }
    case Column(x) =>
      if !IsLineComplete(g, l) {
        var y :| 0 <= y < g.height - 1 && !CountsAsComplete(g, Pos(x, y));
        assert Pos(x, y) in CellsOfLine(g, l);
      }
  }

  /** Complete rows below n, ascending. */
  function CompleteRows(g: Grid, n: int): (r: seq<Line>)
    requires g.width >= 1
    ensures forall l :: l in r <==> l.Row? && 0 <= l.index < n && IsRowComplete(g, l.index)
    ensures forall i, j :: 0 <= i < j < |r| ==> r[i].index < r[j].index
    decreases n
  {
    if n <= 0 then []
    else if IsRowComplete(g, n - 1) then CompleteRows(g, n - 1) + [Row(n - 1)]
    else CompleteRows(g, n - 1)
  }

  /** Complete columns below n, ascending. */
  function CompleteColumns(g: Grid, n: int): (r: seq<Line>)
    requires g.height >= 1
    ensures forall l :: l in r <==> l.Column? && 0 <= l.index < n && IsColumnComplete(g, l.index)
    ensures forall i, j :: 0 <= i < j < |r| ==> r[i].index < r[j].index
    decreases n
  {
    if n <= 0 then []
    else if IsColumnComplete(g, n - 1) then CompleteColumns(g, n - 1) + [Column(n - 1)]
    else CompleteColumns(g, n - 1)
  }

  /**
   * `CollectAllBlastPositions`: every blastable row in ascending order, then every blastable
   * column in ascending order, each once.
   */
  function CollectAllBlastPositions(g: Grid): (r: seq<Line>)
    requires g.width >= 1 && g.height >= 1
    ensures forall l :: l in r <==> LineInRange(g, l) && IsLineComplete(g, l)
    ensures forall i, j :: 0 <= i < j < |r| ==> r[i] != r[j]
    ensures forall i, j :: 0 <= i < j < |r| && r[j].Row? ==> r[i].Row?
  {
    var rows, columns := CompleteRows(g, g.height - 1), CompleteColumns(g, g.width - 1);
    assert forall i :: 0 <= i < |rows| ==> rows[i] in rows;
    assert forall i :: 0 <= i < |columns| ==> columns[i] in columns;
    rows + columns
  }

  /** 2 to the n. */
  function Pow2(n: nat): nat {
    if n == 0 then 1 else 2 * Pow2(n - 1)
  }

  /**
   * `(int)(Pow(2, n) * 10)`: the points of a wave that blasts n lines. No line scores 10, and
   * every further line doubles the score.
   */
  function BlastPoints(n: nat): (r: int)
    ensures n == 0 ==> r == 10
    ensures n > 0 ==> r == 2 * BlastPoints(n - 1)
    ensures r >= 10
    decreases n
  {
    if n > 0 then assert BlastPoints(n - 1) >= 10; Pow2(n) * 10 else Pow2(n) * 10
  }

  /** `CollectCellsToReset` over every blasted line: the union of their cells. */
  function CellsToReset(g: Grid, lines: seq<Line>): (r: set<Pos>)
    ensures forall c :: c in r <==> exists l :: l in lines && c in CellsOfLine(g, l)
    decreases |lines|
  {
    if lines == [] then {}
    else CellsOfLine(g, lines[0]) + CellsToReset(g, lines[1..])
  }

  /** The occupied sides of the in-bounds cells of R, each once. */
  function ConnectionsToReset(g: Grid, R: set<Pos>): (r: set<EdgeRef>)
    ensures forall e :: e in r <==>
      Occupied(g, e) && exists c :: c in R && IsCellWithinBounds(g, c) && e in GetCellConnections(c)
  {
    var r := set c, i | c in R && IsCellWithinBounds(g, c) && 0 <= i < 4 && Occupied(g, GetCellConnections(c)[i])
                      :: GetCellConnections(c)[i];
    assert forall e :: e in r <==>
      Occupied(g, e) && exists c :: c in R && IsCellWithinBounds(g, c) && e in GetCellConnections(c) by {
      forall e ensures e in r <==>
        Occupied(g, e) && exists c :: c in R && IsCellWithinBounds(g, c) && e in GetCellConnections(c)
      {
        if c :| c in R && IsCellWithinBounds(g, c) && e in GetCellConnections(c) && Occupied(g, e) {
          var i :| 0 <= i < 4 && GetCellConnections(c)[i] == e;
        }
      }
    }
    r
  }

  /** `cell.SetComplete(false)` for every in-bounds cell of R; collectibles stay. */
  function ClearCells(g: Grid, R: set<Pos>): (r: Grid)
    ensures r == g.(cells := r.cells) && r.cells.Keys == g.cells.Keys
    ensures forall c | c in g.cells ::
      && r.cells[c].isComplete == (g.cells[c].isComplete && c !in R)
      && r.cells[c].hasCollectible == g.cells[c].hasCollectible
      && r.cells[c].collectibleType == g.cells[c].collectibleType
  {
    g.(cells := map c | c in g.cells :: if c in R then SetComplete(g.cells[c], false) else g.cells[c])
  }

  /** Every complete cell has all four sides occupied. */
  predicate CompleteImpliesFull(g: Grid) {
    forall c | c in g.cells :: g.cells[c].isComplete ==> IsCellFull(g, c)
  }

  /**
   * `CheckAndResetPartialCells`: a complete cell with some side unoccupied becomes incomplete.
   * Afterwards a cell is complete exactly when it was complete and is full, so every complete
   * cell is full; slots, dots and collectibles are untouched.
   */
  function CheckAndResetPartialCells(g: Grid): (r: Grid)
    ensures r == g.(cells := r.cells) && r.cells.Keys == g.cells.Keys
    ensures forall c | c in g.cells ::
      && r.cells[c].isComplete == (g.cells[c].isComplete && IsCellFull(g, c))
      && r.cells[c].hasCollectible == g.cells[c].hasCollectible
      && r.cells[c].collectibleType == g.cells[c].collectibleType
    ensures CompleteImpliesFull(r)
    ensures CompleteImpliesFull(g) ==> r == g
  {
    var r := g.(cells := map c | c in g.cells ::
                  if g.cells[c].isComplete && !IsCellFull(g, c) then SetComplete(g.cells[c], false)
                  else g.cells[c]);
    assert forall c :: IsCellFull(r, c) == IsCellFull(g, c);
    assert CompleteImpliesFull(g) ==> r.cells == g.cells;
    r
  }

  /**
   * One wave over the given lines: their cells cleared, their occupied sides reset with the dots
   * left bare cleared, then the downgrade pass.
   */
  function Wave(g: Grid, lines: seq<Line>): (r: Grid)
    ensures SameShape(g, r)
    ensures WellFormed(g) ==> WellFormed(r)
    ensures CompleteImpliesFull(r)
  {
    var R := CellsToReset(g, lines);
    var g1 := ClearCells(g, R);
    var g2 := ResetConnections(g1, ConnectionsToReset(g, R));
    var r := CheckAndResetPartialCells(g2);
    assert WellFormed(g) ==> WellFormed(r) by {
      if WellFormed(g) {
        CellsOnlyWellFormed(g, g1);
        CellsOnlyWellFormed(g2, r);
      }
    }
    r
  }

  /** Changing cell contents only keeps a grid well formed. */
  lemma CellsOnlyWellFormed(g: Grid, r: Grid)
    requires WellFormed(g) && r == g.(cells := r.cells) && r.cells.Keys == g.cells.Keys
    ensures WellFormed(r)
  {
    assert forall p :: p in r.cells <==> p in g.cells;
  }

  /** The occupied slots. */
  function OccupiedEdges(g: Grid): (r: set<EdgeRef>)
    ensures forall e :: e in r <==> Occupied(g, e)
  {
    (set p | p in g.horizontal && g.horizontal[p].isOccupied :: Horizontal(p))
    + (set p | p in g.vertical && g.vertical[p].isOccupied :: Vertical(p))
  }

  /** The cells flagged complete. */
  function CompleteCells(g: Grid): (r: set<Pos>)
    ensures forall c :: c in r <==> IsComplete(g, c)
  {
    set c | c in g.cells && g.cells[c].isComplete
  }

  /** The quantity every wave decreases: occupied slots plus complete cells. */
  function Progress(g: Grid): nat {
    |OccupiedEdges(g)| + |CompleteCells(g)|
  }

  /** The first cell of a line. */
  function FirstCell(l: Line): Pos {
    match l
    case Row(y) => Pos(0, y)
    case Column(x) => Pos(x, 0)
  }

  /** The slot is a side of some in-bounds cell of R. */
  predicate BordersAny(g: Grid, R: set<Pos>, e: EdgeRef) {
    exists c :: c in R && IsCellWithinBounds(g, c) && e in GetCellConnections(c)
  }

  /** A slot ends occupied exactly when it was occupied and borders no blasted cell. */
  lemma WaveEdges(g: Grid, lines: seq<Line>)
    ensures forall e :: Occupied(Wave(g, lines), e) <==>
      Occupied(g, e) && !BordersAny(g, CellsToReset(g, lines), e)
  {
    var R := CellsToReset(g, lines);
    var g1 := ClearCells(g, R);
    var E := ConnectionsToReset(g, R);
    var g2 := ResetConnections(g1, E);
    var r := Wave(g, lines);
    forall e ensures Occupied(r, e) <==> Occupied(g, e) && !BordersAny(g, R, e) {
      OccupiedFrame(g2, r, e);
      OccupiedFrame(g, g1, e);
      assert e in E <==> Occupied(g, e) && BordersAny(g, R, e);
    }
  }

  /** Cells of the blasted lines end incomplete with no side occupied. */
  lemma WaveClearsLines(g: Grid, lines: seq<Line>)
    requires WellFormed(g)
    ensures forall c | c in CellsToReset(g, lines) && c in g.cells ::
      !IsComplete(Wave(g, lines), c) && !IsCellFull(Wave(g, lines), c)
  {
    var R := CellsToReset(g, lines);
    var r := Wave(g, lines);
    WaveEdges(g, lines);
    forall c | c in R && c in g.cells
      ensures !IsComplete(r, c) && !IsCellFull(r, c)
    {
      var s := GetCellConnections(c);
      assert BordersAny(g, R, s[0]);
    }
  }

  /** Any other cell ends complete exactly when it was complete and is still full. */
  lemma WaveKeepsOtherCells(g: Grid, lines: seq<Line>)
    ensures forall c | c in g.cells && c !in CellsToReset(g, lines) ::
      IsComplete(Wave(g, lines), c) <==> IsComplete(g, c) && IsCellFull(Wave(g, lines), c)
  {
    var R := CellsToReset(g, lines);
    var g1 := ClearCells(g, R);
    var g2 := ResetConnections(g1, ConnectionsToReset(g, R));
    var r := Wave(g, lines);
    forall c | c in g.cells && c !in R
      ensures IsComplete(r, c) <==> IsComplete(g, c) && IsCellFull(r, c)
    {
      SlotsFrame(g2, r, c);
      assert IsComplete(g2, c) == IsComplete(g, c);
    }
  }

  /** Occupancy reads only the slots. */
  lemma OccupiedFrame(g: Grid, r: Grid, e: EdgeRef)
    requires r.horizontal == g.horizontal && r.vertical == g.vertical
    ensures Occupied(r, e) == Occupied(g, e)
  {
  }

  /** Fullness reads only the slots. */
  lemma SlotsFrame(g: Grid, r: Grid, c: Pos)
    requires r.horizontal == g.horizontal && r.vertical == g.vertical
    ensures IsCellFull(r, c) == IsCellFull(g, c)
  {
  }

  /** Collectibles and dot positions are untouched by a wave. */
  lemma WaveKeepsCollectibles(g: Grid, lines: seq<Line>)
    ensures forall c | c in g.cells ::
      Wave(g, lines).cells[c].hasCollectible == g.cells[c].hasCollectible
      && Wave(g, lines).cells[c].collectibleType == g.cells[c].collectibleType
    ensures forall p | p in g.dots :: Wave(g, lines).dots[p].gridPosition == g.dots[p].gridPosition
  {
  }

  /** A wave keeps every dot consistent with the slots touching it. */
  lemma WaveKeepsDotsConsistent(g: Grid, lines: seq<Line>)
    requires DotsConsistent(g)
    ensures DotsConsistent(Wave(g, lines))
  {
    var R := CellsToReset(g, lines);
    var E := ConnectionsToReset(g, R);
    var g1 := ClearCells(g, R);
    var g2 := ResetConnections(g1, E);
    var r := Wave(g, lines);
    assert DotsConsistent(g1) by {
      forall p | p in g1.dots ensures DotHasOccupiedConnections(g1, p) == DotHasOccupiedConnections(g, p) {
        DotsOnlyCellsFrame(g, g1, p);
      }
    }
    ResetConnectionsKeepsDotsConsistent(g1, E);
    forall p | p in r.dots ensures DotHasOccupiedConnections(r, p) == DotHasOccupiedConnections(g2, p) {
      DotsOnlyCellsFrame(g2, r, p);
    }
  }

  /** Cells do not take part in the dot test. */
  lemma DotsOnlyCellsFrame(g: Grid, r: Grid, p: Pos)
    requires r == g.(cells := r.cells, dots := r.dots)
    ensures DotHasOccupiedConnections(r, p) == DotHasOccupiedConnections(g, p)
  {
  }
  /** A wave never makes a cell count as complete that did not before. */
  lemma WaveMonotone(g: Grid, lines: seq<Line>, c: Pos)
    requires CountsAsComplete(Wave(g, lines), c)
    ensures CountsAsComplete(g, c)
  {
    var r := Wave(g, lines);
    WaveEdges(g, lines);
    if IsComplete(r, c) {
      WaveKeepsOtherCells(g, lines);
      if c in CellsToReset(g, lines) {
        WaveClearsCell(g, lines, c);
      }
    } else {
      var s := GetCellConnections(c);
      assert Occupied(g, s[0]) && Occupied(g, s[1]) && Occupied(g, s[2]) && Occupied(g, s[3]);
    }
  }

  /** A cell of a blasted line ends incomplete. */
  lemma WaveClearsCell(g: Grid, lines: seq<Line>, c: Pos)
    requires c in CellsToReset(g, lines)
    ensures !IsComplete(Wave(g, lines), c)
  {
    var R := CellsToReset(g, lines);
    var g1 := ClearCells(g, R);
    var g2 := ResetConnections(g1, ConnectionsToReset(g, R));
    assert !IsComplete(g2, c);
  }

  /** The slots and complete cells a wave leaves are among those it started with. */
  lemma WaveSubsets(g: Grid, lines: seq<Line>)
    ensures OccupiedEdges(Wave(g, lines)) <= OccupiedEdges(g)
    ensures CompleteCells(Wave(g, lines)) <= CompleteCells(g)
  {
    var r := Wave(g, lines);
    WaveEdges(g, lines);
    forall c | c in CompleteCells(r) ensures c in CompleteCells(g) {
      WaveMonotone(g, lines, c);
      WaveKeepsOtherCells(g, lines);
      if c in CellsToReset(g, lines) {
        WaveClearsCell(g, lines, c);
      }
    }
  }

  /**
   * A wave over a nonempty list of blastable in-range lines strictly lowers the progress measure:
   * the first cell of the first line either loses its completion flag or loses an occupied side.
   */
  lemma WaveShrinks(g: Grid, lines: seq<Line>)
    requires WellFormed(g) && g.width >= 2 && g.height >= 2
    requires lines != [] && LineInRange(g, lines[0]) && IsLineComplete(g, lines[0])
    ensures Progress(Wave(g, lines)) < Progress(g)
  {
    var r := Wave(g, lines);
    var R := CellsToReset(g, lines);
    var c := FirstCell(lines[0]);
    assert c in CellsOfLine(g, lines[0]);
    assert c in R;
    IsLineCompleteMeaning(g, lines[0]);
    WaveSubsets(g, lines);
    WaveClearsLines(g, lines);
    SubsetCardinality(OccupiedEdges(r), OccupiedEdges(g));
    SubsetCardinality(CompleteCells(r), CompleteCells(g));
    if IsComplete(g, c) {
      assert c !in CompleteCells(r);
    } else {
      var s := GetCellConnections(c);
      assert Occupied(g, s[0]);
      WaveEdges(g, lines);
      assert BordersAny(g, R, s[0]);
      assert s[0] !in OccupiedEdges(r);
    }
  }

  /** A sequence with no members is empty. */
  lemma NoMemberEmpty<T>(s: seq<T>)
    requires forall x :: x !in s
    ensures s == []
  {
    if s != [] {
      HeadIsMember(s);
      assert false;
    }
  }

  lemma HeadIsMember<T>(s: seq<T>)
    requires s != []
    ensures s[0] in s
  {
  }

  /** The cells of a line depend only on the dimensions. */
  lemma CellsOfLineShape(g: Grid, r: Grid, l: Line)
    requires r.width == g.width && r.height == g.height
    ensures CellsOfLine(r, l) == CellsOfLine(g, l)
  {
  }

  /**
   * After one wave over every blastable line, no line is blastable: a blasted line's first cell is
   * cleared and bare, and a line that was not blastable keeps a cell that does not count.
   */
  lemma NoLinesAfterWave(g: Grid)
    requires WellFormed(g) && g.width >= 2 && g.height >= 2
    ensures CollectAllBlastPositions(Wave(g, CollectAllBlastPositions(g))) == []
  {
    var lines := CollectAllBlastPositions(g);
    var r := Wave(g, lines);
    forall l | LineInRange(r, l) ensures !IsLineComplete(r, l) {
      NoLineAfterWave(g, l);
    }
    NoMemberEmpty(CollectAllBlastPositions(r));
  }

  /** One line after the wave over every blastable line is not blastable. */
  lemma NoLineAfterWave(g: Grid, l: Line)
    requires WellFormed(g) && g.width >= 2 && g.height >= 2
    requires LineInRange(g, l)
    ensures !IsLineComplete(Wave(g, CollectAllBlastPositions(g)), l)
  {
    var lines := CollectAllBlastPositions(g);
    var r := Wave(g, lines);
    CellsOfLineShape(g, r, l);
    IsLineCompleteMeaning(r, l);
    if l in lines {
      var c := FirstCell(l);
      assert c in CellsOfLine(g, l);
      assert c in CellsToReset(g, lines);
      WaveClearsLines(g, lines);
    } else {
      IsLineCompleteMeaning(g, l);
      var c :| c in CellsOfLine(g, l) && !CountsAsComplete(g, c);
      if CountsAsComplete(r, c) {
        WaveMonotone(g, lines, c);
      }
    }
  }
  /** What a blast run leaves: the grid, the combo counter and the sounds and points emitted. */
  datatype BlastResult = BlastResult(grid: Grid, comboCount: int, events: seq<Event>)

  /** The two events a wave of n lines emits: n delayed blast sounds, then 2^n * 10 points. */
  function WaveEvents(n: nat): (r: seq<Event>)
    ensures |r| == 2 && r[0] == SoundPlayedRepeatedly("blast", n) && r[1].PointsAdded?
    ensures r[1].points == BlastPoints(n)
    ensures ScoreCount(r) == 1
  {
    var r := [SoundPlayedRepeatedly("blast", n), PointsAdded(BlastPoints(n))];
    assert r[1..][1..] == [];
    r
  }

  /**
   * `ProcessBlasts`: with no blastable line nothing happens; otherwise the combo goes up by one,
   * the wave's events are emitted, the wave runs, and the whole step repeats while a line is
   * blastable. It ends with no blastable line and, after a wave, with every complete cell full.
   */
  function ProcessBlasts(g: Grid, combo: int): (r: BlastResult)
    requires WellFormed(g) && g.width >= 2 && g.height >= 2
    ensures SameShape(g, r.grid) && WellFormed(r.grid)
    ensures CollectAllBlastPositions(r.grid) == []
    ensures CollectAllBlastPositions(g) == [] ==> r == BlastResult(g, combo, [])
    ensures CollectAllBlastPositions(g) != [] ==>
      && r.comboCount > combo
      && CompleteImpliesFull(r.grid)
      && |r.events| >= 2
      && r.events[0] == SoundPlayedRepeatedly("blast", |CollectAllBlastPositions(g)|)
      && r.events[1] == PointsAdded(BlastPoints(|CollectAllBlastPositions(g)|))
    ensures r.comboCount == combo + ScoreCount(r.events)
    decreases Progress(g)
  {
    var lines := CollectAllBlastPositions(g);
    if lines == [] then BlastResult(g, combo, [])
    else
      var next := Wave(g, lines);
      if CollectAllBlastPositions(next) == [] then
        BlastResult(next, combo + 1, WaveEvents(|lines|))
      else
        assert lines[0] in lines;
        WaveShrinks(g, lines);
        var rest := ProcessBlasts(next, combo + 1);
        ScoreCountAppend(WaveEvents(|lines|), rest.events);
        BlastResult(rest.grid, rest.comboCount, WaveEvents(|lines|) + rest.events)
  }

  /**
   * The chain-reaction re-check never fires: a run with blastable lines is exactly one wave, one
   * combo step and one pair of events.
   */
  lemma ProcessBlastsIsOneWave(g: Grid, combo: int)
    requires WellFormed(g) && g.width >= 2 && g.height >= 2
    requires CollectAllBlastPositions(g) != []
    ensures ProcessBlasts(g, combo) == BlastResult(
      Wave(g, CollectAllBlastPositions(g)), combo + 1, WaveEvents(|CollectAllBlastPositions(g)|))
  {
    NoLinesAfterWave(g);
  }

  /** What `CheckForBlast` leaves: the manager state, the grid and the events emitted. */
  datatype CheckResult = CheckResult(state: BlastState, grid: Grid, events: seq<Event>)

  /**
   * `CheckForBlast`: ignored while a run is in progress; otherwise one `ProcessBlasts` run, with
   * the re-entrancy flag cleared again on exit.
   */
  function CheckForBlast(s: BlastState, g: Grid): (r: CheckResult)
    requires WellFormed(g) && g.width >= 2 && g.height >= 2
    ensures SameShape(g, r.grid) && WellFormed(r.grid)
    ensures s.isBlasting ==> r == CheckResult(s, g, [])
    ensures !s.isBlasting ==> !r.state.isBlasting && CollectAllBlastPositions(r.grid) == []
    ensures CollectAllBlastPositions(g) == [] ==>
      r.grid == g && r.state.comboCount == s.comboCount && r.events == []
    ensures !s.isBlasting ==> r.state.comboCount >= s.comboCount
    ensures r.state.comboCount == s.comboCount ==> r.grid == g && r.events == []
    ensures r.state.comboCount == s.comboCount + ScoreCount(r.events)
  {
    if s.isBlasting then CheckResult(s, g, [])
    else
      var run := ProcessBlasts(g, s.comboCount);
      CheckResult(BlastState(false, run.comboCount), run.grid, run.events)
  }

  /** A `CheckForBlast` that finds blastable lines runs exactly one wave and one combo step. */
  lemma CheckForBlastIsOneWave(s: BlastState, g: Grid)
    requires WellFormed(g) && g.width >= 2 && g.height >= 2
    requires !s.isBlasting && CollectAllBlastPositions(g) != []
    ensures CheckForBlast(s, g).state == BlastState(false, s.comboCount + 1)
    ensures CheckForBlast(s, g).grid == Wave(g, CollectAllBlastPositions(g))
    ensures CheckForBlast(s, g).events == WaveEvents(|CollectAllBlastPositions(g)|)
  {
    ProcessBlastsIsOneWave(g, s.comboCount);
  }
}
