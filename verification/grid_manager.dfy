/**
 * The grid's public face: it accepts a stick only while the game is in progress and otherwise
 * forwards to the placement manager and the validator, which share one grid and one blast state.
 */
module GridManager {
  import opened Geometry
  import opened Events
  import opened GridState
  import opened BlastManager
  import opened CellManager
  import opened Sticks
  import opened GameManager
  import opened GridInitializer
  import opened ConnectionManager
  import GridValidator
  import PlacementManager

  /**
   * `CanPlaceStick`: the validator's test at this position, with the centre offset computed from
   * the stick's segments in the same way the placement manager computes it.
   */
  predicate CanPlaceStick(g: Grid, position: Pos, stick: StickData)
    requires |stick.segments| > 0
  {
    GridValidator.CanPlaceStick(g, position, stick.segments, GridValidator.CenterOffset(stick.segments))
  }

  /**
   * `PlaceStick`: nothing happens, and nothing is played, unless the game is in progress; while
   * it is, the stick is placed exactly when `CanPlaceStick` accepts it at this position.
   */
  function PlaceStick(game: GameState, s: BlastState, g: Grid, position: Pos, stick: StickData)
    : (r: PlacementManager.PlaceResult)
    requires WellFormed(g) && g.width >= 2 && g.height >= 2 && |stick.segments| > 0
    ensures !IsPlaying(game) ==> r == PlacementManager.PlaceResult(false, s, g, [])
    ensures r.placed <==> IsPlaying(game) && CanPlaceStick(g, position, stick)
    ensures SameShape(g, r.grid) && WellFormed(r.grid)
  {
    if !IsPlaying(game) then PlacementManager.PlaceResult(false, s, g, [])
    else PlacementManager.PlaceStick(s, g, position, stick.segments)
  }

  /** A move accepted while playing keeps a settled grid settled; a refused one changes nothing. */
  lemma PlaceStickKeepsSettled(game: GameState, s: BlastState, g: Grid, position: Pos, stick: StickData)
    requires WellFormed(g) && g.width >= 2 && g.height >= 2 && |stick.segments| > 0
    requires !s.isBlasting && Settled(g)
    ensures Settled(PlaceStick(game, s, g, position, stick).grid)
  {
    if IsPlaying(game) {
      PlacementManager.PlaceStickSettles(s, g, position, stick.segments);
    }
  }

  /** `IsValidGridPosition`: the state's dot bounds test. */
  predicate IsValidGridPosition(g: Grid, pos: Pos) {
    IsWithinBounds(g, pos)
  }

  /** A valid grid position is exactly a position of a dot. */
  lemma IsValidGridPositionMeaning(g: Grid, pos: Pos)
    requires WellFormed(g)
    ensures IsValidGridPosition(g, pos) <==> pos in g.dots
    ensures IsValidGridPosition(g, pos) <==> 0 <= pos.x < g.width && 0 <= pos.y < g.height
  {
  }
  /** A grid with nothing occupied and nothing complete, as the initializer builds it. */
  ghost predicate Empty(g: Grid) {
    && (forall f :: !Occupied(g, f))
    && (forall c :: !IsComplete(g, c))
    && (forall p | p in g.dots :: !g.dots[p].isOccupied)
  }

  /** The initializer's grid is empty. */
  lemma InitializeGridEmpty(width: int, height: int)
    requires width >= 1 && height >= 1
    ensures Empty(InitializeGrid(width, height))
  {
    var g := InitializeGrid(width, height);
    forall f ensures !Occupied(g, f) {
      if HasConnection(g, f) {
        match f
        case Horizontal(p) => assert p in g.horizontal;
        case Vertical(p) => assert p in g.vertical;
      }
    }
  }

  /** On an empty grid no cell is full. */
  lemma EmptyNoneFull(g: Grid, c: Pos)
    requires Empty(g)
    ensures !IsCellFull(g, c)
  {
    assert !Occupied(g, GetCellConnections(c)[0]);
  }

  /** On an empty grid of at least one cell every line has an incomplete cell: its first one. */
  lemma EmptyLineOpen(g: Grid, l: Line)
    requires g.width >= 2 && g.height >= 2 && Empty(g) && LineInRange(g, l)
    ensures exists c :: c in CellsOfLine(g, l) && !IsComplete(g, c)
  {
    var c := match l case Row(y) => Pos(0, y) case Column(x) => Pos(x, 0);
    assert c in CellsOfLine(g, l);
  }

  /** On an empty grid no dot has an occupied connection, and none is occupied. */
  lemma EmptyDotsConsistent(g: Grid)
    requires Empty(g)
    ensures DotsConsistent(g)
  {
    forall p | p in g.dots ensures !DotHasOccupiedConnections(g, p) {
      assert !Occupied(g, Vertical(Pos(p.x - 1, p.y))) && !Occupied(g, Vertical(p));
      assert !Occupied(g, Horizontal(Pos(p.x, p.y - 1))) && !Occupied(g, Horizontal(p));
    }
  }

  /** An empty grid of at least one cell is settled. */
  lemma EmptySettled(g: Grid)
    requires g.width >= 2 && g.height >= 2 && Empty(g)
    ensures Settled(g)
  {
    assert CompleteImpliesFull(g) by {
      forall c | c in g.cells ensures !g.cells[c].isComplete {
        assert !IsComplete(g, c);
      }
    }
    forall c | IsCellWithinBounds(g, c) ensures !IsCellFull(g, c) {
      EmptyNoneFull(g, c);
    }
    forall l | LineInRange(g, l) ensures exists c :: c in CellsOfLine(g, l) && !IsComplete(g, c) {
      EmptyLineOpen(g, l);
    }
    EmptyDotsConsistent(g);
  }

  /** A new grid of at least one cell starts settled, so every later move keeps it settled. */
  lemma InitializeGridSettled(width: int, height: int)
    requires width >= 2 && height >= 2
    ensures Settled(InitializeGrid(width, height))
  {
    InitializeGridEmpty(width, height);
    EmptySettled(InitializeGrid(width, height));
  }
}
