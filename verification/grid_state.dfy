/**
 * The grid aggregate: a Width x Height dot lattice, the two connection arrays and the
 * (Width-1) x (Height-1) cell array, each array modelled as a map from its index to its slot.
 *
 * The source's array names are kept although they read backwards:
 * `HorizontalConnections[x, y]` joins dot (x, y) to dot (x, y+1) and
 * `VerticalConnections[x, y]` joins dot (x, y) to dot (x+1, y).
 */
module GridState {
  import opened Geometry
  import opened Dots
  import opened Connections
  import opened Cells

  datatype Grid = Grid(
    width: int,
    height: int,
    dots: map<Pos, Dot>,
    horizontal: map<Pos, Connection>,
    vertical: map<Pos, Connection>,
    cells: map<Pos, Cell>)

  /** Which connection array a slot lives in, and at which index. */
  datatype EdgeRef = Horizontal(at: Pos) | Vertical(at: Pos)

  predicate IsWithinBounds(g: Grid, pos: Pos) {
    0 <= pos.x < g.width && 0 <= pos.y < g.height
  }

  predicate IsCellWithinBounds(g: Grid, pos: Pos) {
    0 <= pos.x < g.width - 1 && 0 <= pos.y < g.height - 1
  }

  /** Index range of `HorizontalConnections`: Width x (Height-1). */
  predicate InHorizontalRange(g: Grid, pos: Pos) {
    0 <= pos.x < g.width && 0 <= pos.y < g.height - 1
  }

  /** Index range of `VerticalConnections`: (Width-1) x Height. */
  predicate InVerticalRange(g: Grid, pos: Pos) {
    0 <= pos.x < g.width - 1 && 0 <= pos.y < g.height
  }

  /** The dot an edge slot starts at (its own index). */
  function StartOf(e: EdgeRef): Pos {
    e.at
  }

  /** The dot an edge slot ends at. */
  function EndOf(e: EdgeRef): Pos {
    match e
    case Horizontal(p) => Pos(p.x, p.y + 1)
    case Vertical(p) => Pos(p.x + 1, p.y)
  }

  predicate IsEndpoint(p: Pos, e: EdgeRef) {
    StartOf(e) == p || EndOf(e) == p
  }

  predicate HasConnection(g: Grid, e: EdgeRef) {
    match e
    case Horizontal(p) => p in g.horizontal
    case Vertical(p) => p in g.vertical
  }

  function ConnectionAt(g: Grid, e: EdgeRef): Connection
    requires HasConnection(g, e)
  {
    match e
    case Horizontal(p) => g.horizontal[p]
    case Vertical(p) => g.vertical[p]
  }

  /** `conn != null && conn.IsOccupied`: a missing slot reads as unoccupied. */
  predicate Occupied(g: Grid, e: EdgeRef) {
    HasConnection(g, e) && ConnectionAt(g, e).isOccupied
  }

  /** Replaces the connection in one slot. */
  function WithConnection(g: Grid, e: EdgeRef, c: Connection): Grid
    requires HasConnection(g, e)
  {
    match e
    case Horizontal(p) => g.(horizontal := g.horizontal[p := c])
    case Vertical(p) => g.(vertical := g.vertical[p := c])
  }

  predicate IsComplete(g: Grid, c: Pos) {
    c in g.cells && g.cells[c].isComplete
  }

  /**
   * The shape every grid has once initialized: array domains as declared, every slot filled,
   * each dot knowing its own position and each connection knowing its two endpoints.
   */
  ghost predicate WellFormed(g: Grid) {
    && g.width >= 1 && g.height >= 1
    && (forall p :: p in g.dots <==> IsWithinBounds(g, p))
    && (forall p :: p in g.horizontal <==> InHorizontalRange(g, p))
    && (forall p :: p in g.vertical <==> InVerticalRange(g, p))
    && (forall p :: p in g.cells <==> IsCellWithinBounds(g, p))
    && (forall p | p in g.dots :: g.dots[p].gridPosition == p)
    && (forall p | p in g.horizontal ::
          g.horizontal[p].startDot == p && g.horizontal[p].endDot == Pos(p.x, p.y + 1))
    && (forall p | p in g.vertical ::
          g.vertical[p].startDot == p && g.vertical[p].endDot == Pos(p.x + 1, p.y))
  }

  /** Two grids with the same dimensions and the same array domains. */
  predicate SameShape(g: Grid, r: Grid) {
    && r.width == g.width && r.height == g.height
    && r.dots.Keys == g.dots.Keys
    && r.horizontal.Keys == g.horizontal.Keys
    && r.vertical.Keys == g.vertical.Keys
    && r.cells.Keys == g.cells.Keys
  }

  /** The four corners of an in-bounds cell are in-bounds dots. */
  lemma CellCornersInBounds(g: Grid, c: Pos)
    requires IsCellWithinBounds(g, c)
    ensures IsWithinBounds(g, c)
    ensures IsWithinBounds(g, Pos(c.x + 1, c.y))
    ensures IsWithinBounds(g, Pos(c.x, c.y + 1))
    ensures IsWithinBounds(g, Pos(c.x + 1, c.y + 1))
  {
  }

  /** A stored connection's endpoints are exactly the slot's two dots, and both exist. */
  lemma ConnectionEndpoints(g: Grid, e: EdgeRef)
    requires WellFormed(g) && HasConnection(g, e)
    ensures ConnectionAt(g, e).startDot == StartOf(e) && ConnectionAt(g, e).endDot == EndOf(e)
    ensures StartOf(e) in g.dots && EndOf(e) in g.dots
    ensures UnitAdjacent(StartOf(e), EndOf(e))
  {
  }

  /** Replacing one connection by another with the same endpoints keeps the grid well formed. */
  lemma WithConnectionWellFormed(g: Grid, e: EdgeRef, c: Connection)
    requires WellFormed(g) && HasConnection(g, e)
    requires c.startDot == StartOf(e) && c.endDot == EndOf(e)
    ensures WellFormed(WithConnection(g, e, c)) && SameShape(g, WithConnection(g, e, c))
  {
  }
}
