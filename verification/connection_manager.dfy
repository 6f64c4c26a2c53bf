/**
 * The connection index: which slot joins two dots, which four slots bound a cell, which slots
 * meet at a dot, and resetting connections together with the dots they leave bare.
 */
module ConnectionManager {
  import opened Wrappers
  import opened Geometry
  import opened Dots
  import opened Connections
  import opened Cells
  import opened GridState

  /**
   * The slot between two dots, indexed by the smaller coordinate. A same-column pair reads
   * `HorizontalConnections[x, min y]`, any other pair `VerticalConnections[min x, start.y]`;
   * an index outside the array (an exception in the source) gives None.
   */
  function GetConnection(g: Grid, start: Pos, end: Pos): (r: Option<EdgeRef>)
    ensures r.Some? ==> HasConnection(g, r.value)
    ensures WellFormed(g) && IsWithinBounds(g, start) && IsWithinBounds(g, end)
            && UnitAdjacent(start, end) ==>
              && r.Some?
              && ((StartOf(r.value) == start && EndOf(r.value) == end)
                  || (StartOf(r.value) == end && EndOf(r.value) == start))
  {
    if start.x == end.x then
      var slot := Pos(start.x, Min(start.y, end.y));
      if slot in g.horizontal then Some(Horizontal(slot)) else None
    else
      var slot := Pos(Min(start.x, end.x), start.y);
      if slot in g.vertical then Some(Vertical(slot)) else None
  }

  /** Swapping the two dots of an axis-aligned pair finds the same slot. */
  lemma GetConnectionSymmetric(g: Grid, a: Pos, b: Pos)
    requires a.x == b.x || a.y == b.y
    ensures GetConnection(g, a, b) == GetConnection(g, b, a)
  {
  }

  /** A slot is found for its own two endpoints, in either order. */
  lemma GetConnectionOfEndpoints(g: Grid, e: EdgeRef)
    requires HasConnection(g, e)
    ensures GetConnection(g, StartOf(e), EndOf(e)) == Some(e)
    ensures GetConnection(g, EndOf(e), StartOf(e)) == Some(e)
  {
  }

  /**
   * The four sides of cell c, in the source's order: the bottom (c)-(c+(1,0)), the right
   * (c+(1,0))-(c+(1,1)), the top (c+(0,1))-(c+(1,1)) and the left (c)-(c+(0,1)).
   */
  function GetCellConnections(c: Pos): (r: seq<EdgeRef>)
    ensures |r| == 4
    ensures StartOf(r[0]) == c && EndOf(r[0]) == Pos(c.x + 1, c.y)
    ensures StartOf(r[1]) == Pos(c.x + 1, c.y) && EndOf(r[1]) == Pos(c.x + 1, c.y + 1)
    ensures StartOf(r[2]) == Pos(c.x, c.y + 1) && EndOf(r[2]) == Pos(c.x + 1, c.y + 1)
    ensures StartOf(r[3]) == c && EndOf(r[3]) == Pos(c.x, c.y + 1)
    ensures forall i, j :: 0 <= i < j < 4 ==> r[i] != r[j]
  {
    [Vertical(c), Horizontal(Pos(c.x + 1, c.y)), Vertical(Pos(c.x, c.y + 1)), Horizontal(c)]
  }

  /** Every side of an in-bounds cell is a filled slot. */
  lemma CellSidesExist(g: Grid, c: Pos)
    requires WellFormed(g) && IsCellWithinBounds(g, c)
    ensures forall i :: 0 <= i < 4 ==> HasConnection(g, GetCellConnections(c)[i])
  {
  }

  /** `connections.All(conn => conn != null && conn.IsOccupied)` over a cell's four sides. */
  predicate IsCellFull(g: Grid, c: Pos) {
    var s := GetCellConnections(c);
    Occupied(g, s[0]) && Occupied(g, s[1]) && Occupied(g, s[2]) && Occupied(g, s[3])
  }

  /**
   * The two cells straddling the segment start-end: left and right of a same-column segment,
   * below and above any other. In the source this is a helper of the placement manager.
   */
  function GetAdjacentCellPositions(start: Pos, end: Pos): (r: seq<Pos>)
    ensures |r| == 2
    ensures start.x == end.x ==> r[0].x == start.x - 1 && r[1].x == start.x
                                  && r[0].y == r[1].y == Min(start.y, end.y)
    ensures start.x != end.x ==> r[0].y == start.y - 1 && r[1].y == start.y
                                  && r[0].x == r[1].x == Min(start.x, end.x)
  {
    if start.x == end.x then
      var x := start.x - 1;
      var y := Min(start.y, end.y);
      [Pos(x, y), Pos(x + 1, y)]
    else
      var x := Min(start.x, end.x);
      var y := start.y - 1;
      [Pos(x, y), Pos(x, y + 1)]
  }

  /** The cells beside a slot are exactly the cells that list the slot among their sides. */
  lemma SideIffAdjacent(e: EdgeRef, c: Pos)
    ensures e in GetCellConnections(c) <==> c in GetAdjacentCellPositions(StartOf(e), EndOf(e))
  {
    var s := GetCellConnections(c);
    if c in GetAdjacentCellPositions(StartOf(e), EndOf(e)) {
      match e
      case Horizontal(p) =>
        if c == p { assert s[3] == e; } else { assert s[1] == e; }
      case Vertical(p) =>
        if c == p { assert s[0] == e; } else { assert s[2] == e; }
    }
  }

  /** The up to four slots meeting at a dot: left, right, below and above it. */
  function IncidentEdges(p: Pos): (r: seq<EdgeRef>)
    ensures |r| == 4
    ensures forall e :: e in r <==> IsEndpoint(p, e)
  {
    [Vertical(Pos(p.x - 1, p.y)), Vertical(p), Horizontal(Pos(p.x, p.y - 1)), Horizontal(p)]
  }

  /**
   * Whether some slot touching the dot is occupied, checking only slots that exist at the border.
   * The four guarded reads are those of the source; a missing slot reads as unoccupied.
   */
  predicate DotHasOccupiedConnections(g: Grid, pos: Pos) {
    || (pos.x > 0 && Occupied(g, Vertical(Pos(pos.x - 1, pos.y))))
    || (pos.x < g.width - 1 && Occupied(g, Vertical(pos)))
    || (pos.y > 0 && Occupied(g, Horizontal(Pos(pos.x, pos.y - 1))))
    || (pos.y < g.height - 1 && Occupied(g, Horizontal(pos)))
  }

  /**
   * For an in-bounds dot every guarded read is inside its array, and the answer is exactly
   * whether some occupied connection has the dot as an endpoint.
   */
  lemma DotHasOccupiedConnectionsMeaning(g: Grid, pos: Pos)
    requires WellFormed(g) && IsWithinBounds(g, pos)
    ensures pos.x > 0 ==> HasConnection(g, Vertical(Pos(pos.x - 1, pos.y)))
    ensures pos.x < g.width - 1 ==> HasConnection(g, Vertical(pos))
    ensures pos.y > 0 ==> HasConnection(g, Horizontal(Pos(pos.x, pos.y - 1)))
    ensures pos.y < g.height - 1 ==> HasConnection(g, Horizontal(pos))
    ensures DotHasOccupiedConnections(g, pos) <==> exists e :: Occupied(g, e) && IsEndpoint(pos, e)
  {
    var s := IncidentEdges(pos);
    if DotHasOccupiedConnections(g, pos) {
      if pos.x > 0 && Occupied(g, s[0]) {
        assert IsEndpoint(pos, s[0]);
      } else if pos.x < g.width - 1 && Occupied(g, s[1]) {
        assert IsEndpoint(pos, s[1]);
      } else if pos.y > 0 && Occupied(g, s[2]) {
        assert IsEndpoint(pos, s[2]);
      } else {
        assert IsEndpoint(pos, s[3]);
      }
    }
    if e :| Occupied(g, e) && IsEndpoint(pos, e) {
      assert e in s;
      OccupiedSlotGuard(g, pos, e);
    }
  }

  /** An occupied slot at an in-bounds dot passes the source's border guard for that slot. */
  lemma OccupiedSlotGuard(g: Grid, pos: Pos, e: EdgeRef)
    requires WellFormed(g) && IsWithinBounds(g, pos)
    requires Occupied(g, e) && e in IncidentEdges(pos)
    ensures DotHasOccupiedConnections(g, pos)
  {
    var s := IncidentEdges(pos);
    if e == s[0] {
      assert Pos(pos.x - 1, pos.y) in g.vertical;
    } else if e == s[1] {
      assert pos in g.vertical;
    } else if e == s[2] {
      assert Pos(pos.x, pos.y - 1) in g.horizontal;
    } else {
      assert pos in g.horizontal;
    }
  }

  /** The answer depends only on the occupancy of the slots at the dot. */
  lemma DotHasOccupiedFrame(g1: Grid, g2: Grid, pos: Pos)
    requires g1.width == g2.width && g1.height == g2.height
    requires forall e | e in IncidentEdges(pos) :: Occupied(g1, e) == Occupied(g2, e)
    ensures DotHasOccupiedConnections(g1, pos) == DotHasOccupiedConnections(g2, pos)
  {
    var s := IncidentEdges(pos);
    assert Occupied(g1, s[0]) == Occupied(g2, s[0]);
    assert Occupied(g1, s[1]) == Occupied(g2, s[1]);
    assert Occupied(g1, s[2]) == Occupied(g2, s[2]);
    assert Occupied(g1, s[3]) == Occupied(g2, s[3]);
  }

  /** Fewer occupied slots never make a bare dot covered. */
  lemma DotHasOccupiedMonotone(g1: Grid, g2: Grid, pos: Pos)
    requires g1.width == g2.width && g1.height == g2.height
    requires forall e | e in IncidentEdges(pos) :: Occupied(g1, e) ==> Occupied(g2, e)
    ensures DotHasOccupiedConnections(g1, pos) ==> DotHasOccupiedConnections(g2, pos)
  {
    var s := IncidentEdges(pos);
    assert Occupied(g1, s[0]) ==> Occupied(g2, s[0]);
    assert Occupied(g1, s[1]) ==> Occupied(g2, s[1]);
    assert Occupied(g1, s[2]) ==> Occupied(g2, s[2]);
    assert Occupied(g1, s[3]) ==> Occupied(g2, s[3]);
  }

  /** `CheckAndResetDot`: the dot at pos becomes unoccupied when no slot touching it is occupied. */
  function CheckAndResetDot(g: Grid, pos: Pos): (r: Grid)
    ensures r == g.(dots := r.dots) && r.dots.Keys == g.dots.Keys
    ensures forall p | p in g.dots && p != pos :: r.dots[p] == g.dots[p]
    ensures pos in g.dots ==>
      r.dots[pos].gridPosition == g.dots[pos].gridPosition
      && r.dots[pos].isOccupied == (g.dots[pos].isOccupied && DotHasOccupiedConnections(g, pos))
  {
    if pos in g.dots && !DotHasOccupiedConnections(g, pos) then
      g.(dots := g.dots[pos := SetOccupied(g.dots[pos], false)])
    else
      g
  }

  /** `conn.Reset()` followed by the check of both of its endpoint dots. */
  function ResetOne(g: Grid, e: EdgeRef): (r: Grid)
    requires HasConnection(g, e)
  {
    var c := ConnectionAt(g, e);
    var g1 := WithConnection(g, e, Connections.Reset(c));
    CheckAndResetDot(CheckAndResetDot(g1, c.startDot), c.endDot)
  }

  /** Resetting the given slots one after another, skipping missing ones (`conn != null`). */
  function ResetConnectionsInOrder(g: Grid, es: seq<EdgeRef>): Grid
    decreases |es|
  {
    if es == [] then g
    else
      var g1 := if HasConnection(g, es[0]) then ResetOne(g, es[0]) else g;
      ResetConnectionsInOrder(g1, es[1..])
  }

  /** Some slot of E has the dot as an endpoint. */
  predicate TouchedBy(p: Pos, E: set<EdgeRef>) {
    exists e :: e in E && IsEndpoint(p, e)
  }

  /** Every slot of E unoccupied at once; dots untouched. */
  function ResetEdges(g: Grid, E: set<EdgeRef>): (r: Grid)
    ensures r == g.(horizontal := r.horizontal, vertical := r.vertical)
    ensures r.horizontal.Keys == g.horizontal.Keys && r.vertical.Keys == g.vertical.Keys
    ensures forall e :: HasConnection(r, e) <==> HasConnection(g, e)
    ensures forall e :: Occupied(r, e) <==> Occupied(g, e) && e !in E
    ensures forall e | HasConnection(g, e) ::
      ConnectionAt(r, e).startDot == ConnectionAt(g, e).startDot
      && ConnectionAt(r, e).endDot == ConnectionAt(g, e).endDot
    ensures forall p | p in g.horizontal ::
      r.horizontal[p] == if Horizontal(p) in E then Connections.Reset(g.horizontal[p]) else g.horizontal[p]
    ensures forall p | p in g.vertical ::
      r.vertical[p] == if Vertical(p) in E then Connections.Reset(g.vertical[p]) else g.vertical[p]
  {
    g.(horizontal := map p | p in g.horizontal ::
                       if Horizontal(p) in E then Connections.Reset(g.horizontal[p]) else g.horizontal[p],
       vertical := map p | p in g.vertical ::
                       if Vertical(p) in E then Connections.Reset(g.vertical[p]) else g.vertical[p])
  }

  /** Resetting slots keeps their endpoints, so the grid stays well formed. */
  lemma ResetEdgesWellFormed(g: Grid, E: set<EdgeRef>)
    requires WellFormed(g)
    ensures WellFormed(ResetEdges(g, E))
  {
  }

  /** Every dot touched by E and no longer touching an occupied slot becomes unoccupied. */
  function ClearBareDots(g: Grid, E: set<EdgeRef>): (r: Grid)
    ensures r == g.(dots := r.dots) && r.dots.Keys == g.dots.Keys
    ensures forall p | p in g.dots :: r.dots[p].gridPosition == g.dots[p].gridPosition
    ensures forall p | p in g.dots ::
      r.dots[p].isOccupied ==
        (if TouchedBy(p, E) && !DotHasOccupiedConnections(g, p) then false else g.dots[p].isOccupied)
  {
    g.(dots := map p | p in g.dots ::
                 if TouchedBy(p, E) && !DotHasOccupiedConnections(g, p) then SetOccupied(g.dots[p], false)
                 else g.dots[p])
  }

  /** Clearing dots keeps every dot at its own position, so the grid stays well formed. */
  lemma ClearBareDotsWellFormed(g: Grid, E: set<EdgeRef>)
    requires WellFormed(g)
    ensures WellFormed(ClearBareDots(g, E))
  {
    var r := ClearBareDots(g, E);
    assert forall p :: p in r.dots <==> IsWithinBounds(r, p);
    assert forall p | p in r.dots :: r.dots[p].gridPosition == p;
  }

  /** Only the dots differ, so the slots at every dot read the same. */
  lemma DotsOnlyFrame(g: Grid, r: Grid, p: Pos)
    requires r == g.(dots := r.dots)
    ensures DotHasOccupiedConnections(r, p) == DotHasOccupiedConnections(g, p)
  {
  }

  /**
   * The combined effect of resetting every connection of E, whatever the order: exactly the slots
   * of E lose their occupancy, and a dot ends unoccupied when it is an endpoint of some slot of E
   * and no slot touching it stays occupied; every other dot and every cell are untouched.
   */
  function ResetConnections(g: Grid, E: set<EdgeRef>): (r: Grid)
    ensures SameShape(g, r) && r.cells == g.cells
    ensures WellFormed(g) ==> WellFormed(r)
    ensures r.horizontal == ResetEdges(g, E).horizontal && r.vertical == ResetEdges(g, E).vertical
    ensures forall e :: HasConnection(r, e) <==> HasConnection(g, e)
    ensures forall e :: Occupied(r, e) <==> Occupied(g, e) && e !in E
    ensures forall e | HasConnection(g, e) ::
      ConnectionAt(r, e).startDot == ConnectionAt(g, e).startDot
      && ConnectionAt(r, e).endDot == ConnectionAt(g, e).endDot
    ensures forall p | p in g.dots :: r.dots[p].gridPosition == g.dots[p].gridPosition
    ensures forall p | p in g.dots ::
      r.dots[p].isOccupied ==
        (if TouchedBy(p, E) && !DotHasOccupiedConnections(r, p) then false else g.dots[p].isOccupied)
  {
    var f := ResetEdges(g, E);
    var r := ClearBareDots(f, E);
    assert WellFormed(g) ==> WellFormed(r) by {
      if WellFormed(g) {
        ResetEdgesWellFormed(g, E);
        ClearBareDotsWellFormed(f, E);
      }
    }
    assert forall p :: DotHasOccupiedConnections(r, p) == DotHasOccupiedConnections(f, p) by {
      forall p ensures DotHasOccupiedConnections(r, p) == DotHasOccupiedConnections(f, p) {
        DotsOnlyFrame(f, r, p);
      }
    }
    assert forall e :: Occupied(r, e) == Occupied(f, e);
    r
  }

  /** Resetting nothing changes nothing. */
  lemma ResetConnectionsEmpty(g: Grid)
    ensures ResetConnections(g, {}) == g
  {
    var r := ResetConnections(g, {});
    assert r.horizontal == g.horizontal;
    assert r.vertical == g.vertical;
    assert r.dots == g.dots;
  }

  /** Resetting E1 and then E2 is resetting their union at once. */
  lemma ResetConnectionsCompose(g: Grid, E1: set<EdgeRef>, E2: set<EdgeRef>)
    ensures ResetConnections(ResetConnections(g, E1), E2) == ResetConnections(g, E1 + E2)
  {
    var L := ResetConnections(ResetConnections(g, E1), E2);
    var M := ResetConnections(g, E1 + E2);
    ComposeEdges(g, E1, E2);
    forall p | p in g.dots
      ensures L.dots[p] == M.dots[p]
    {
      ComposeDot(g, E1, E2, p);
    }
    assert L.dots == M.dots;
  }

  lemma ComposeEdges(g: Grid, E1: set<EdgeRef>, E2: set<EdgeRef>)
    ensures ResetConnections(ResetConnections(g, E1), E2).horizontal == ResetConnections(g, E1 + E2).horizontal
    ensures ResetConnections(ResetConnections(g, E1), E2).vertical == ResetConnections(g, E1 + E2).vertical
  {
    ComposeHorizontal(g, E1, E2);
    ComposeVertical(g, E1, E2);
  }

  lemma ComposeHorizontal(g: Grid, E1: set<EdgeRef>, E2: set<EdgeRef>)
    ensures ResetConnections(ResetConnections(g, E1), E2).horizontal == ResetConnections(g, E1 + E2).horizontal
  {
    var L := ResetConnections(ResetConnections(g, E1), E2);
    var M := ResetConnections(g, E1 + E2);
    forall p | p in g.horizontal ensures L.horizontal[p] == M.horizontal[p] {
    }
  }

  lemma ComposeVertical(g: Grid, E1: set<EdgeRef>, E2: set<EdgeRef>)
    ensures ResetConnections(ResetConnections(g, E1), E2).vertical == ResetConnections(g, E1 + E2).vertical
  {
    var L := ResetConnections(ResetConnections(g, E1), E2);
    var M := ResetConnections(g, E1 + E2);
    forall p | p in g.vertical ensures L.vertical[p] == M.vertical[p] {
    }
  }

  lemma ComposeDot(g: Grid, E1: set<EdgeRef>, E2: set<EdgeRef>, p: Pos)
    requires p in g.dots
    ensures ResetConnections(ResetConnections(g, E1), E2).dots[p] == ResetConnections(g, E1 + E2).dots[p]
  {
    var B := ResetConnections(g, E1);
    var L := ResetConnections(B, E2);
    var M := ResetConnections(g, E1 + E2);
    DotHasOccupiedFrame(L, M, p);
    DotHasOccupiedMonotone(M, B, p);
    if !TouchedBy(p, E2) {
      forall e | e in IncidentEdges(p) ensures Occupied(M, e) == Occupied(B, e) {
        assert e !in E2;
      }
      DotHasOccupiedFrame(M, B, p);
    }
    TouchedByUnion(p, E1, E2);
  }

  lemma TouchedByUnion(p: Pos, E1: set<EdgeRef>, E2: set<EdgeRef>)
    ensures TouchedBy(p, E1 + E2) <==> TouchedBy(p, E1) || TouchedBy(p, E2)
  {
    if TouchedBy(p, E1 + E2) {
      var e :| e in E1 + E2 && IsEndpoint(p, e);
      assert e in E1 || e in E2;
    }
    if TouchedBy(p, E1) {
      var e :| e in E1 && IsEndpoint(p, e);
      assert e in E1 + E2;
    }
    if TouchedBy(p, E2) {
      var e :| e in E2 && IsEndpoint(p, e);
      assert e in E1 + E2;
    }
  }

  /** One pass of the source's loop body is the reset of the singleton set. */
  lemma ResetOneIsSingleton(g: Grid, e0: EdgeRef)
    requires HasConnection(g, e0) && EndpointsMatch(g, e0)
    ensures ResetOne(g, e0) == ResetConnections(g, {e0})
  {
    var A := ResetOne(g, e0);
    var M := ResetConnections(g, {e0});
    SingletonEdges(g, e0);
    forall p | p in g.dots
      ensures A.dots[p] == M.dots[p]
    {
      SingletonDot(g, e0, p);
    }
    assert A.dots == M.dots;
  }

  /** The stored connection joins the slot's own two dots, as in a well-formed grid. */
  predicate EndpointsMatch(g: Grid, e: EdgeRef)
    requires HasConnection(g, e)
  {
    ConnectionAt(g, e).startDot == StartOf(e) && ConnectionAt(g, e).endDot == EndOf(e)
  }

  /** The slot write of ResetOne. */
  function ResetSlot(g: Grid, e0: EdgeRef): Grid
    requires HasConnection(g, e0)
  {
    WithConnection(g, e0, Connections.Reset(ConnectionAt(g, e0)))
  }

  lemma SingletonEdges(g: Grid, e0: EdgeRef)
    requires HasConnection(g, e0) && EndpointsMatch(g, e0)
    ensures ResetOne(g, e0).horizontal == ResetSlot(g, e0).horizontal == ResetConnections(g, {e0}).horizontal
    ensures ResetOne(g, e0).vertical == ResetSlot(g, e0).vertical == ResetConnections(g, {e0}).vertical
  {
    var G1 := ResetSlot(g, e0);
    var M := ResetConnections(g, {e0});
    match e0
    case Horizontal(q) =>
      forall p | p in g.horizontal ensures G1.horizontal[p] == M.horizontal[p] {
      }
      assert G1.horizontal == M.horizontal;
    case Vertical(q) =>
      forall p | p in g.vertical ensures G1.vertical[p] == M.vertical[p] {
      }
      assert G1.vertical == M.vertical;
  }

  lemma SingletonDot(g: Grid, e0: EdgeRef, p: Pos)
    requires HasConnection(g, e0) && EndpointsMatch(g, e0) && p in g.dots
    ensures ResetOne(g, e0).dots[p] == ResetConnections(g, {e0}).dots[p]
  {
    SingletonEdges(g, e0);
    var s, t := StartOf(e0), EndOf(e0);
    var G1 := ResetSlot(g, e0);
    var G2 := CheckAndResetDot(G1, s);
    var M := ResetConnections(g, {e0});
    DotsOnlyFrame(G1, G2, p);
    DotHasOccupiedFrame(G1, M, p);
    if p == s || p == t {
      assert e0 in {e0};
      assert TouchedBy(p, {e0});
    } else {
      assert !TouchedBy(p, {e0});
    }
  }

  /**
   * The source resets the connections of a hash set in unspecified order, checking both endpoint
   * dots after each reset; every enumeration of the set yields the same grid as ResetConnections.
   */
  lemma ResetOrderIrrelevant(g: Grid, es: seq<EdgeRef>)
    requires WellFormed(g)
    requires forall i :: 0 <= i < |es| ==> HasConnection(g, es[i])
    ensures ResetConnectionsInOrder(g, es) == ResetConnections(g, set e | e in es)
  {
    forall i | 0 <= i < |es| ensures EndpointsMatch(g, es[i]) {
      ConnectionEndpoints(g, es[i]);
    }
    InOrderIsSet(g, es);
  }

  lemma {:induction false} InOrderIsSet(g: Grid, es: seq<EdgeRef>)
    requires forall i :: 0 <= i < |es| ==> HasConnection(g, es[i]) && EndpointsMatch(g, es[i])
    ensures ResetConnectionsInOrder(g, es) == ResetConnections(g, set e | e in es)
    decreases |es|
  {
    if es == [] {
      ResetConnectionsEmpty(g);
      assert (set e | e in es) == {};
    } else {
      var A := ResetOne(g, es[0]);
      ResetOneIsSingleton(g, es[0]);
      forall i | 0 <= i < |es[1..]|
        ensures HasConnection(A, es[1..][i]) && EndpointsMatch(A, es[1..][i])
      {
        assert HasConnection(g, es[i + 1]) && EndpointsMatch(g, es[i + 1]);
      }
      InOrderIsSet(A, es[1..]);
      ResetConnectionsCompose(g, {es[0]}, set e | e in es[1..]);
      assert (set e | e in es) == {es[0]} + (set e | e in es[1..]);
    }
  }

  /** `ResetCellConnections`: the sides of a cell reset one by one, bottom, right, top, left. */
  function ResetCellConnections(g: Grid, c: Pos): Grid {
    ResetConnectionsInOrder(g, GetCellConnections(c))
  }

  /**
   * For an in-bounds cell, all four sides end unoccupied, a corner dot ends unoccupied exactly
   * when no slot touching it stays occupied, and nothing else changes.
   */
  lemma ResetCellConnectionsEffect(g: Grid, c: Pos)
    requires WellFormed(g) && IsCellWithinBounds(g, c)
    ensures ResetCellConnections(g, c) == ResetConnections(g, set e | e in GetCellConnections(c))
    ensures forall i :: 0 <= i < 4 ==> !Occupied(ResetCellConnections(g, c), GetCellConnections(c)[i])
  {
    CellSidesExist(g, c);
    ResetOrderIrrelevant(g, GetCellConnections(c));
  }

  /** Every dot is occupied exactly when some slot touching it is occupied. */
  predicate DotsConsistent(g: Grid) {
    forall p | p in g.dots :: g.dots[p].isOccupied <==> DotHasOccupiedConnections(g, p)
  }

  /** Resetting any set of slots keeps dot occupancy consistent with the slots. */
  lemma ResetConnectionsKeepsDotsConsistent(g: Grid, E: set<EdgeRef>)
    requires DotsConsistent(g)
    ensures DotsConsistent(ResetConnections(g, E))
  {
    var r := ResetConnections(g, E);
    forall p | p in r.dots
      ensures r.dots[p].isOccupied <==> DotHasOccupiedConnections(r, p)
    {
      DotHasOccupiedMonotone(r, g, p);
      if !TouchedBy(p, E) {
        forall e | e in IncidentEdges(p) ensures Occupied(r, e) == Occupied(g, e) {
          assert IsEndpoint(p, e);
        }
        DotHasOccupiedFrame(r, g, p);
      }
    }
  }
}
