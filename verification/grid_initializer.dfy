/** Building a level's grid: the GridState constructor followed by `InitializeGrid`. */
module GridInitializer {
  import opened Geometry
  import opened Dots
  import opened Connections
  import opened Cells
  import opened GridState

  function Slots(xs: int, ys: int): set<Pos> {
    set x, y | 0 <= x < xs && 0 <= y < ys :: Pos(x, y)
  }

  lemma SlotsMembership(xs: int, ys: int, p: Pos)
    ensures p in Slots(xs, ys) <==> 0 <= p.x < xs && 0 <= p.y < ys
  {
    if 0 <= p.x < xs && 0 <= p.y < ys {
      assert Pos(p.x, p.y) in Slots(xs, ys);
    }
  }

  function DotArray(width: int, height: int): (m: map<Pos, Dot>)
    ensures forall p :: p in m <==> 0 <= p.x < width && 0 <= p.y < height
    ensures forall p | p in m :: m[p] == Dots.Initialize(p)
  {
    var m := map p | p in Slots(width, height) :: Dots.Initialize(p);
    assert forall p :: p in m <==> 0 <= p.x < width && 0 <= p.y < height by {
      forall p { SlotsMembership(width, height, p); }
    }
    m
  }

  function HorizontalArray(width: int, height: int): (m: map<Pos, Connection>)
    ensures forall p :: p in m <==> 0 <= p.x < width && 0 <= p.y < height - 1
    ensures forall p | p in m :: m[p] == Connections.Initialize(p, Pos(p.x, p.y + 1))
  {
    var m := map p | p in Slots(width, height - 1) :: Connections.Initialize(p, Pos(p.x, p.y + 1));
    assert forall p :: p in m <==> 0 <= p.x < width && 0 <= p.y < height - 1 by {
      forall p { SlotsMembership(width, height - 1, p); }
    }
    m
  }

  function VerticalArray(width: int, height: int): (m: map<Pos, Connection>)
    ensures forall p :: p in m <==> 0 <= p.x < width - 1 && 0 <= p.y < height
    ensures forall p | p in m :: m[p] == Connections.Initialize(p, Pos(p.x + 1, p.y))
  {
    var m := map p | p in Slots(width - 1, height) :: Connections.Initialize(p, Pos(p.x + 1, p.y));
    assert forall p :: p in m <==> 0 <= p.x < width - 1 && 0 <= p.y < height by {
      forall p { SlotsMembership(width - 1, height, p); }
    }
    m
  }

  function CellArray(width: int, height: int): (m: map<Pos, Cell>)
    ensures forall p :: p in m <==> 0 <= p.x < width - 1 && 0 <= p.y < height - 1
    ensures forall p | p in m :: m[p] == Cells.Initialize()
  {
    var keys := Slots(width - 1, height - 1);
    var m := map p | p in keys :: Cells.Initialize();
    assert forall p :: p in m <==> 0 <= p.x < width - 1 && 0 <= p.y < height - 1 by {
      forall p { SlotsMembership(width - 1, height - 1, p); }
    }
    m
  }

  /**
   * A fresh grid: every dot at its own position, every horizontal slot (x, y) joining (x, y) and
   * (x, y+1), every vertical slot (x, y) joining (x, y) and (x+1, y), every cell slot filled, and
   * nothing occupied or complete. The source throws on a non-positive dimension.
   */
  function InitializeGrid(width: int, height: int): (g: Grid)
    requires width >= 1 && height >= 1
    ensures WellFormed(g) && g.width == width && g.height == height
    ensures forall p :: p in g.dots <==> 0 <= p.x < width && 0 <= p.y < height
    ensures forall p :: p in g.horizontal <==> 0 <= p.x < width && 0 <= p.y < height - 1
    ensures forall p :: p in g.vertical <==> 0 <= p.x < width - 1 && 0 <= p.y < height
    ensures forall p :: p in g.cells <==> 0 <= p.x < width - 1 && 0 <= p.y < height - 1
    ensures forall p | p in g.horizontal ::
      g.horizontal[p].startDot == p && g.horizontal[p].endDot == Pos(p.x, p.y + 1)
    ensures forall p | p in g.vertical ::
      g.vertical[p].startDot == p && g.vertical[p].endDot == Pos(p.x + 1, p.y)
    ensures forall p | p in g.dots :: g.dots[p].gridPosition == p
    ensures forall p | p in g.dots :: !g.dots[p].isOccupied
    ensures forall p | p in g.horizontal :: !g.horizontal[p].isOccupied
    ensures forall p | p in g.vertical :: !g.vertical[p].isOccupied
    ensures forall p | p in g.cells :: !g.cells[p].isComplete && !g.cells[p].hasCollectible
  {
    InitializeGridWellFormed(width, height);
    Grid(width, height, DotArray(width, height), HorizontalArray(width, height),
         VerticalArray(width, height), CellArray(width, height))
  }

  lemma InitializeGridWellFormed(width: int, height: int)
    requires width >= 1 && height >= 1
    ensures WellFormed(Grid(width, height, DotArray(width, height), HorizontalArray(width, height),
                            VerticalArray(width, height), CellArray(width, height)))
  {
    var g := Grid(width, height, DotArray(width, height), HorizontalArray(width, height),
                  VerticalArray(width, height), CellArray(width, height));
    assert forall p :: p in g.dots <==> IsWithinBounds(g, p);
    assert forall p :: p in g.horizontal <==> InHorizontalRange(g, p);
    assert forall p :: p in g.vertical <==> InVerticalRange(g, p);
    assert forall p :: p in g.cells <==> IsCellWithinBounds(g, p);
    assert forall p | p in g.dots :: g.dots[p].gridPosition == p;
  }
}
