/** Integer lattice coordinates (the source's Vector2Int) and the small arithmetic helpers it uses. */
module Geometry {

  datatype Pos = Pos(x: int, y: int) {

    function Plus(other: Pos): Pos {
      Pos(x + other.x, y + other.y)
    }

    function Minus(other: Pos): Pos {
      Pos(x - other.x, y - other.y)
    }
  }

  function Abs(n: int): nat {
    if n < 0 then -n else n
  }

  function Min(a: int, b: int): int {
    if a <= b then a else b
  }

  function Max(a: int, b: int): int {
    if a <= b then b else a
  }

  /** Two points one step apart along exactly one axis. */
  predicate UnitAdjacent(a: Pos, b: Pos) {
    (Abs(a.x - b.x) == 1 && a.y == b.y) || (Abs(a.y - b.y) == 1 && a.x == b.x)
  }
}
