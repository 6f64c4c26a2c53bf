/** A lattice vertex. Only the state game logic reads is kept: the grid position and occupancy. */
module Dots {
  import opened Geometry

  datatype Dot = Dot(gridPosition: Pos, isOccupied: bool)

  /** A fresh dot records its position and starts unoccupied. */
  function Initialize(position: Pos): (d: Dot)
    ensures d.gridPosition == position
    ensures !d.isOccupied
  {
    Dot(position, false)
  }

  /** Occupancy becomes exactly `occupied`; the position is never reassigned. */
  function SetOccupied(d: Dot, occupied: bool): (r: Dot)
    ensures r.isOccupied == occupied
    ensures r.gridPosition == d.gridPosition
  {
    d.(isOccupied := occupied)
  }

  /** Only the last occupancy write is visible. */
  lemma SetOccupiedLastWins(d: Dot, a: bool, b: bool)
    ensures SetOccupied(SetOccupied(d, a), b) == SetOccupied(d, b)
  {
  }
}
