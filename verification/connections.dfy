/** An edge between two adjacent dots; endpoints are kept as the dots' grid positions. */
module Connections {
  import opened Geometry

  datatype Connection = Connection(startDot: Pos, endDot: Pos, isOccupied: bool)

  /** A fresh connection records both endpoints and starts unoccupied. */
  function Initialize(start: Pos, end: Pos): (c: Connection)
    ensures c.startDot == start && c.endDot == end
    ensures !c.isOccupied
  {
    Connection(start, end, false)
  }

  /** Occupying sets the flag and keeps the endpoints. */
  function Occupy(c: Connection): (r: Connection)
    ensures r.isOccupied
    ensures r.startDot == c.startDot && r.endDot == c.endDot
  {
    c.(isOccupied := true)
  }

  /** Resetting clears the flag and keeps the endpoints. */
  function Reset(c: Connection): (r: Connection)
    ensures !r.isOccupied
    ensures r.startDot == c.startDot && r.endDot == c.endDot
  {
    c.(isOccupied := false)
  }

  /** Reset undoes Occupy on a free connection, and Occupy undoes Reset on an occupied one. */
  lemma OccupyResetInverse(c: Connection)
    ensures !c.isOccupied ==> Reset(Occupy(c)) == c
    ensures c.isOccupied ==> Occupy(Reset(c)) == c
  {
  }
}
