/**
 * A unit square of the grid: its completion flag and its collectible slot. The source keeps the
 * collectible object and its item type in two fields; `hasCollectible` stands for the object.
 */
module Cells {
  import opened Wrappers
  import opened Events

  datatype Cell = Cell(isComplete: bool, hasCollectible: bool, collectibleType: Option<ItemType>)

  /** A fresh cell is incomplete and empty. */
  function Initialize(): (c: Cell)
    ensures !c.isComplete && !c.hasCollectible
  {
    Cell(false, false, None)
  }

  /** The completion flag becomes exactly `complete`; the collectible is untouched. */
  function SetComplete(c: Cell, complete: bool): (r: Cell)
    ensures r.isComplete == complete
    ensures r.hasCollectible == c.hasCollectible && r.collectibleType == c.collectibleType
  {
    c.(isComplete := complete)
  }

  /** Reset makes the cell incomplete and keeps its collectible. */
  function Reset(c: Cell): (r: Cell)
    ensures !r.isComplete
    ensures r.hasCollectible == c.hasCollectible && r.collectibleType == c.collectibleType
  {
    c.(isComplete := false)
  }

  /** Places a collectible of the given type, unless one is already there or the cell is complete. */
  function SetCollectible(c: Cell, itemType: ItemType): (r: Cell)
    ensures c.hasCollectible || c.isComplete ==> r == c
    ensures !c.hasCollectible && !c.isComplete ==>
      r.hasCollectible && r.collectibleType == Some(itemType) && !r.isComplete
  {
    if !c.hasCollectible && !c.isComplete then
      c.(hasCollectible := true, collectibleType := Some(itemType))
    else
      c
  }

  /** Like SetCollectible but without a type: the previously recorded type is kept. */
  function SpawnCollectible(c: Cell): (r: Cell)
    ensures c.hasCollectible || c.isComplete ==> r == c
    ensures !c.hasCollectible && !c.isComplete ==>
      r.hasCollectible && r.collectibleType == c.collectibleType && !r.isComplete
  {
    if !c.hasCollectible && !c.isComplete then c.(hasCollectible := true) else c
  }

  /** Consumes the collectible, reporting its type once; without one nothing happens. */
  function CollectItem(c: Cell): (r: (Cell, seq<Event>))
    ensures !r.0.hasCollectible
    ensures r.0.isComplete == c.isComplete
    ensures c.hasCollectible ==> r.1 == [ItemCollected(c.collectibleType)]
    ensures !c.hasCollectible ==> r.0 == c && r.1 == []
  {
    if c.hasCollectible then (c.(hasCollectible := false), [ItemCollected(c.collectibleType)])
    else (c, [])
  }

  /** A blasted cell ends incomplete and without a collectible. */
  function CellBlasted(c: Cell): (r: (Cell, seq<Event>))
    ensures !r.0.isComplete && !r.0.hasCollectible
    ensures |r.1| <= 1
    ensures |r.1| == 1 <==> c.hasCollectible
    ensures c.hasCollectible ==> r.1 == [ItemCollected(c.collectibleType)]
    ensures !c.hasCollectible ==> r.1 == []
  {
    CollectItem(SetComplete(c, false))
  }

  /** Collecting twice reports the item only once. */
  lemma CollectItemOnce(c: Cell)
    ensures CollectItem(CollectItem(c).0).1 == []
    ensures CollectItem(CollectItem(c).0).0 == CollectItem(c).0
  {
  }
}
