/**
 * The tray of sticks waiting to be dragged onto the grid: a fixed number of slots, each free or
 * holding a stick; refilling when the tray runs empty; and the lose rule that ends the game when
 * no waiting stick fits anywhere. The random choice of definition and orientation is an input.
 */
module StickSpawner {
  import opened Wrappers
  import opened Events
  import opened Geometry
  import opened Sticks
  import opened GridState
  import opened GridValidator
  import opened GameManager

  /** `maxSticks`: the number of slots in the tray. */
  const MaxSticks: nat := 3

  /** A slot of the tray: `occupiedSlots[i]` is true exactly when the slot holds a stick. */
  datatype Slot = Free | Holding(stick: StickData)

  /** The outcome of the two `Random.Range` calls: an index into the definitions and an orientation. */
  datatype Pick = Pick(definition: nat, orientation: Orientation)

  predicate ValidPick(available: seq<StickDefinition>, p: Pick) {
    p.definition < |available|
  }

  /** The number of free slots. */
  function FreeCount(slots: seq<Slot>): (n: nat)
    ensures n <= |slots|
    decreases |slots|
  {
    if slots == [] then 0
    else (if slots[0].Free? then 1 else 0) + FreeCount(slots[1..])
  }

  /** No slot is free exactly when the free count is zero. */
  lemma {:induction false} FreeCountZero(slots: seq<Slot>)
    ensures FreeCount(slots) == 0 <==> forall i :: 0 <= i < |slots| ==> slots[i].Holding?
    decreases |slots|
  {
    if slots != [] {
      FreeCountZero(slots[1..]);
      if FreeCount(slots) == 0 {
        forall i | 0 <= i < |slots| ensures slots[i].Holding? {
          if i > 0 {
            assert slots[i] == slots[1..][i - 1];
          }
        }
      }
    }
  }

  /** Filling one free slot lowers the free count by one. */
  lemma {:induction false} FreeCountFill(slots: seq<Slot>, k: nat, s: StickData)
    requires k < |slots| && slots[k].Free?
    ensures FreeCount(slots[k := Holding(s)]) == FreeCount(slots) - 1
    decreases |slots|
  {
    if k > 0 {
      FreeCountFill(slots[1..], k - 1, s);
      assert slots[k := Holding(s)][1..] == slots[1..][k - 1 := Holding(s)];
    } else {
      assert slots[k := Holding(s)][1..] == slots[1..];
    }
  }

  /** The search loop of `SpawnRandomStickWithAnimation`: the lowest-index free slot, if any. */
  function FirstFreeSlot(slots: seq<Slot>): (r: Option<nat>)
    ensures r.None? <==> forall i :: 0 <= i < |slots| ==> slots[i].Holding?
    ensures r.Some? ==>
      && r.value < |slots| && slots[r.value].Free?
      && forall i :: 0 <= i < r.value ==> slots[i].Holding?
    decreases |slots|
  {
    if slots == [] then None
    else if slots[0].Free? then Some(0)
    else
      match FirstFreeSlot(slots[1..])
      case None => None
      case Some(k) => Some(k + 1)
  }

  /** `GetRandomStickData`: the picked definition turned to the picked orientation. */
  function GetRandomStickData(available: seq<StickDefinition>, p: Pick): (r: StickData)
    requires ValidPick(available, p)
    ensures r.definition in available
    ensures |r.segments| == |r.definition.segments|
  {
    Create(available[p.definition], p.orientation)
  }

  /** Every stick in the tray is some available definition in one of the four orientations. */
  predicate FromDefinitions(slots: seq<Slot>, available: seq<StickDefinition>) {
    forall i :: 0 <= i < |slots| && slots[i].Holding? ==>
      exists d, o :: d in available && slots[i].stick == Create(d, o)
  }

  /**
   * `SpawnRandomStickWithAnimation`: with every slot taken nothing happens; otherwise the
   * lowest-index free slot receives the picked stick and every other slot is kept.
   */
  function SpawnRandomStick(slots: seq<Slot>, available: seq<StickDefinition>, p: Pick): (r: seq<Slot>)
    requires ValidPick(available, p)
    ensures |r| == |slots|
    ensures (forall i :: 0 <= i < |slots| ==> slots[i].Holding?) ==> r == slots
    ensures forall i :: 0 <= i < |slots| && slots[i].Holding? ==> r[i] == slots[i]
    ensures forall i :: 0 <= i < |slots| && r[i] != slots[i] ==>
      r[i].Holding? && forall j :: 0 <= j < i ==> slots[j].Holding?
    ensures FreeCount(r) == if FreeCount(slots) > 0 then FreeCount(slots) - 1 else 0
    ensures FromDefinitions(slots, available) ==> FromDefinitions(r, available)
  {
    FreeCountZero(slots);
    match FirstFreeSlot(slots)
    case None => slots
    case Some(k) =>
      var stick := GetRandomStickData(available, p);
      FreeCountFill(slots, k, stick);
      var r := slots[k := Holding(stick)];
      assert FromDefinitions(slots, available) ==> FromDefinitions(r, available) by {
        if FromDefinitions(slots, available) {
          forall i | 0 <= i < |r| && r[i].Holding?
            ensures exists d, o :: d in available && r[i].stick == Create(d, o)
          {
            if i == k {
              assert available[p.definition] in available && stick == Create(available[p.definition], p.orientation);
            }
          }
        }
      }
      r
  }

  /** One spawn per pick, in order. */
  function SpawnAll(slots: seq<Slot>, available: seq<StickDefinition>, picks: seq<Pick>): (r: seq<Slot>)
    requires forall i :: 0 <= i < |picks| ==> ValidPick(available, picks[i])
    ensures |r| == |slots|
    ensures forall i :: 0 <= i < |slots| && slots[i].Holding? ==> r[i] == slots[i]
    ensures FromDefinitions(slots, available) ==> FromDefinitions(r, available)
    decreases |picks|
  {
    if picks == [] then slots
    else SpawnAll(SpawnRandomStick(slots, available, picks[0]), available, picks[1..])
  }

  /** Each spawn fills one slot while any is free. */
  lemma {:induction false} SpawnAllFreeCount(slots: seq<Slot>, available: seq<StickDefinition>, picks: seq<Pick>)
    requires forall i :: 0 <= i < |picks| ==> ValidPick(available, picks[i])
    ensures FreeCount(SpawnAll(slots, available, picks)) ==
      if FreeCount(slots) > |picks| then FreeCount(slots) - |picks| else 0
    decreases |picks|
  {
    if picks != [] {
      SpawnAllFreeCount(SpawnRandomStick(slots, available, picks[0]), available, picks[1..]);
    }
  }

  /**
   * `SpawnNewStickGroup`: as many spawns as there are slots. Whatever was free before, every slot
   * ends up holding a stick, and sticks already waiting stay where they are.
   */
  function SpawnNewStickGroup(slots: seq<Slot>, available: seq<StickDefinition>, picks: seq<Pick>): (r: seq<Slot>)
    requires |picks| == |slots|
    requires forall i :: 0 <= i < |picks| ==> ValidPick(available, picks[i])
    ensures |r| == |slots|
    ensures forall i :: 0 <= i < |r| ==> r[i].Holding?
    ensures forall i :: 0 <= i < |slots| && slots[i].Holding? ==> r[i] == slots[i]
    ensures FromDefinitions(slots, available) ==> FromDefinitions(r, available)
  {
    var r := SpawnAll(slots, available, picks);
    SpawnAllFreeCount(slots, available, picks);
    FreeCountZero(r);
    r
  }

  /** `AreAllSlotsEmpty`. */
  predicate AreAllSlotsEmpty(slots: seq<Slot>) {
    forall i :: 0 <= i < |slots| ==> slots[i].Free?
  }

  /**
   * `OnStickPlaced`: the placed stick's slot becomes free; if that empties the tray, a new group
   * fills every slot, otherwise nothing else changes.
   */
  function OnStickPlaced(slots: seq<Slot>, slotIndex: int, available: seq<StickDefinition>, picks: seq<Pick>): (r: seq<Slot>)
    requires 0 <= slotIndex < |slots|
    requires |picks| == |slots|
    requires forall i :: 0 <= i < |picks| ==> ValidPick(available, picks[i])
    ensures |r| == |slots|
    ensures AreAllSlotsEmpty(slots[slotIndex := Free]) ==> forall i :: 0 <= i < |r| ==> r[i].Holding?
    ensures !AreAllSlotsEmpty(slots[slotIndex := Free]) ==>
      r[slotIndex].Free? && forall i :: 0 <= i < |slots| && i != slotIndex ==> r[i] == slots[i]
    ensures FromDefinitions(slots, available) ==> FromDefinitions(r, available)
  {
    var freed := slots[slotIndex := Free];
    if AreAllSlotsEmpty(freed) then SpawnNewStickGroup(freed, available, picks) else freed
  }

  /** A stick that fits somewhere on the grid. */
  ghost predicate Placeable(g: Grid, stick: StickData)
    requires |stick.segments| > 0
  {
    exists o: Pos :: CanPlaceStick(g, o, stick.segments, CenterOffset(stick.segments))
  }

  /** Every waiting stick has a segment, so its centre is defined. */
  predicate SticksHaveSegments(slots: seq<Slot>) {
    forall i :: 0 <= i < |slots| && slots[i].Holding? ==> |slots[i].stick.segments| > 0
  }

  /** No waiting stick fits anywhere. */
  ghost predicate NoMovesLeft(g: Grid, slots: seq<Slot>)
    requires SticksHaveSegments(slots)
  {
    forall i :: 0 <= i < |slots| && slots[i].Holding? ==> !Placeable(g, slots[i].stick)
  }

  /** `IsGameOver`: true exactly when no waiting stick can be placed anywhere. */
  method IsGameOver(g: Grid, slots: seq<Slot>) returns (r: bool)
    requires SticksHaveSegments(slots)
    ensures r <==> NoMovesLeft(g, slots)
  {
    var i := 0;
    while i < |slots|
      invariant 0 <= i <= |slots|
      invariant forall j :: 0 <= j < i && slots[j].Holding? ==> !Placeable(g, slots[j].stick)
    {
      if slots[i].Holding? {
        var fits := CanStickBePlacedAnywhere(g, slots[i].stick);
        if fits {
          return false;
        }
      }
      i := i + 1;
    }
    return true;
  }

  /**
   * `CheckGameOver`, for the stick in slot `current` that was just dropped: if it or any other
   * waiting stick still fits somewhere nothing happens; otherwise the device vibrates and the game
   * manager is told the game is lost.
   */
  method CheckGameOver(game: GameState, g: Grid, slots: seq<Slot>, current: nat) returns (r: Transition)
    requires current < |slots| && slots[current].Holding?
    requires SticksHaveSegments(slots)
    ensures !NoMovesLeft(g, slots) ==> r == Transition(game, [])
    ensures NoMovesLeft(g, slots) ==>
      r.state == LoseGame(game).state && r.events == [Vibrated] + LoseGame(game).events
  {
    var fits := CanStickBePlacedAnywhere(g, slots[current].stick);
    if fits {
      return Transition(game, []);
    }
    var i := 0;
    while i < |slots|
      invariant 0 <= i <= |slots|
      invariant forall j :: 0 <= j < i && slots[j].Holding? ==> !Placeable(g, slots[j].stick)
    {
      if i != current && slots[i].Holding? {
        fits := CanStickBePlacedAnywhere(g, slots[i].stick);
        if fits {
          return Transition(game, []);
        }
      }
      i := i + 1;
    }
    var lost := LoseGame(game);
    r := Transition(lost.state, [Vibrated] + lost.events);
  }
}
