/**
 * The collection goal of a level: a list of item requirements, a counter per required item type,
 * and a win once every counter reaches its required amount.
 */
module CollectItemsWinCondition {
  import opened Events
  import opened GameManager
  import opened Text

  datatype ItemRequirement = ItemRequirement(itemType: ItemType, requiredAmount: int)

  datatype CollectWin = CollectWin(requiredItems: seq<ItemRequirement>, collectedItems: map<ItemType, int>)

  /** The goal after a call, the game state after it, and the calls it made. */
  datatype CollectOutcome = CollectOutcome(condition: CollectWin, game: GameState, events: seq<Event>)

  /** The item types some requirement names. */
  function RequiredTypes(reqs: seq<ItemRequirement>): set<ItemType> {
    set i | 0 <= i < |reqs| :: reqs[i].itemType
  }

  /**
   * `Initialize`: earlier counts are discarded and every required type is counted from zero; no
   * other type has a counter.
   */
  function Initialize(w: CollectWin): (r: CollectWin)
    ensures r.requiredItems == w.requiredItems
    ensures forall i :: 0 <= i < |w.requiredItems| ==>
      w.requiredItems[i].itemType in r.collectedItems
      && r.collectedItems[w.requiredItems[i].itemType] == 0
    ensures forall t :: t in r.collectedItems ==>
      exists i :: 0 <= i < |w.requiredItems| && w.requiredItems[i].itemType == t
  {
    w.(collectedItems := map t | t in RequiredTypes(w.requiredItems) :: 0)
  }

  /** `CheckWinCondition`: every requirement has a counter that reached its amount. */
  predicate CheckWinCondition(w: CollectWin) {
    forall i :: 0 <= i < |w.requiredItems| ==>
      w.requiredItems[i].itemType in w.collectedItems
      && w.collectedItems[w.requiredItems[i].itemType] >= w.requiredItems[i].requiredAmount
  }

  /** A freshly initialised goal is already met exactly when no requirement asks for more than zero. */
  lemma InitializeMetIffNothingRequired(w: CollectWin)
    ensures CheckWinCondition(Initialize(w)) <==>
      forall i :: 0 <= i < |w.requiredItems| ==> w.requiredItems[i].requiredAmount <= 0
  {
    var r := Initialize(w);
    if CheckWinCondition(r) {
      forall i | 0 <= i < |w.requiredItems| ensures w.requiredItems[i].requiredAmount <= 0 {
        assert r.collectedItems[w.requiredItems[i].itemType] == 0;
      }
    }
  }

  /**
   * `CollectItem`: an item type without a counter changes nothing. Otherwise its counter grows by
   * exactly one, no other counter changes, and the game manager is told the game is won exactly
   * when the goal is then met.
   */
  function CollectItem(w: CollectWin, game: GameState, t: ItemType): (r: CollectOutcome)
    ensures t !in w.collectedItems ==> r == CollectOutcome(w, game, [])
    ensures r.condition.requiredItems == w.requiredItems
    ensures r.condition.collectedItems.Keys == w.collectedItems.Keys
    ensures t in w.collectedItems ==> r.condition.collectedItems[t] == w.collectedItems[t] + 1
    ensures forall u :: u in w.collectedItems && u != t ==>
      r.condition.collectedItems[u] == w.collectedItems[u]
    ensures t in w.collectedItems && CheckWinCondition(r.condition) ==>
      r.game == WinGame(game).state && r.events == WinGame(game).events
    ensures !CheckWinCondition(r.condition) ==> r.game == game && r.events == []
  {
    if t !in w.collectedItems then CollectOutcome(w, game, [])
    else
      var next := w.(collectedItems := w.collectedItems[t := w.collectedItems[t] + 1]);
      if CheckWinCondition(next) then
        var tr := WinGame(game);
        CollectOutcome(next, tr.state, tr.events)
      else
        CollectOutcome(next, game, [])
  }

  /** Counters only grow, so a met goal stays met. */
  lemma MetStaysMet(w: CollectWin, game: GameState, t: ItemType)
    requires CheckWinCondition(w)
    ensures CheckWinCondition(CollectItem(w, game, t).condition)
  {
    var r := CollectItem(w, game, t).condition;
    forall i | 0 <= i < |w.requiredItems|
      ensures w.requiredItems[i].itemType in r.collectedItems
      ensures r.collectedItems[w.requiredItems[i].itemType] >= w.requiredItems[i].requiredAmount
    {
    }
  }

  /** Collecting a sequence of items, one call each, in order. */
  function CollectAll(w: CollectWin, game: GameState, items: seq<ItemType>): CollectOutcome
    decreases |items|
  {
    if items == [] then CollectOutcome(w, game, [])
    else
      var first := CollectItem(w, game, items[0]);
      var rest := CollectAll(first.condition, first.game, items[1..]);
      CollectOutcome(rest.condition, rest.game, first.events + rest.events)
  }

  /** After a run of collections, each counter has grown by the number of its items in the run. */
  lemma {:induction false} CollectAllCounts(w: CollectWin, game: GameState, items: seq<ItemType>, t: ItemType)
    requires t in w.collectedItems
    ensures t in CollectAll(w, game, items).condition.collectedItems
    ensures CollectAll(w, game, items).condition.collectedItems[t] ==
      w.collectedItems[t] + multiset(items)[t]
    decreases |items|
  {
    if items != [] {
      var first := CollectItem(w, game, items[0]);
      CollectAllCounts(first.condition, first.game, items[1..], t);
      assert items == [items[0]] + items[1..];
    }
  }

  /** One requirement's part of the progress text: "name: collected/required". */
  function ProgressEntry(w: CollectWin, req: ItemRequirement): string {
    var collected := if req.itemType in w.collectedItems then w.collectedItems[req.itemType] else 0;
    req.itemType.itemName + ": " + IntToString(collected) + "/" + IntToString(req.requiredAmount)
  }

  /** The parts joined with the separator between consecutive parts. */
  function Join(parts: seq<string>, sep: string): string
    decreases |parts|
  {
    if parts == [] then ""
    else if |parts| == 1 then parts[0]
    else parts[0] + sep + Join(parts[1..], sep)
  }

  /** Appending one more part puts the separator before it. */
  lemma {:induction false} JoinSnoc(parts: seq<string>, sep: string, x: string)
    requires parts != []
    ensures Join(parts + [x], sep) == Join(parts, sep) + sep + x
    decreases |parts|
  {
    if |parts| > 1 {
      JoinSnoc(parts[1..], sep, x);
      assert (parts + [x])[1..] == parts[1..] + [x];
    } else {
      assert (parts + [x])[1..] == [x];
    }
  }

  function ProgressEntries(w: CollectWin): (r: seq<string>)
    ensures |r| == |w.requiredItems|
    ensures forall i :: 0 <= i < |r| ==> r[i] == ProgressEntry(w, w.requiredItems[i])
  {
    seq(|w.requiredItems|, i requires 0 <= i < |w.requiredItems| => ProgressEntry(w, w.requiredItems[i]))
  }

  /**
   * `GetProgressText`: the entries of the requirements in order, with ", " appended after every
   * entry but the last.
   */
  method GetProgressText(w: CollectWin) returns (text: string)
    ensures text == Join(ProgressEntries(w), ", ")
  {
    var entries := ProgressEntries(w);
    var n := |w.requiredItems|;
    text := "";
    var i := 0;
    while i < n
      invariant 0 <= i <= n
      invariant i == 0 ==> text == ""
      invariant 0 < i ==> text == Join(entries[..i], ", ") + (if i < n then ", " else "")
    {
      var entry := ProgressEntry(w, w.requiredItems[i]);
      if i > 0 {
        JoinSnoc(entries[..i], ", ", entry);
        assert entries[..i + 1] == entries[..i] + [entry];
      } else {
        assert entries[..1] == [entry];
      }
      text := text + entry;
      if i < n - 1 {
        text := text + ", ";
      }
      i := i + 1;
    }
    assert entries[..n] == entries;
  }
}
