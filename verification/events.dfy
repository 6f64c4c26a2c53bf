/**
 * Observable calls the core makes into code outside it (sound, scoring, item collection),
 * recorded as an ordered log instead of being performed.
 */
module Events {
  import opened Wrappers

  /** A collectible kind; the source compares item types by reference, modelled here by `id`. */
  datatype ItemType = ItemType(id: nat, itemName: string)

  datatype Event =
    | SoundPlayed(name: string)
    | SoundPlayedRepeatedly(name: string, times: int)
    | SoundFadedOut(name: string)
    | PointsAdded(points: int)
    | ItemCollected(item: Option<ItemType>)
    | MusicStarted(name: string)
    | Vibrated

  /** The number of score reports in a log; a blast wave reports its score exactly once. */
  function ScoreCount(events: seq<Event>): (r: nat)
    ensures r <= |events|
    ensures r == 0 <==> forall i :: 0 <= i < |events| ==> !events[i].PointsAdded?
  {
    if events == [] then 0
    else (if events[0].PointsAdded? then 1 else 0) + ScoreCount(events[1..])
  }

  /** Score reports add up over consecutive parts of a log. */
  lemma {:induction false} ScoreCountAppend(a: seq<Event>, b: seq<Event>)
    ensures ScoreCount(a + b) == ScoreCount(a) + ScoreCount(b)
  {
    if a == [] {
      assert a + b == b;
    } else {
      assert (a + b)[1..] == a[1..] + b;
      ScoreCountAppend(a[1..], b);
    }
  }
}
