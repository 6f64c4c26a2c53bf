/**
 * The points goal of a level: blast points accumulate, and the game is won once the running
 * total reaches the target.
 */
module PointWinCondition {
  import opened Events
  import opened GameManager
  import opened Text

  datatype PointWin = PointWin(targetPoints: int, currentPoints: int)

  /** The goal after a call, the game state after it, and the calls it made. */
  datatype PointOutcome = PointOutcome(condition: PointWin, game: GameState, events: seq<Event>)

  /** `Initialize`: the running total starts again from zero; the target is kept. */
  function Initialize(w: PointWin): (r: PointWin)
    ensures r.targetPoints == w.targetPoints && r.currentPoints == 0
  {
    w.(currentPoints := 0)
  }

  /** `CheckWinCondition`: the total has reached the target. */
  predicate CheckWinCondition(w: PointWin) {
    w.currentPoints >= w.targetPoints
  }

  /**
   * `AddPoints`: the total grows by exactly `points`, and the game manager is told the game is won
   * exactly when the new total reaches the target.
   */
  function AddPoints(w: PointWin, game: GameState, points: int): (r: PointOutcome)
    ensures r.condition.targetPoints == w.targetPoints
    ensures r.condition.currentPoints == w.currentPoints + points
    ensures r.condition.currentPoints >= w.targetPoints ==>
      r.game == WinGame(game).state && r.events == WinGame(game).events
    ensures r.condition.currentPoints < w.targetPoints ==> r.game == game && r.events == []
  {
    var next := w.(currentPoints := w.currentPoints + points);
    if CheckWinCondition(next) then
      var t := WinGame(game);
      PointOutcome(next, t.state, t.events)
    else
      PointOutcome(next, game, [])
  }

  /** Adding in two steps totals the same as adding the sum at once. */
  lemma AddPointsAdditive(w: PointWin, game: GameState, a: int, b: int)
    ensures AddPoints(AddPoints(w, game, a).condition, game, b).condition ==
      AddPoints(w, game, a + b).condition
  {
  }

  /** Blast points are never negative, so once reached the goal stays reached. */
  lemma ReachedStaysReached(w: PointWin, game: GameState, points: int)
    requires CheckWinCondition(w) && points >= 0
    ensures CheckWinCondition(AddPoints(w, game, points).condition)
  {
  }

  /** `GetProgressText`: "current/target". */
  function GetProgressText(w: PointWin): string {
    IntToString(w.currentPoints) + "/" + IntToString(w.targetPoints)
  }

  /**
   * The progress text reads back as the two numbers: the first '/' separates the total from the
   * target, and each side parses to its number.
   */
  lemma ProgressTextReadsBack(w: PointWin)
    ensures var s, k := GetProgressText(w), |IntToString(w.currentPoints)|;
      && k < |s| && s[k] == '/'
      && (forall i :: 0 <= i < k ==> s[i] != '/')
      && IsNumeral(s[..k]) && ParseInt(s[..k]) == w.currentPoints
      && IsNumeral(s[k + 1..]) && ParseInt(s[k + 1..]) == w.targetPoints
  {
    var a, b := IntToString(w.currentPoints), IntToString(w.targetPoints);
    var s := GetProgressText(w);
    assert s[..|a|] == a;
    assert s[|a| + 1..] == b;
    ParseIntToString(w.currentPoints);
    ParseIntToString(w.targetPoints);
  }
}
