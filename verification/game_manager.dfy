/**
 * The game-wide state machine: a game is being played, has been won or has been lost. Winning and
 * losing only happen from Playing; only a restart leaves an ended game.
 */
module GameManager {
  import opened Events

  datatype GameState = Playing | Won | Lost

  /** A new state together with the calls made into the sound system on the way. */
  datatype Transition = Transition(state: GameState, events: seq<Event>)

  /** `IsPlaying`: moves are accepted only while the game is in progress. */
  predicate IsPlaying(s: GameState) {
    s == Playing
  }

  /** `InitializeManager`: a fresh game manager is playing. */
  function InitialState(): (r: GameState)
    ensures IsPlaying(r)
  {
    Playing
  }

  /** `StartGame`: from any state the game is playing again, and the background music starts. */
  function StartGame(s: GameState): (r: Transition)
    ensures IsPlaying(r.state)
    ensures r.events == [MusicStarted("bgm")]
  {
    Transition(Playing, [MusicStarted("bgm")])
  }

  /** `WinGame`: a game in progress is won with the win sound; an ended game is left as it is. */
  function WinGame(s: GameState): (r: Transition)
    ensures IsPlaying(s) ==> r.state == Won && r.events == [SoundPlayed("win")]
    ensures !IsPlaying(s) ==> r == Transition(s, [])
  {
    if s != Playing then Transition(s, [])
    else Transition(Won, [SoundPlayed("win")])
  }

  /** `LoseGame`: a game in progress is lost with the lose sound; an ended game is left as it is. */
  function LoseGame(s: GameState): (r: Transition)
    ensures IsPlaying(s) ==> r.state == Lost && r.events == [SoundPlayed("lose")]
    ensures !IsPlaying(s) ==> r == Transition(s, [])
  {
    if s != Playing then Transition(s, [])
    else Transition(Lost, [SoundPlayed("lose")])
  }

  /** The three public transitions, as commands. */
  datatype Command = Start | Win | Lose

  function Step(s: GameState, c: Command): Transition {
    match c
    case Start => StartGame(s)
    case Win => WinGame(s)
    case Lose => LoseGame(s)
  }

  /** A run of commands: the final state and every event in order. */
  function Run(s: GameState, cs: seq<Command>): Transition
    decreases |cs|
  {
    if cs == [] then Transition(s, [])
    else
      var t := Step(s, cs[0]);
      var rest := Run(t.state, cs[1..]);
      Transition(rest.state, t.events + rest.events)
  }

  /** Whatever happens first decides the game: a second win or loss cannot overturn it. */
  lemma OutcomeIsFinal(s: GameState, c: Command)
    requires !IsPlaying(s) && c != Start
    ensures Step(s, c) == Transition(s, [])
  {
  }

  /** Without a restart an ended game stays as it is, and nothing is played. */
  lemma {:induction false} EndedStaysEnded(s: GameState, cs: seq<Command>)
    requires !IsPlaying(s) && Start !in cs
    ensures Run(s, cs) == Transition(s, [])
    decreases |cs|
  {
    if cs != [] {
      assert cs[0] in cs;
      OutcomeIsFinal(s, cs[0]);
      assert forall c :: c in cs[1..] ==> c in cs;
      EndedStaysEnded(s, cs[1..]);
    }
  }

  /**
   * Without a restart a game ends at most once: at most one win or lose sound, and the final state
   * is playing exactly when nothing was played.
   */
  lemma {:induction false} AtMostOneOutcome(s: GameState, cs: seq<Command>)
    requires Start !in cs
    ensures |Run(s, cs).events| <= 1
    ensures IsPlaying(Run(s, cs).state) <==> IsPlaying(s) && Run(s, cs).events == []
    ensures !IsPlaying(s) ==> Run(s, cs).state == s
    decreases |cs|
  {
    if cs != [] {
      assert cs[0] in cs;
      assert forall c :: c in cs[1..] ==> c in cs;
      var t := Step(s, cs[0]);
      EndedStaysEnded(t.state, cs[1..]);
    }
  }
}
