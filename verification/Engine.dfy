/** The headless game engine's rules: clues, reveals and turns in all three modes. */
module Engine {
  import opened Common
  import opened JsText
  import opened GameRules

  const CLUE_NUMBER_MAX: int := 9
  const CLUE_NUMBER_UNLIMITED: int := -1
  const MAX_ENTRIES: nat := 200
  const DUET_TOKENS: nat := 9
  const DUET_GREENS: nat := 15

  datatype Clue = Clue(team: Team, word: Text, number: int, spymaster: Text)

  datatype Entry =
    | ClueGiven(clue: Clue, guessesAllowed: nat)
    | Revealed(index: nat, card: Card, team: Team, guessNumber: nat)
    | TurnEnded(fromTeam: Team, toTeam: Team)

  /** `duetTypes` is the second perspective of a duet board, `cardScores` the card values
      of a match board. */
  datatype Game = Game(
    mode: Mode, types: seq<Card>, duetTypes: seq<Card>, cardScores: seq<int>,
    revealed: seq<bool>, revealedBy: seq<Option<Team>>, turn: Team,
    redScore: nat, blueScore: nat, redTotal: nat, blueTotal: nat, gameOver: bool, winner: Option<Team>,
    currentClue: Option<Clue>, guessesUsed: nat, guessesAllowed: nat,
    clues: seq<Clue>, history: seq<Entry>, stateVersion: nat,
    timerTokens: nat, greenFound: nat, greenTotal: nat, redMatchScore: int, blueMatchScore: int)

  datatype Refusal = InvalidIndex | GameIsOver | NoClueGiven | NoGuessesRemaining | AlreadyRevealed

  // ---- Small rules ----

  /** A clue number as a caller may pass it. */
  datatype Number = NotFinite | Finite(value: real)

  function Truncated(x: real): int {
    if x >= 0.0 then x.Floor else 0 - (0.0 - x).Floor
  }

  function ClampClueNumber(n: Number): (r: int)
    ensures CLUE_NUMBER_UNLIMITED <= r <= CLUE_NUMBER_MAX
  {
    if n.NotFinite? then 0 else
    var t := Truncated(n.value);
    if t < CLUE_NUMBER_UNLIMITED then CLUE_NUMBER_UNLIMITED else if t > CLUE_NUMBER_MAX then CLUE_NUMBER_MAX else t
  }

  /** 0 stands for no limit. */
  function GuessesForClue(n: int): nat {
    if n >= 1 then n + 1 else 0
  }

  /** One more entry, trimmed to the cap, and one more version. */
  function Recorded(g: Game, e: Entry): Game {
    g.(history := LastN(MAX_ENTRIES, g.history + [e]), stateVersion := g.stateVersion + 1)
  }

  function ClueEntry(team: Team, word: Text, number: Number, spymaster: Text): Entry {
    var n := ClampClueNumber(number);
    ClueGiven(Clue(team, word, n, spymaster), GuessesForClue(n))
  }

  function ApplyClue(g: Game, team: Team, word: Text, number: Number, spymaster: Text): Game {
    var e := ClueEntry(team, word, number, spymaster);
    Recorded(g.(currentClue := Some(e.clue), guessesUsed := 0, guessesAllowed := e.guessesAllowed, clues := g.clues + [e.clue]), e)
  }

  function SwitchTurn(g: Game): Game {
    g.(turn := Other(g.turn), currentClue := None, guessesUsed := 0, guessesAllowed := 0)
  }

  function ApplyEndTurn(g: Game): Game {
    Recorded(SwitchTurn(g), TurnEnded(g.turn, Other(g.turn)))
  }

  // ---- Revealing ----

  predicate Sized(g: Game) {
    && |g.types| == |g.revealed| == |g.revealedBy| == |g.cardScores| == BOARD_SIZE
    && (g.mode == Duet ==> |g.duetTypes| == BOARD_SIZE)
  }

  function Refused(g: Game, index: int): Option<Refusal>
    requires Sized(g)
  {
    if index < 0 || index >= BOARD_SIZE then Some(InvalidIndex)
    else if g.gameOver then Some(GameIsOver)
    else if g.currentClue.None? then Some(NoClueGiven)
    else if g.guessesAllowed > 0 && g.guessesUsed >= g.guessesAllowed then Some(NoGuessesRemaining)
    else if g.revealed[index] then Some(AlreadyRevealed)
    else None
  }

  /** The card as the team to move sees it. */
  function Face(g: Game, index: nat): Card
    requires Sized(g) && index < BOARD_SIZE
  {
    if g.mode == Duet && g.turn == Blue then g.duetTypes[index] else g.types[index]
  }

  function ScoreOf(g: Game, index: nat): int
    requires Sized(g) && index < BOARD_SIZE
  {
    if g.mode == Match then g.cardScores[index] else 0
  }

  /** Whose score a card adds to: its own team's, in a duet the team's that found it. */
  function ScorerOf(mode: Mode, turn: Team, card: Card): Option<Team> {
    if !IsAgent(card) then None else if mode == Duet then Some(turn) else Some(card.team)
  }

  /** Turn the card over and count it. */
  function Execute(g: Game, index: nat): Game
    requires Sized(g) && index < BOARD_SIZE
  {
    var scorer := ScorerOf(g.mode, g.turn, Face(g, index));
    g.(revealed := g.revealed[index := true], revealedBy := g.revealedBy[index := Some(g.turn)],
       redScore := g.redScore + (if scorer == Some(Red) then 1 else 0),
       blueScore := g.blueScore + (if scorer == Some(Blue) then 1 else 0),
       greenFound := g.greenFound + (if g.mode == Duet && scorer.Some? then 1 else 0), guessesUsed := g.guessesUsed + 1)
  }

  /** In a match the card's value goes to the team that revealed it. */
  function AddCardScore(g: Game, index: nat): Game
    requires Sized(g) && index < BOARD_SIZE
  {
    g.(redMatchScore := g.redMatchScore + (if g.turn == Red then ScoreOf(g, index) else 0),
       blueMatchScore := g.blueMatchScore + (if g.turn == Blue then ScoreOf(g, index) else 0))
  }

  function Uncover(g: Game, index: nat): Game
    requires Sized(g) && index < BOARD_SIZE
  {
    AddCardScore(Execute(g, index), index)
  }

  datatype EndReason = NotEnded | ByAssassin | Completed | MaxGuesses | TimerTokens | Unreachable

  datatype Outcome = Outcome(game: Game, turnEnded: bool, reason: EndReason)

  predicate OutOfGuesses(g: Game) {
    g.guessesAllowed > 0 && g.guessesUsed >= g.guessesAllowed
  }

  function Over(g: Game, winner: Option<Team>): Game {
    g.(gameOver := true, winner := winner)
  }

  function Decide(g: Game, card: Card): Outcome {
    var revealing := g.turn;
    if card == Assassin then Outcome(Over(g, Some(Other(revealing))), true, ByAssassin)
    else if g.redScore >= g.redTotal then Outcome(Over(g, Some(Red)), true, Completed)
    else if g.blueScore >= g.blueTotal then Outcome(Over(g, Some(Blue)), true, Completed)
    else if card != (if revealing == Red then Agent(Red) else Agent(Blue)) then Outcome(SwitchTurn(g), true, NotEnded)
    else if OutOfGuesses(g) then Outcome(SwitchTurn(g), true, MaxGuesses)
    else Outcome(g, false, NotEnded)
  }

  /** An unrevealed card that either perspective sees as an agent. */
  predicate IsFindable(g: Game, i: nat)
    requires Sized(g) && g.mode == Duet && i < BOARD_SIZE
  {
    !g.revealed[i] && (IsAgent(g.types[i]) || IsAgent(g.duetTypes[i]))
  }

  function Findable(g: Game, n: nat): nat
    requires Sized(g) && g.mode == Duet && n <= BOARD_SIZE
  {
    if n == 0 then 0 else Findable(g, n - 1) + if IsFindable(g, n - 1) then 1 else 0
  }

  /** The most agents this board can still yield, found ones included. */
  function Reach(g: Game): nat
    requires Sized(g) && g.mode == Duet
  {
    g.greenFound + Findable(g, BOARD_SIZE)
  }

  function Guarded(o: Outcome): Outcome
    requires Sized(o.game) && o.game.mode == Duet
  {
    if !o.game.gameOver && Reach(o.game) < o.game.greenTotal then Outcome(Over(o.game, None), true, Unreachable) else o
  }

  /** The duet's verdict before the guard that looks for a dead board. */
  function DecideDuetTurn(g: Game, card: Card): Outcome {
    var spent := g.(timerTokens := if g.timerTokens > 0 then g.timerTokens - 1 else 0);
    if card == Assassin then Outcome(Over(g, None), true, ByAssassin)
    else if g.greenFound >= (if g.greenTotal == 0 then DUET_GREENS else g.greenTotal) then
      Outcome(Over(g, Some(Red)), true, Completed)
    else if card == Neutral then
      if spent.timerTokens == 0 then Outcome(Over(spent, None), true, TimerTokens)
      else Outcome(SwitchTurn(spent), true, NotEnded)
    else if OutOfGuesses(g) then Outcome(SwitchTurn(g), true, MaxGuesses)
    else Outcome(g, false, NotEnded)
  }

  function Determine(g: Game, card: Card): Outcome
    requires Sized(g)
  {
    if g.mode != Duet then Decide(g, card) else Guarded(DecideDuetTurn(g, card))
  }

  function RevealEntry(g: Game, index: nat): Entry
    requires Sized(g) && index < BOARD_SIZE
  {
    Revealed(index, Face(g, index), g.turn, g.guessesUsed + 1)
  }

  function ApplyReveal(g: Game, index: int): Game
    requires Sized(g) && Refused(g, index).None?
  {
    Recorded(Determine(Uncover(g, index), Face(g, index)).game, RevealEntry(g, index))
  }

  // ---- Games ----

  datatype Layout = Layout(types: seq<Card>, duetTypes: seq<Card>, cardScores: seq<int>, redTotal: nat, blueTotal: nat, first: Team)

  function Created(mode: Mode, l: Layout): Game {
    Game(mode, l.types, l.duetTypes, l.cardScores, seq(BOARD_SIZE, _ => false), seq(BOARD_SIZE, _ => None), l.first,
         0, 0, l.redTotal, l.blueTotal, false, None, None, 0, 0, [], [], 1,
         if mode == Duet then DUET_TOKENS else 0, 0, if mode == Duet then DUET_GREENS else 0, 0, 0)
  }

  predicate Fits(mode: Mode, l: Layout) {
    |l.types| == |l.cardScores| == BOARD_SIZE && (mode == Duet ==> |l.duetTypes| == BOARD_SIZE)
  }

  datatype Action =
    | GiveClue(team: Team, word: Text, number: Number, spymaster: Text)
    | RevealCard(index: int)
    | PassTurn

  /** A refused reveal throws before it changes anything. */
  function Step(g: Game, a: Action): Game
    requires Sized(g)
  {
    match a
    case GiveClue(team, word, number, spymaster) => ApplyClue(g, team, word, number, spymaster)
    case RevealCard(index) => if Refused(g, index).Some? then g else ApplyReveal(g, index)
    case PassTurn => ApplyEndTurn(g)
  }

  /** The entry an action adds to the log of everything, if it is not refused. */
  function Logged(g: Game, a: Action): seq<Entry>
    requires Sized(g)
  {
    match a
    case GiveClue(team, word, number, spymaster) => [ClueEntry(team, word, number, spymaster)]
    case RevealCard(index) => if Refused(g, index).Some? then [] else [RevealEntry(g, index)]
    case PassTurn => [TurnEnded(g.turn, Other(g.turn))]
  }

  /** What never changes once a game is created. */
  predicate SameBoard(g: Game, h: Game) {
    && (g.mode, g.types, g.duetTypes, g.cardScores) == (h.mode, h.types, h.duetTypes, h.cardScores)
    && (g.redTotal, g.blueTotal, g.greenTotal) == (h.redTotal, h.blueTotal, h.greenTotal)
  }

  lemma DeterminedSized(g: Game, card: Card)
    requires Sized(g)
    ensures var r := Determine(g, card).game;
            Sized(r) && SameBoard(g, r) && r.revealed == g.revealed && r.revealedBy == g.revealedBy
  {
  }

  lemma StepSized(g: Game, a: Action)
    requires Sized(g)
    ensures Sized(Step(g, a)) && SameBoard(g, Step(g, a))
  {
    if a.RevealCard? && Refused(g, a.index).None? {
      DeterminedSized(Uncover(g, a.index), Face(g, a.index));
    }
  }
}
