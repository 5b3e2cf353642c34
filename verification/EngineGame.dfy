/** The engine's game object, which its operations change in place. */
module EngineGame {
  import opened Common
  import opened JsText
  import opened GameRules
  import E = Engine

  datatype RevealResult = Refused(why: E.Refusal) | Shown(card: Card, turnEnded: bool, reason: E.EndReason)

  class Game {
    const mode: Mode
    const types: seq<Card>
    const duetTypes: seq<Card>
    const cardScores: seq<int>
    const redTotal: nat
    const blueTotal: nat
    const greenTotal: nat
    var revealed: seq<bool>
    var revealedBy: seq<Option<Team>>
    var currentTurn: Team
    var redScore: nat
    var blueScore: nat
    var gameOver: bool
    var winner: Option<Team>
    var currentClue: Option<E.Clue>
    var guessesUsed: nat
    var guessesAllowed: nat
    var clues: seq<E.Clue>
    var history: seq<E.Entry>
    var stateVersion: nat
    var timerTokens: nat
    var greenFound: nat
    var redMatchScore: int
    var blueMatchScore: int

    ghost function Value(): E.Game
      reads this
    {
      E.Game(mode, types, duetTypes, cardScores, revealed, revealedBy, currentTurn, redScore, blueScore, redTotal, blueTotal,
             gameOver, winner, currentClue, guessesUsed, guessesAllowed, clues, history, stateVersion,
             timerTokens, greenFound, greenTotal, redMatchScore, blueMatchScore)
    }

    constructor (mode: Mode, l: E.Layout)
      ensures Value() == E.Created(mode, l)
    {
      this.mode := mode;
      types, duetTypes, cardScores := l.types, l.duetTypes, l.cardScores;
      redTotal, blueTotal := l.redTotal, l.blueTotal;
      greenTotal := if mode == Duet then E.DUET_GREENS else 0;
      revealed, revealedBy := seq(BOARD_SIZE, _ => false), seq(BOARD_SIZE, _ => None);
      currentTurn, redScore, blueScore := l.first, 0, 0;
      gameOver, winner, currentClue := false, None, None;
      guessesUsed, guessesAllowed := 0, 0;
      clues, history, stateVersion := [], [], 1;
      timerTokens := if mode == Duet then E.DUET_TOKENS else 0;
      greenFound, redMatchScore, blueMatchScore := 0, 0, 0;
    }

    /** Append an entry, trim the history to its newest, and bump the version. */
    method Record(e: E.Entry)
      modifies this`history, this`stateVersion
      ensures Value() == E.Recorded(old(Value()), e)
    {
      history := history + [e];
      CapHistory();
      stateVersion := stateVersion + 1;
    }

    method CapHistory()
      modifies this`history
      ensures history == LastN(E.MAX_ENTRIES, old(history))
    {
      if |history| > E.MAX_ENTRIES {
        history := history[|history| - E.MAX_ENTRIES..];
      }
    }

    method ApplyEngineClue(team: Team, word: Text, clueNumber: E.Number, spymaster: Text)
      modifies this
      ensures Value() == E.ApplyClue(old(Value()), team, word, clueNumber, spymaster)
    {
      var number := E.ClampClueNumber(clueNumber);
      var clue := E.Clue(team, word, number, spymaster);
      currentClue := Some(clue);
      guessesUsed := 0;
      guessesAllowed := E.GuessesForClue(number);
      clues := clues + [clue];
      Record(E.ClueGiven(clue, guessesAllowed));
    }

    method SwitchTurn()
      modifies this`currentTurn, this`currentClue, this`guessesUsed, this`guessesAllowed
      ensures Value() == E.SwitchTurn(old(Value()))
    {
      currentTurn := if currentTurn == Red then Blue else Red;
      currentClue := None;
      guessesUsed := 0;
      guessesAllowed := 0;
    }

    method ApplyEngineEndTurn()
      modifies this
      ensures Value() == E.ApplyEndTurn(old(Value()))
    {
      var previousTurn := currentTurn;
      SwitchTurn();
      Record(E.TurnEnded(previousTurn, currentTurn));
    }

    /** Turn the card over and count it. */
    method ExecuteCardReveal(index: nat) returns (card: Card)
      requires E.Sized(Value()) && index < BOARD_SIZE
      modifies this`revealed, this`revealedBy, this`redScore, this`blueScore, this`greenFound, this`guessesUsed
      ensures Value() == E.Execute(old(Value()), index) && card == E.Face(old(Value()), index)
    {
      card := if mode == Duet && currentTurn == Blue then duetTypes[index] else types[index];
      TurnOver(index);
      CountCard(card);
    }

    method TurnOver(index: nat)
      requires index < |revealed| && index < |revealedBy|
      modifies this`revealed, this`revealedBy, this`guessesUsed
      ensures revealed == old(revealed)[index := true] && revealedBy == old(revealedBy)[index := Some(currentTurn)]
      ensures guessesUsed == old(guessesUsed) + 1
    {
      revealed := revealed[index := true];
      revealedBy := revealedBy[index := Some(currentTurn)];
      guessesUsed := guessesUsed + 1;
    }

    /** One more for the team whose card it is, in a duet for the team that found it. */
    method CountCard(card: Card)
      modifies this`redScore, this`blueScore, this`greenFound
      ensures var scorer := E.ScorerOf(mode, currentTurn, card);
              && redScore == old(redScore) + (if scorer == Some(Red) then 1 else 0)
              && blueScore == old(blueScore) + (if scorer == Some(Blue) then 1 else 0)
              && greenFound == old(greenFound) + (if mode == Duet && scorer.Some? then 1 else 0)
    {
      if mode == Duet {
        if card.Agent? {
          greenFound := greenFound + 1;
          if currentTurn == Red {
            redScore := redScore + 1;
          } else {
            blueScore := blueScore + 1;
          }
        }
      } else {
        if card == Agent(Red) {
          redScore := redScore + 1;
        } else if card == Agent(Blue) {
          blueScore := blueScore + 1;
        }
      }
    }

    /** A match adds the card's value to the score of the team that revealed it. */
    method AddCardScore(index: nat, revealingTeam: Team)
      requires E.Sized(Value()) && index < BOARD_SIZE && revealingTeam == currentTurn
      modifies this`redMatchScore, this`blueMatchScore
      ensures Value() == E.AddCardScore(old(Value()), index)
    {
      if mode == Match {
        if revealingTeam == Red {
          redMatchScore := redMatchScore + cardScores[index];
        } else {
          blueMatchScore := blueMatchScore + cardScores[index];
        }
      }
    }

    method IsDuetWinUnreachable() returns (r: bool)
      requires E.Sized(Value()) && mode == Duet
      ensures r <==> E.Reach(Value()) < greenTotal
    {
      var reachable := greenFound;
      for i := 0 to |types|
        invariant reachable == greenFound + E.Findable(Value(), i)
      {
        if !revealed[i] {
          var agentForA := types[i].Agent?;
          var agentForB := duetTypes[i].Agent?;
          if agentForA || agentForB {
            reachable := reachable + 1;
          }
        }
      }
      r := reachable < greenTotal;
    }

    method EndGame(team: Option<Team>)
      modifies this`gameOver, this`winner
      ensures Value() == E.Over(old(Value()), team)
    {
      gameOver := true;
      winner := team;
    }

    method DetermineRevealOutcome(card: Card) returns (turnEnded: bool, reason: E.EndReason)
      requires E.Sized(Value()) && mode != Duet
      modifies this
      ensures E.Outcome(Value(), turnEnded, reason) == E.Determine(old(Value()), card)
    {
      var revealingTeam := currentTurn;
      if card == Assassin {
        EndGame(Some(Other(revealingTeam)));
        return true, E.ByAssassin;
      }
      if redScore >= redTotal {
        EndGame(Some(Red));
        return true, E.Completed;
      }
      if blueScore >= blueTotal {
        EndGame(Some(Blue));
        return true, E.Completed;
      }
      if card != (if revealingTeam == Red then Agent(Red) else Agent(Blue)) {
        SwitchTurn();
        return true, E.NotEnded;
      }
      if guessesAllowed > 0 && guessesUsed >= guessesAllowed {
        SwitchTurn();
        return true, E.MaxGuesses;
      }
      return false, E.NotEnded;
    }

    /** The duet's verdict up to its guard. */
    method DetermineDuetTurn(card: Card) returns (turnEnded: bool, reason: E.EndReason)
      requires E.Sized(Value()) && mode == Duet
      modifies this
      ensures E.Outcome(Value(), turnEnded, reason) == E.DecideDuetTurn(old(Value()), card)
    {
      if card == Assassin {
        EndGame(None);
        return true, E.ByAssassin;
      }
      if greenFound >= (if greenTotal == 0 then E.DUET_GREENS else greenTotal) {
        EndGame(Some(Red));
        return true, E.Completed;
      }
      turnEnded, reason := false, E.NotEnded;
      if card == Neutral {
        timerTokens := if timerTokens > 0 then timerTokens - 1 else 0;
        if timerTokens == 0 {
          EndGame(None);
          return true, E.TimerTokens;
        }
        SwitchTurn();
        turnEnded := true;
      } else if guessesAllowed > 0 && guessesUsed >= guessesAllowed {
        SwitchTurn();
        turnEnded, reason := true, E.MaxGuesses;
      }
    }

    method DetermineDuetRevealOutcome(card: Card) returns (turnEnded: bool, reason: E.EndReason)
      requires E.Sized(Value()) && mode == Duet
      modifies this
      ensures E.Outcome(Value(), turnEnded, reason) == E.Determine(old(Value()), card)
    {
      ghost var before := Value();
      turnEnded, reason := DetermineDuetTurn(card);
      E.DeterminedSized(before, card);
      assert E.Sized(Value());
      if !gameOver {
        var unreachable := IsDuetWinUnreachable();
        if unreachable {
          EndGame(None);
          turnEnded, reason := true, E.Unreachable;
        }
      }
    }

    method ApplyEngineReveal(index: int) returns (r: RevealResult)
      requires E.Sized(Value())
      modifies this
      ensures match E.Refused(old(Value()), index) {
                case Some(why) => r == Refused(why) && Value() == old(Value())
                case None =>
                  var o := E.Determine(E.Uncover(old(Value()), index), E.Face(old(Value()), index));
                  r == Shown(E.Face(old(Value()), index), o.turnEnded, o.reason) && Value() == E.ApplyReveal(old(Value()), index)
              }
    {
      if index < 0 || index >= BOARD_SIZE {
        return Refused(E.InvalidIndex);
      }
      if gameOver {
        return Refused(E.GameIsOver);
      }
      if currentClue.None? {
        return Refused(E.NoClueGiven);
      }
      if guessesAllowed > 0 && guessesUsed >= guessesAllowed {
        return Refused(E.NoGuessesRemaining);
      }
      if revealed[index] {
        return Refused(E.AlreadyRevealed);
      }
      var revealingTeam := currentTurn;
      var card := ExecuteCardReveal(index);
      var guessNumber := guessesUsed;
      AddCardScore(index, revealingTeam);
      var turnEnded, reason;
      if mode == Duet {
        turnEnded, reason := DetermineDuetRevealOutcome(card);
      } else {
        turnEnded, reason := DetermineRevealOutcome(card);
      }
      Record(E.Revealed(index, card, revealingTeam, guessNumber));
      r := Shown(card, turnEnded, reason);
    }
  }
}
