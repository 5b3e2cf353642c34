/** What every run of the engine keeps. */
module EngineRuns {
  import opened Common
  import opened GameRules
  import opened Engine

  /** The game after a run, and the log of everything applied in it. */
  function After(g: Game, run: seq<Action>): (r: Game)
    requires Sized(g)
    ensures Sized(r)
  {
    if run == [] then g else
      var before := After(g, run[..|run|-1]);
      StepSized(before, run[|run|-1]);
      Step(before, run[|run|-1])
  }

  function Log(g: Game, run: seq<Action>): seq<Entry>
    requires Sized(g)
  {
    if run == [] then [] else
      Log(g, run[..|run|-1]) + Logged(After(g, run[..|run|-1]), run[|run|-1])
  }

  // ---- History and versions ----

  lemma VerdictRecordsNothing(g: Game, card: Card)
    requires Sized(g)
    ensures var r := Determine(g, card).game;
            (r.history, r.stateVersion, r.clues) == (g.history, g.stateVersion, g.clues)
  {
  }

  lemma Recording(g: Game, a: Action)
    requires Sized(g)
    ensures var e, next := Logged(g, a), Step(g, a);
            && |e| <= 1
            && next.stateVersion == g.stateVersion + |e|
            && next.history == if e == [] then g.history else LastN(MAX_ENTRIES, g.history + e)
  {
    if a.RevealCard? && Refused(g, a.index).None? {
      VerdictRecordsNothing(Uncover(g, a.index), Face(g, a.index));
    }
  }

  /** The stored history is the last 200 entries of the full log, and the version is one
      more than the number of actions applied. */
  lemma {:induction false} HistoryIsTheLogsTail(mode: Mode, l: Layout, run: seq<Action>)
    requires Fits(mode, l)
    ensures var g := After(Created(mode, l), run);
            && g.history == LastN(MAX_ENTRIES, Log(Created(mode, l), run))
            && g.stateVersion == 1 + |Log(Created(mode, l), run)|
  {
    if run != [] {
      var start, pre := Created(mode, l), run[..|run|-1];
      var g, e := After(start, pre), Logged(After(start, pre), run[|run|-1]);
      HistoryIsTheLogsTail(mode, l, pre);
      Recording(g, run[|run|-1]);
      if e != [] {
        LastNAppend(MAX_ENTRIES, Log(start, pre), e[0]);
        assert e == [e[0]];
      }
    }
  }

  function CluesOf(log: seq<Entry>): seq<Clue> {
    if log == [] then [] else
      CluesOf(log[..|log|-1]) + match log[|log|-1] { case ClueGiven(c, _) => [c] case _ => [] }
  }

  lemma CluesOfAppend(log: seq<Entry>, e: Entry)
    ensures CluesOf(log + [e]) == CluesOf(log) + match e { case ClueGiven(c, _) => [c] case _ => [] }
  {
    assert (log + [e])[..|log|] == log;
  }

  lemma StepClues(g: Game, a: Action)
    requires Sized(g)
    ensures Step(g, a).clues == g.clues + CluesOf(Logged(g, a))
  {
    var e := Logged(g, a);
    if e != [] {
      CluesOfAppend([], e[0]);
      assert [] + [e[0]] == e;
    }
    if a.RevealCard? && e != [] {
      VerdictRecordsNothing(Uncover(g, a.index), Face(g, a.index));
    }
  }

  /** The clue list is not capped: it has every clue of the log. */
  lemma {:induction false} CluesAreAllKept(mode: Mode, l: Layout, run: seq<Action>)
    requires Fits(mode, l)
    ensures After(Created(mode, l), run).clues == CluesOf(Log(Created(mode, l), run))
  {
    if run != [] {
      var start, pre, a := Created(mode, l), run[..|run|-1], run[|run|-1];
      var g, log := After(start, pre), Log(start, pre);
      var e := Logged(g, a);
      CluesAreAllKept(mode, l, pre);
      StepClues(g, a);
      if e == [] {
        assert log + e == log;
      } else {
        CluesOfAppend(log, e[0]);
        CluesOfAppend([], e[0]);
        assert [] + [e[0]] == e;
      }
    }
  }

  // ---- Scores ----

  /** How many revealed cards of a type there are among the first `n`. */
  function CardsShown(g: Game, card: Card, n: nat): nat
    requires Sized(g) && n <= BOARD_SIZE
  {
    if n == 0 then 0 else CardsShown(g, card, n - 1) + if g.revealed[n - 1] && g.types[n - 1] == card then 1 else 0
  }

  /** The value of the first `n` cards a team revealed. */
  function ValueShown(g: Game, team: Team, n: nat): int
    requires Sized(g) && n <= BOARD_SIZE
  {
    if n == 0 then 0 else ValueShown(g, team, n - 1) + if g.mode == Match && g.revealedBy[n - 1] == Some(team) then g.cardScores[n - 1] else 0
  }

  /** The value of all revealed cards among the first `n`. */
  function TotalShown(g: Game, n: nat): int
    requires Sized(g) && n <= BOARD_SIZE
  {
    if n == 0 then 0 else TotalShown(g, n - 1) + if g.mode == Match && g.revealed[n - 1] then g.cardScores[n - 1] else 0
  }

  /** How many of the first `n` cards a team found as agents from its own side of a duet. */
  function Found(g: Game, team: Team, n: nat): nat
    requires Sized(g) && g.mode == Duet && n <= BOARD_SIZE
  {
    if n == 0 then 0 else
      Found(g, team, n - 1)
      + if g.revealedBy[n - 1] == Some(team) && (if team == Blue then g.duetTypes[n - 1] else g.types[n - 1]).Agent? then 1 else 0
  }

  /** Scores are the cards: each team's score its revealed cards, in a duet the agents it
      found from its side, together all that are found, and each match score the values of the cards that team revealed. */
  ghost predicate ScoresAreCards(g: Game)
    requires Sized(g)
  {
    && (g.mode != Duet ==> g.redScore == CardsShown(g, Agent(Red), BOARD_SIZE) && g.blueScore == CardsShown(g, Agent(Blue), BOARD_SIZE))
    && (g.mode == Duet ==> g.redScore == Found(g, Red, BOARD_SIZE) && g.blueScore == Found(g, Blue, BOARD_SIZE))
    && (g.mode == Duet ==> g.greenFound == g.redScore + g.blueScore)
    && g.redMatchScore == ValueShown(g, Red, BOARD_SIZE)
    && g.blueMatchScore == ValueShown(g, Blue, BOARD_SIZE)
    && (forall i :: 0 <= i < BOARD_SIZE ==> (g.revealed[i] <==> g.revealedBy[i].Some?))
  }

  /** The parts of a game the scores speak of. */
  predicate SameScores(g: Game, h: Game) {
    && (g.mode, g.types, g.duetTypes, g.cardScores, g.revealed, g.revealedBy)
       == (h.mode, h.types, h.duetTypes, h.cardScores, h.revealed, h.revealedBy)
    && (g.redScore, g.blueScore, g.greenFound, g.redMatchScore, g.blueMatchScore)
       == (h.redScore, h.blueScore, h.greenFound, h.redMatchScore, h.blueMatchScore)
  }

  lemma {:induction false} SameShown(g: Game, h: Game, card: Card, team: Team, n: nat)
    requires Sized(g) && Sized(h) && SameScores(g, h) && n <= BOARD_SIZE
    ensures CardsShown(g, card, n) == CardsShown(h, card, n) && ValueShown(g, team, n) == ValueShown(h, team, n)
    ensures g.mode == Duet ==> Found(g, team, n) == Found(h, team, n)
  {
    if n > 0 {
      SameShown(g, h, card, team, n - 1);
    }
  }

  lemma SameScoresKept(g: Game, h: Game)
    requires Sized(g) && Sized(h) && SameScores(g, h) && ScoresAreCards(g)
    ensures ScoresAreCards(h)
  {
    SameShown(g, h, Agent(Red), Red, BOARD_SIZE);
    SameShown(g, h, Agent(Blue), Blue, BOARD_SIZE);
  }

  lemma {:induction false} UncoverShown(g: Game, index: nat, card: Card, team: Team, n: nat)
    requires Sized(g) && index < BOARD_SIZE && n <= BOARD_SIZE
    requires !g.revealed[index] && g.revealedBy[index].None?
    ensures var h := Uncover(g, index);
            && CardsShown(h, card, n) == CardsShown(g, card, n) + (if index < n && g.types[index] == card then 1 else 0)
            && ValueShown(h, team, n) == ValueShown(g, team, n) + (if index < n && g.turn == team then ScoreOf(g, index) else 0)
  {
    if n > 0 {
      UncoverShown(g, index, card, team, n - 1);
    }
  }

  lemma {:induction false} UncoverFound(g: Game, index: nat, team: Team, n: nat)
    requires Sized(g) && g.mode == Duet && index < BOARD_SIZE && n <= BOARD_SIZE && g.revealedBy[index].None?
    ensures Found(Uncover(g, index), team, n)
            == Found(g, team, n) + (if index < n && g.turn == team && IsAgent(Face(g, index)) then 1 else 0)
  {
    if n > 0 {
      UncoverFound(g, index, team, n - 1);
    }
  }

  lemma UncoverScores(g: Game, index: nat)
    requires Sized(g) && index < BOARD_SIZE && ScoresAreCards(g) && !g.revealed[index]
    ensures ScoresAreCards(Uncover(g, index))
  {
    UncoverShown(g, index, Agent(Red), Red, BOARD_SIZE);
    UncoverShown(g, index, Agent(Blue), Blue, BOARD_SIZE);
    if g.mode == Duet {
      UncoverFound(g, index, Red, BOARD_SIZE);
      UncoverFound(g, index, Blue, BOARD_SIZE);
    }
  }

  lemma DecideKeepsScores(g: Game, card: Card)
    ensures SameScores(g, Decide(g, card).game)
  {
  }

  lemma DuetKeepsScores(g: Game, card: Card)
    requires Sized(g) && g.mode == Duet
    ensures SameScores(g, Guarded(DecideDuetTurn(g, card)).game)
  {
    assert SameScores(g, DecideDuetTurn(g, card).game);
  }

  lemma DecidingKeepsScores(g: Game, card: Card, e: Entry)
    requires Sized(g)
    ensures SameScores(g, Recorded(Determine(g, card).game, e))
  {
    if g.mode == Duet {
      DuetKeepsScores(g, card);
    } else {
      DecideKeepsScores(g, card);
    }
  }

  lemma StepScores(g: Game, a: Action)
    requires Sized(g) && ScoresAreCards(g)
    ensures Sized(Step(g, a)) && ScoresAreCards(Step(g, a))
  {
    StepSized(g, a);
    if a.RevealCard? && Refused(g, a.index).None? {
      UncoverScores(g, a.index);
      var h := Uncover(g, a.index);
      DecidingKeepsScores(h, Face(g, a.index), RevealEntry(g, a.index));
      SameScoresKept(h, Step(g, a));
    } else {
      SameScoresKept(g, Step(g, a));
    }
  }

  lemma {:induction false} NothingShown(g: Game, card: Card, team: Team, n: nat)
    requires Sized(g) && n <= BOARD_SIZE
    requires forall i :: 0 <= i < BOARD_SIZE ==> !g.revealed[i] && g.revealedBy[i].None?
    ensures CardsShown(g, card, n) == 0 && ValueShown(g, team, n) == 0
    ensures g.mode == Duet ==> Found(g, team, n) == 0
  {
    if n > 0 {
      NothingShown(g, card, team, n - 1);
    }
  }

  lemma {:induction false} EveryRunScoresItsCards(mode: Mode, l: Layout, run: seq<Action>)
    requires Fits(mode, l)
    ensures ScoresAreCards(After(Created(mode, l), run))
  {
    if run == [] {
      NothingShown(Created(mode, l), Agent(Red), Red, BOARD_SIZE);
      NothingShown(Created(mode, l), Agent(Blue), Blue, BOARD_SIZE);
    } else {
      EveryRunScoresItsCards(mode, l, run[..|run|-1]);
      StepScores(After(Created(mode, l), run[..|run|-1]), run[|run|-1]);
    }
  }

  lemma {:induction false} SharesAddUp(g: Game, n: nat)
    requires Sized(g) && n <= BOARD_SIZE
    requires forall i :: 0 <= i < BOARD_SIZE ==> (g.revealed[i] <==> g.revealedBy[i].Some?)
    ensures ValueShown(g, Red, n) + ValueShown(g, Blue, n) == TotalShown(g, n)
  {
    if n > 0 {
      SharesAddUp(g, n - 1);
      if g.revealedBy[n - 1].Some? {
        match g.revealedBy[n - 1].value
        case Red =>
        case Blue =>
      }
    }
  }

  /** In a match no value is lost or counted twice: the two scores add up to the values of
      the revealed cards, whoever revealed them and whatever ended. */
  lemma MatchScoreIsConserved(l: Layout, run: seq<Action>)
    requires Fits(Match, l)
    ensures var g := After(Created(Match, l), run);
            g.redMatchScore + g.blueMatchScore == TotalShown(g, BOARD_SIZE)
  {
    EveryRunScoresItsCards(Match, l, run);
    SharesAddUp(After(Created(Match, l), run), BOARD_SIZE);
  }

  // ---- Guesses ----

  /** A running game has a guess left whenever it has a clue, and neither team is done. */
  ghost predicate Playable(g: Game)
    requires Sized(g)
  {
    !g.gameOver ==>
      && (g.guessesAllowed > 0 ==> g.guessesUsed < g.guessesAllowed)
      && g.winner.None?
      && (g.mode != Duet ==> g.redScore < g.redTotal && g.blueScore < g.blueTotal)
  }

  /** What a verdict may leave behind: an ended game, or one with guesses to spare. */
  predicate Settled(g: Game) {
    g.gameOver || ((g.guessesAllowed > 0 ==> g.guessesUsed < g.guessesAllowed) && g.winner.None?)
  }

  lemma ClassicIsSettled(g: Game, card: Card)
    requires !g.gameOver && g.winner.None?
    ensures var r := Decide(g, card).game;
            Settled(r) && (r.gameOver || (r.redScore < r.redTotal && r.blueScore < r.blueTotal))
  {
  }

  lemma DuetIsSettled(g: Game, card: Card)
    requires Sized(g) && g.mode == Duet && !g.gameOver && g.winner.None?
    ensures Settled(DecideDuetTurn(g, card).game) && Settled(Guarded(DecideDuetTurn(g, card)).game)
  {
  }

  lemma DecidingKeepsPlayable(g: Game, card: Card, e: Entry)
    requires Sized(g) && !g.gameOver && g.winner.None?
    ensures var r := Recorded(Determine(g, card).game, e); Sized(r) && Playable(r)
  {
    var d := Determine(g, card).game;
    DeterminedSized(g, card);
    if g.mode == Duet {
      DuetIsSettled(g, card);
    } else {
      ClassicIsSettled(g, card);
    }
  }

  lemma StepPlayable(g: Game, a: Action)
    requires Sized(g) && Playable(g)
    ensures Sized(Step(g, a)) && Playable(Step(g, a))
  {
    StepSized(g, a);
    if a.RevealCard? && Refused(g, a.index).None? {
      DecidingKeepsPlayable(Uncover(g, a.index), Face(g, a.index), RevealEntry(g, a.index));
    }
  }

  lemma {:induction false} EveryRunIsPlayable(mode: Mode, l: Layout, run: seq<Action>)
    requires Fits(mode, l) && l.redTotal > 0 && l.blueTotal > 0
    ensures Playable(After(Created(mode, l), run))
  {
    if run != [] {
      EveryRunIsPlayable(mode, l, run[..|run|-1]);
      StepPlayable(After(Created(mode, l), run[..|run|-1]), run[|run|-1]);
    }
  }

  /** So the engine never refuses a reveal for want of guesses: the turn has passed on
      before that can happen. Refusals have exactly the other four causes. */
  lemma {:induction false} ExactRefusals(mode: Mode, l: Layout, run: seq<Action>, index: int)
    requires Fits(mode, l) && l.redTotal > 0 && l.blueTotal > 0
    ensures var g := After(Created(mode, l), run);
            Refused(g, index).None? <==>
              0 <= index < BOARD_SIZE && !g.gameOver && g.currentClue.Some? && !g.revealed[index]
    ensures var g := After(Created(mode, l), run);
            && (Refused(g, index) == Some(InvalidIndex) <==> !(0 <= index < BOARD_SIZE))
            && (Refused(g, index) == Some(GameIsOver) <==> 0 <= index < BOARD_SIZE && g.gameOver)
            && (Refused(g, index) == Some(NoClueGiven) <==> 0 <= index < BOARD_SIZE && !g.gameOver && g.currentClue.None?)
            && Refused(g, index) != Some(NoGuessesRemaining)
  {
    EveryRunIsPlayable(mode, l, run);
  }
}
