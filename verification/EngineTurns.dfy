/** Whose turn it is, what a clue grants, and what the log tells of the board, over every
    run of the engine. */
module EngineTurns {
  import opened Common
  import opened JsText
  import opened GameRules
  import opened Engine
  import opened EngineRuns
  import opened EngineVerdicts

  // ---- Clues ----

  /** The number kept for a clue: the caller's, cut to a whole number toward zero, or the
      nearer end of -1 to 9; 0 when it is not finite. */
  lemma ClampIsNearest(x: real)
    ensures ClampClueNumber(NotFinite) == 0
    ensures var n := ClampClueNumber(Finite(x));
            && (x >= 10.0 ==> n == 9) && (x <= -2.0 ==> n == -1)
            && (0.0 <= x < 10.0 ==> n as real <= x < (n + 1) as real)
            && (-2.0 < x < 0.0 ==> (n - 1) as real < x <= n as real)
  {
    if x < 0.0 {
      assert (0.0 - x).Floor as real <= 0.0 - x < ((0.0 - x).Floor + 1) as real;
    }
  }

  /** A clue from 1 on grants one guess more than its number, any other no limit. */
  predicate GrantsItsNumber(e: Entry) {
    e.ClueGiven? ==>
      && -1 <= e.clue.number <= 9
      && e.guessesAllowed == (if e.clue.number >= 1 then e.clue.number + 1 else 0)
  }

  ghost predicate CluesGrantTheirNumbers(log: seq<Entry>) {
    forall k :: 0 <= k < |log| ==> GrantsItsNumber(log[k])
  }

  lemma {:induction false} EveryClueGrantsItsNumber(mode: Mode, l: Layout, run: seq<Action>)
    requires Fits(mode, l)
    ensures CluesGrantTheirNumbers(Log(Created(mode, l), run))
  {
    if run != [] {
      EveryClueGrantsItsNumber(mode, l, run[..|run|-1]);
    }
  }

  lemma {:induction false} LastClueIsLogged(log: seq<Entry>)
    requires CluesGrantTheirNumbers(log)
    ensures LastClue(log).Some? ==> LastClue(log).value.ClueGiven? && GrantsItsNumber(LastClue(log).value)
  {
    if log != [] {
      LastClueIsLogged(log[..|log|-1]);
    }
  }

  /** The next reveal is the last one the log's last clue grants. */
  predicate LastGuess(log: seq<Entry>) {
    var clue := LastClue(log);
    clue.Some? && clue.value.ClueGiven? && clue.value.clue.number >= 1 && SinceClue(log) == clue.value.clue.number
  }

  lemma AfterOne(g: Game, run: seq<Action>, a: Action)
    requires Sized(g)
    ensures After(g, run + [a]) == Step(After(g, run), a)
    ensures Log(g, run + [a]) == Log(g, run) + Logged(After(g, run), a)
  {
    assert (run + [a])[..|run|] == run;
  }

  /** A clue is out as given, with no guess used, and the turn stays. */
  lemma ClueIsOut(mode: Mode, l: Layout, run: seq<Action>, team: Team, word: Text, number: Number, spymaster: Text)
    requires Fits(mode, l)
    ensures var g, next := After(Created(mode, l), run), After(Created(mode, l), run + [GiveClue(team, word, number, spymaster)]);
            && next.currentClue == Some(Clue(team, word, ClampClueNumber(number), spymaster))
            && next.guessesUsed == 0 && next.turn == g.turn && next.revealed == g.revealed
  {
    AfterOne(Created(mode, l), run, GiveClue(team, word, number, spymaster));
  }

  // ---- Turns ----

  /** The turn is the other team's, and no clue is out. */
  predicate Passed(g: Game, next: Game) {
    next.turn != g.turn && next.currentClue.None? && next.guessesUsed == 0 && next.guessesAllowed == 0
  }

  predicate Stayed(g: Game, next: Game) {
    next.turn == g.turn && next.currentClue == g.currentClue
  }

  lemma PassingPasses(mode: Mode, l: Layout, run: seq<Action>)
    requires Fits(mode, l)
    ensures var start := Created(mode, l);
            var g, next := After(start, run), After(start, run + [PassTurn]);
            && Passed(g, next) && next.revealed == g.revealed
            && Log(start, run + [PassTurn]) == Log(start, run) + [TurnEnded(g.turn, next.turn)]
  {
    AfterOne(Created(mode, l), run, PassTurn);
  }

  /** What the caller of an accepted reveal is told. */
  function Report(g: Game, index: nat): (bool, EndReason)
    requires Sized(g) && index < BOARD_SIZE
  {
    var o := Determine(Uncover(g, index), Face(g, index));
    (o.turnEnded, o.reason)
  }

  /** With its guess used, a clue is out of guesses exactly if this was its last. */
  lemma SpentIffLastGuess(g: Game, log: seq<Entry>, index: nat)
    requires Sized(g) && Playable(g) && !g.gameOver && g.currentClue.Some? && index < BOARD_SIZE
    requires Counting(g, log) && CluesGrantTheirNumbers(log)
    ensures OutOfGuesses(Uncover(g, index)) <==> LastGuess(log)
  {
    LastClueIsLogged(log);
  }

  /** What every run brings to its next reveal. */
  lemma ReadyToReveal(mode: Mode, l: Layout, run: seq<Action>, index: int)
    requires Fits(mode, l) && l.redTotal > 0 && l.blueTotal > 0
    requires Refused(After(Created(mode, l), run), index).None?
    ensures SameBoard(After(Created(mode, l), run), Created(mode, l))
    ensures OutOfGuesses(Uncover(After(Created(mode, l), run), index)) <==> LastGuess(Log(Created(mode, l), run))
    ensures After(Created(mode, l), run + [RevealCard(index)]) == ApplyReveal(After(Created(mode, l), run), index)
  {
    var start := Created(mode, l);
    EveryRunIsPlayable(mode, l, run);
    EveryGuessIsNumbered(mode, l, run);
    EveryClueGrantsItsNumber(mode, l, run);
    StepSizedRun(start, run);
    SpentIffLastGuess(After(start, run), Log(start, run), index);
    AfterOne(start, run, RevealCard(index));
  }

  lemma ClassicVerdict(g: Game, index: nat, last: bool)
    requires Sized(g) && g.mode != Duet && index < BOARD_SIZE && Refused(g, index).None?
    requires OutOfGuesses(Uncover(g, index)) <==> last
    ensures var next, own, report := ApplyReveal(g, index), g.types[index] == Agent(g.turn), Report(g, index);
            var complete := next.redScore >= next.redTotal || next.blueScore >= next.blueTotal;
            && (next.gameOver <==> g.types[index] == Assassin || complete)
            && (next.gameOver ==> Stayed(g, next))
            && (!next.gameOver && (!own || last) ==> Passed(g, next))
            && (!next.gameOver && own && !last ==> Stayed(g, next))
            && (report.0 <==> next.gameOver || Passed(g, next))
            && report.1 == if g.types[index] == Assassin then ByAssassin else if complete then EndReason.Completed
                           else if own && last then MaxGuesses else NotEnded
  {
  }

  /** After an accepted reveal in any run of a classic or match game: unless the game ends,
      the turn passes and the clue is cleared exactly if the card is not the revealing
      team's or it was the last guess the log's clue grants. The caller is told so, and
      why. */
  lemma RevealPassesTheTurnIff(mode: Mode, l: Layout, run: seq<Action>, index: int)
    requires Fits(mode, l) && mode != Duet && l.redTotal > 0 && l.blueTotal > 0
    requires Refused(After(Created(mode, l), run), index).None?
    ensures var start := Created(mode, l);
            var g, next, last := After(start, run), After(start, run + [RevealCard(index)]), LastGuess(Log(start, run));
            var own, report := l.types[index] == Agent(g.turn), Report(g, index);
            && (if !next.gameOver && (!own || last) then Passed(g, next) else Stayed(g, next))
            && (report.0 <==> next.gameOver || next.turn != g.turn)
            && (report.1 == ByAssassin <==> l.types[index] == Assassin)
            && (report.1 == EndReason.Completed <==> next.gameOver && l.types[index] != Assassin)
            && (report.1 == MaxGuesses <==> !next.gameOver && own && last)
            && (report.1 == NotEnded <==> !next.gameOver && (!own || !last))
  {
    ReadyToReveal(mode, l, run, index);
    ClassicVerdict(After(Created(mode, l), run), index, LastGuess(Log(Created(mode, l), run)));
  }

  lemma DuetVerdict(g: Game, index: nat, last: bool)
    requires Sized(g) && g.mode == Duet && g.greenTotal > 0 && index < BOARD_SIZE && Refused(g, index).None?
    requires OutOfGuesses(Uncover(g, index)) <==> last
    ensures var face := if g.turn == Blue then g.duetTypes[index] else g.types[index];
            var next, report := ApplyReveal(g, index), Report(g, index);
            var found := next.greenFound >= next.greenTotal;
            && next.timerTokens == (if face == Neutral && !found && g.timerTokens > 0 then g.timerTokens - 1 else g.timerTokens)
            && (!next.gameOver && (face == Neutral || last) ==> Passed(g, next))
            && (!next.gameOver && face != Neutral && !last ==> Stayed(g, next))
            && (report.0 <==> next.gameOver || Passed(g, next))
            && report.1 == if face == Assassin then ByAssassin else if found then EndReason.Completed
                           else if face == Neutral && next.timerTokens == 0 then TimerTokens
                           else if next.gameOver then Unreachable
                           else if face != Neutral && last then MaxGuesses else NotEnded
  {
    DuetReport(Uncover(g, index), Face(g, index), last);
  }

  lemma DuetReport(u: Game, face: Card, last: bool)
    requires Sized(u) && u.mode == Duet && u.greenTotal > 0 && !u.gameOver && (OutOfGuesses(u) <==> last)
    ensures var o := Determine(u, face);
            var found := o.game.greenFound >= o.game.greenTotal;
            && (o.game.greenFound, o.game.greenTotal) == (u.greenFound, u.greenTotal)
            && o.game.timerTokens == (if face == Neutral && !found && u.timerTokens > 0 then u.timerTokens - 1 else u.timerTokens)
            && (!o.game.gameOver && (face == Neutral || last) ==> Passed(u, o.game))
            && (!o.game.gameOver && face != Neutral && !last ==> Stayed(u, o.game))
            && (o.turnEnded <==> o.game.gameOver || Passed(u, o.game))
            && o.reason == if face == Assassin then ByAssassin else if found then EndReason.Completed
                           else if face == Neutral && o.game.timerTokens == 0 then TimerTokens
                           else if o.game.gameOver then Unreachable
                           else if face != Neutral && last then MaxGuesses else NotEnded
  {
  }

  /** The same in any run of a duet: the turn passes on a bystander, as the team to move
      sees the card, or on the clue's last guess. A bystander costs a token. */
  lemma DuetRevealPassesTheTurnIff(l: Layout, run: seq<Action>, index: int)
    requires Fits(Duet, l) && l.redTotal > 0 && l.blueTotal > 0
    requires Refused(After(Created(Duet, l), run), index).None?
    ensures var start := Created(Duet, l);
            var g, next, last := After(start, run), After(start, run + [RevealCard(index)]), LastGuess(Log(start, run));
            var face := if g.turn == Blue then l.duetTypes[index] else l.types[index];
            var found, report := next.greenFound >= 15, Report(g, index);
            && (!next.gameOver ==> if face == Neutral || last then Passed(g, next) else Stayed(g, next))
            && next.timerTokens == (if face == Neutral && !found && g.timerTokens > 0 then g.timerTokens - 1 else g.timerTokens)
            && (report.0 <==> next.gameOver || next.turn != g.turn)
            && report.1 == if face == Assassin then ByAssassin else if found then EndReason.Completed
                           else if face == Neutral && next.timerTokens == 0 then TimerTokens
                           else if next.gameOver then Unreachable
                           else if face != Neutral && last then MaxGuesses else NotEnded
  {
    ReadyToReveal(Duet, l, run, index);
    DuetVerdict(After(Created(Duet, l), run), index, LastGuess(Log(Created(Duet, l), run)));
  }

  /** The team to move, by the rules alone: the first team until it passes, or a reveal that
      does not end the game is a wrong card or the last guess. */
  function Mover(mode: Mode, l: Layout, run: seq<Action>): Team
    requires Fits(mode, l)
  {
    if run == [] then l.first else
      var pre, a := run[..|run|-1], run[|run|-1];
      var before := Mover(mode, l, pre);
      match a
      case GiveClue(_, _, _, _) => before
      case PassTurn => if before == Red then Blue else Red
      case RevealCard(i) =>
        var face := if mode == Duet && before == Blue && 0 <= i < 25 then l.duetTypes[i] else if 0 <= i < 25 then l.types[i] else Neutral;
        var wrong := if mode == Duet then face == Neutral else face != Agent(before);
        if Refused(After(Created(mode, l), pre), i).None? && !After(Created(mode, l), run).gameOver
           && (wrong || LastGuess(Log(Created(mode, l), pre)))
        then (if before == Red then Blue else Red) else before
  }

  /** In every run of a classic or match game the turn is the mover's. */
  lemma {:induction false} TurnIsTheMovers(mode: Mode, l: Layout, run: seq<Action>)
    requires Fits(mode, l) && mode != Duet && l.redTotal > 0 && l.blueTotal > 0
    ensures After(Created(mode, l), run).turn == Mover(mode, l, run)
  {
    if run != [] {
      var pre, a := run[..|run|-1], run[|run|-1];
      TurnIsTheMovers(mode, l, pre);
      assert run == pre + [a];
      match a
      case GiveClue(team, word, number, spymaster) => ClueIsOut(mode, l, pre, team, word, number, spymaster);
      case PassTurn => PassingPasses(mode, l, pre);
      case RevealCard(i) =>
        AfterOne(Created(mode, l), pre, a);
        if Refused(After(Created(mode, l), pre), i).None? {
          RevealPassesTheTurnIff(mode, l, pre, i);
        }
    }
  }

  lemma DuetMove(l: Layout, pre: seq<Action>, a: Action)
    requires Fits(Duet, l) && l.redTotal > 0 && l.blueTotal > 0 && !After(Created(Duet, l), pre + [a]).gameOver
    requires After(Created(Duet, l), pre).turn == Mover(Duet, l, pre)
    ensures After(Created(Duet, l), pre + [a]).turn == Mover(Duet, l, pre + [a])
  {
    assert (pre + [a])[..|pre|] == pre;
    match a
    case GiveClue(team, word, number, spymaster) => ClueIsOut(Duet, l, pre, team, word, number, spymaster);
    case PassTurn => PassingPasses(Duet, l, pre);
    case RevealCard(i) =>
      AfterOne(Created(Duet, l), pre, a);
      if Refused(After(Created(Duet, l), pre), i).None? {
        DuetRevealPassesTheTurnIff(l, pre, i);
      }
  }

  lemma OverStaysOver(g: Game, a: Action)
    requires Sized(g) && g.gameOver
    ensures Step(g, a).gameOver
  {
  }

  /** And of a duet that is not over. */
  lemma {:induction false} DuetTurnIsTheMovers(l: Layout, run: seq<Action>)
    requires Fits(Duet, l) && l.redTotal > 0 && l.blueTotal > 0 && !After(Created(Duet, l), run).gameOver
    ensures After(Created(Duet, l), run).turn == Mover(Duet, l, run)
  {
    if run != [] {
      var pre, a := run[..|run|-1], run[|run|-1];
      assert run == pre + [a];
      if After(Created(Duet, l), pre).gameOver {
        OverStaysOver(After(Created(Duet, l), pre), a);
      } else {
        DuetTurnIsTheMovers(l, pre);
        DuetMove(l, pre, a);
      }
    }
  }

  // ---- The log and the board ----

  /** The card a team sees there. */
  function FaceFor(l: Layout, mode: Mode, team: Team, i: nat): Card
    requires Fits(mode, l) && i < BOARD_SIZE
  {
    if mode == Duet && team == Blue then l.duetTypes[i] else l.types[i]
  }

  predicate LoggedAt(g: Game, mode: Mode, l: Layout, e: Entry)
    requires Sized(g) && Fits(mode, l)
  {
    e.Revealed? ==>
      && e.index < BOARD_SIZE && g.revealed[e.index] && g.revealedBy[e.index] == Some(e.team)
      && e.card == FaceFor(l, mode, e.team, e.index)
  }

  predicate Uncovers(e: Entry, i: nat) {
    e.Revealed? && e.index == i
  }

  ghost predicate UncoveredIn(log: seq<Entry>, i: nat) {
    exists k :: 0 <= k < |log| && Uncovers(log[k], i)
  }

  /** Each logged reveal names a card that is face up, who turned it over and what that
      team saw; and every card that is face up is logged. */
  ghost predicate Tells(log: seq<Entry>, g: Game, mode: Mode, l: Layout)
    requires Sized(g) && Fits(mode, l)
  {
    && (forall k :: 0 <= k < |log| ==> LoggedAt(g, mode, l, log[k]))
    && (forall i :: 0 <= i < BOARD_SIZE ==> (g.revealed[i] <==> UncoveredIn(log, i)))
  }

  lemma UncoveredAppend(log: seq<Entry>, e: Entry, i: nat)
    ensures UncoveredIn(log + [e], i) <==> UncoveredIn(log, i) || Uncovers(e, i)
  {
    if k :| 0 <= k < |log| && Uncovers(log[k], i) {
      assert Uncovers((log + [e])[k], i);
    }
    assert (log + [e])[|log|] == e;
  }

  lemma StepTells(g: Game, log: seq<Entry>, mode: Mode, l: Layout, a: Action)
    requires Sized(g) && Fits(mode, l) && SameBoard(g, Created(mode, l)) && Tells(log, g, mode, l)
    ensures Sized(Step(g, a)) && Tells(log + Logged(g, a), Step(g, a), mode, l)
  {
    StepSized(g, a);
    var next, es := Step(g, a), Logged(g, a);
    if es == [] {
      assert log + es == log;
    } else {
      assert es == [es[0]];
      forall i | 0 <= i < BOARD_SIZE ensures next.revealed[i] <==> UncoveredIn(log + es, i) {
        UncoveredAppend(log, es[0], i);
        if a.RevealCard? {
          RevealTurnsOver(g, a.index);
        }
      }
      if a.RevealCard? {
        RevealTurnsOver(g, a.index);
      }
    }
  }

  lemma RevealTurnsOver(g: Game, index: nat)
    requires Sized(g) && index < BOARD_SIZE && Refused(g, index).None?
    ensures var next := ApplyReveal(g, index);
            && next.revealed == g.revealed[index := true]
            && next.revealedBy == g.revealedBy[index := Some(g.turn)]
  {
    DeterminedSized(Uncover(g, index), Face(g, index));
  }

  /** In every run the log tells exactly which cards are face up, who turned each over and
      what they saw. */
  lemma {:induction false} LogTellsTheBoard(mode: Mode, l: Layout, run: seq<Action>)
    requires Fits(mode, l)
    ensures Tells(Log(Created(mode, l), run), After(Created(mode, l), run), mode, l)
  {
    if run != [] {
      var start, pre := Created(mode, l), run[..|run|-1];
      LogTellsTheBoard(mode, l, pre);
      StepSizedRun(start, pre);
      StepTells(After(start, pre), Log(start, pre), mode, l, run[|run|-1]);
    }
  }
}
