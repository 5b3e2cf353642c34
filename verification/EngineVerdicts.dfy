/** How games end, and how guesses are numbered, over every run of the engine. */
module EngineVerdicts {
  import opened Common
  import opened GameRules
  import opened Engine
  import opened EngineRuns
  import opened EngineDuet

  // ---- Classic and match: who has won ----

  /** A revealed card with the face its revealer saw. */
  function Seen(g: Game, i: nat): Card
    requires Sized(g) && i < BOARD_SIZE
  {
    if g.mode == Duet && g.revealedBy[i] == Some(Blue) then g.duetTypes[i] else g.types[i]
  }

  predicate Hit(g: Game, i: nat)
    requires Sized(g) && i < BOARD_SIZE
  {
    g.revealed[i] && Seen(g, i) == Assassin
  }

  ghost predicate NobodyHit(g: Game)
    requires Sized(g)
  {
    forall i :: 0 <= i < BOARD_SIZE ==> !Hit(g, i)
  }

  /** The team that found all its cards, red before blue. */
  function Completed(g: Game): Option<Team> {
    if g.redScore >= g.redTotal then Some(Red) else if g.blueScore >= g.blueTotal then Some(Blue) else None
  }

  /** A game runs until a team is complete or the assassin is hit. The one who hits it
      loses, and it is hit once. */
  ghost predicate WonByTheBoard(g: Game)
    requires Sized(g)
  {
    if NobodyHit(g) then g.winner == Completed(g) && (g.gameOver <==> g.winner.Some?)
    else g.gameOver && exists i :: 0 <= i < BOARD_SIZE && Hit(g, i) && g.winner.Some? && g.revealedBy[i] == Some(Other(g.winner.value))
                                   && forall j :: 0 <= j < BOARD_SIZE && Hit(g, j) ==> j == i
  }

  /** The parts of a game its verdict speaks of. */
  predicate SameVerdict(g: Game, h: Game) {
    (g.mode, g.types, g.duetTypes, g.revealed, g.revealedBy, g.redScore, g.blueScore, g.redTotal, g.blueTotal, g.gameOver, g.winner)
    == (h.mode, h.types, h.duetTypes, h.revealed, h.revealedBy, h.redScore, h.blueScore, h.redTotal, h.blueTotal, h.gameOver, h.winner)
  }

  lemma SameHits(g: Game, h: Game)
    requires Sized(g) && Sized(h) && SameVerdict(g, h) && WonByTheBoard(g)
    ensures WonByTheBoard(h)
  {
    assert forall i :: 0 <= i < BOARD_SIZE ==> Hit(g, i) == Hit(h, i);
  }

  lemma UncoverHits(g: Game, index: nat)
    requires Sized(g) && index < BOARD_SIZE && !g.revealed[index]
    ensures var u := Uncover(g, index);
            && Sized(u) && u.revealedBy[index] == Some(g.turn) && Seen(u, index) == Face(g, index)
            && forall i :: 0 <= i < BOARD_SIZE ==> (Hit(u, i) <==> if i == index then Face(g, index) == Assassin else Hit(g, i))
  {
  }

  lemma DecidedByTheBoard(g: Game, index: nat)
    requires Sized(g) && g.mode != Duet && index < BOARD_SIZE && !g.gameOver && g.winner.None?
    requires g.revealedBy[index] == Some(g.turn)
    requires forall i :: 0 <= i < BOARD_SIZE ==> (Hit(g, i) ==> i == index)
    requires Hit(g, index) <==> g.types[index] == Assassin
    ensures WonByTheBoard(Decide(g, g.types[index]).game)
  {
    var d := Decide(g, g.types[index]).game;
    assert forall i :: 0 <= i < BOARD_SIZE ==> Hit(g, i) == Hit(d, i);
    if g.types[index] == Assassin {
      assert Hit(d, index);
      assert g.turn == Other(Other(g.turn));
    }
  }

  lemma StepIsWonByTheBoard(g: Game, a: Action)
    requires Sized(g) && g.mode != Duet && WonByTheBoard(g)
    ensures Sized(Step(g, a)) && WonByTheBoard(Step(g, a))
  {
    StepSized(g, a);
    if a.RevealCard? && Refused(g, a.index).None? {
      var u := Uncover(g, a.index);
      UncoverHits(g, a.index);
      assert NobodyHit(g);
      DecidedByTheBoard(u, a.index);
      SameHits(Decide(u, u.types[a.index]).game, Step(g, a));
    } else {
      SameHits(g, Step(g, a));
    }
  }

  /** In every run of a classic or match game the winner is the board's: the team that
      completed its cards, or the other team of the one that hit the assassin; and the
      game is over exactly when there is one. */
  lemma {:induction false} EveryGameIsWonByTheBoard(mode: Mode, l: Layout, run: seq<Action>)
    requires Fits(mode, l) && mode != Duet && l.redTotal > 0 && l.blueTotal > 0
    ensures WonByTheBoard(After(Created(mode, l), run))
  {
    if run != [] {
      EveryGameIsWonByTheBoard(mode, l, run[..|run|-1]);
      StepSizedRun(Created(mode, l), run[..|run|-1]);
      StepIsWonByTheBoard(After(Created(mode, l), run[..|run|-1]), run[|run|-1]);
    } else {
      assert NobodyHit(Created(mode, l));
    }
  }

  lemma {:induction false} StepSizedRun(g: Game, run: seq<Action>)
    requires Sized(g)
    ensures SameBoard(g, After(g, run))
  {
    if run != [] {
      StepSizedRun(g, run[..|run|-1]);
      StepSized(After(g, run[..|run|-1]), run[|run|-1]);
    }
  }

  // ---- Duets: when they end, and what the tokens count ----

  /** How many of the first `n` cards were revealed as bystanders. */
  function Bystanders(g: Game, n: nat): nat
    requires Sized(g) && n <= BOARD_SIZE
  {
    if n == 0 then 0 else Bystanders(g, n - 1) + if g.revealed[n - 1] && Seen(g, n - 1) == Neutral then 1 else 0
  }

  /** A duet is won with all agents found; it is lost with an assassin hit, no token left
      or too few agents in reach; each bystander has cost one token. */
  ghost predicate DuetByTheBoard(g: Game, n: nat)
    requires Sized(g) && g.mode == Duet && n == BOARD_SIZE
  {
    && g.winner == (if g.greenFound >= g.greenTotal then Some(Red) else None)
    && (g.gameOver <==> g.greenFound >= g.greenTotal || !NobodyHit(g) || g.timerTokens == 0 || Reach(g) < g.greenTotal)
    && g.timerTokens + Bystanders(g, n) == DUET_TOKENS
  }

  predicate SameDuet(g: Game, h: Game) {
    && SameFinds(g, h) && g.revealedBy == h.revealedBy
    && (g.gameOver, g.winner, g.timerTokens, g.greenTotal) == (h.gameOver, h.winner, h.timerTokens, h.greenTotal)
  }

  lemma {:induction false} SameBystanders(g: Game, h: Game, n: nat)
    requires Sized(g) && Sized(h) && SameFinds(g, h) && g.revealedBy == h.revealedBy && n <= BOARD_SIZE
    ensures Bystanders(g, n) == Bystanders(h, n)
  {
    if n > 0 {
      SameBystanders(g, h, n - 1);
    }
  }

  lemma SameNobodyHit(g: Game, h: Game)
    requires Sized(g) && Sized(h) && SameFinds(g, h) && g.revealedBy == h.revealedBy
    ensures NobodyHit(g) <==> NobodyHit(h)
  {
    assert forall i :: 0 <= i < BOARD_SIZE ==> Hit(g, i) == Hit(h, i);
  }

  lemma SameDuetKept(g: Game, h: Game, n: nat)
    requires Sized(g) && Sized(h) && g.mode == Duet && SameDuet(g, h) && n == BOARD_SIZE && DuetByTheBoard(g, n)
    ensures DuetByTheBoard(h, n)
  {
    SameFindable(g, h, BOARD_SIZE);
    SameBystanders(g, h, n);
    SameNobodyHit(g, h);
  }

  lemma {:induction false} UncoverBystanders(g: Game, index: nat, n: nat)
    requires Sized(g) && index < BOARD_SIZE && n <= BOARD_SIZE && !g.revealed[index]
    ensures Bystanders(Uncover(g, index), n) == Bystanders(g, n) + if index < n && Face(g, index) == Neutral then 1 else 0
  {
    if n > 0 {
      UncoverBystanders(g, index, n - 1);
    }
  }

  /** The verdict on a card just uncovered, from what held before it was. */
  lemma DuetDecided(g: Game, card: Card, n: nat)
    requires Sized(g) && g.mode == Duet && n == BOARD_SIZE && g.greenTotal > 0
    requires !g.gameOver && g.winner.None? && g.timerTokens > 0
    requires NobodyHit(g) <==> card != Assassin
    requires g.greenFound >= g.greenTotal ==> IsAgent(card)
    requires g.timerTokens + Bystanders(g, n) == DUET_TOKENS + if card == Neutral then 1 else 0
    ensures Sized(Determine(g, card).game) && Determine(g, card).game.mode == Duet
    ensures DuetByTheBoard(Determine(g, card).game, n)
  {
    DeterminedSized(g, card);
    var r, d := Determine(g, card).game, DecideDuetTurn(g, card).game;
    SameFindable(g, d, BOARD_SIZE);
    SameFindable(g, r, BOARD_SIZE);
    SameBystanders(g, r, n);
    SameNobodyHit(g, r);
  }

  lemma StepIsDuet(g: Game, a: Action, n: nat)
    requires Sized(g) && g.mode == Duet && g.greenTotal > 0 && n == BOARD_SIZE && DuetByTheBoard(g, n)
    ensures Sized(Step(g, a)) && Step(g, a).mode == Duet && DuetByTheBoard(Step(g, a), n)
  {
    StepSized(g, a);
    if a.RevealCard? && Refused(g, a.index).None? {
      var u, card := Uncover(g, a.index), Face(g, a.index);
      UncoverHits(g, a.index);
      UncoverBystanders(g, a.index, n);
      assert NobodyHit(g);
      assert card == Assassin ==> Hit(u, a.index);
      DuetDecided(u, card, n);
      SameDuetKept(Determine(u, card).game, Step(g, a), n);
    } else {
      SameDuetKept(g, Step(g, a), n);
    }
  }

  lemma {:induction false} NoBystanders(g: Game, n: nat)
    requires Sized(g) && n <= BOARD_SIZE && forall i :: 0 <= i < BOARD_SIZE ==> !g.revealed[i]
    ensures Bystanders(g, n) == 0
  {
    if n > 0 {
      NoBystanders(g, n - 1);
    }
  }

  /** In every run of a duet whose board has enough agents, the game is over exactly when
      it is won, an assassin is hit, the tokens are used up or too few agents are in
      reach; it is won exactly with all agents found; and tokens and revealed bystanders
      always make nine. */
  lemma {:induction false} EveryDuetIsDecidedByTheBoard(l: Layout, run: seq<Action>, n: nat)
    requires Fits(Duet, l) && Reach(Created(Duet, l)) >= DUET_GREENS && n == BOARD_SIZE
    ensures After(Created(Duet, l), run).mode == Duet && DuetByTheBoard(After(Created(Duet, l), run), n)
  {
    var start := Created(Duet, l);
    if run != [] {
      EveryDuetIsDecidedByTheBoard(l, run[..|run|-1], n);
      StepSizedRun(start, run[..|run|-1]);
      StepIsDuet(After(start, run[..|run|-1]), run[|run|-1], n);
    } else {
      NoBystanders(start, n);
      assert NobodyHit(start);
    }
  }

  // ---- Guess numbers ----

  /** How many reveals the log holds since its last clue. */
  function SinceClue(log: seq<Entry>): nat {
    if log == [] || log[|log|-1].ClueGiven? then 0
    else SinceClue(log[..|log|-1]) + if log[|log|-1].Revealed? then 1 else 0
  }

  /** The last clue of the log, with its budget. */
  function LastClue(log: seq<Entry>): Option<Entry> {
    if log == [] then None else if log[|log|-1].ClueGiven? then Some(log[|log|-1]) else LastClue(log[..|log|-1])
  }

  /** Each reveal carries its place among the reveals of its clue, and there is no reveal
      without a clue or beyond its budget. */
  ghost predicate Numbered(log: seq<Entry>) {
    forall k :: 0 <= k < |log| && log[k].Revealed? ==> NumberedAt(log, k)
  }

  predicate NumberedAt(log: seq<Entry>, k: nat)
    requires k < |log| && log[k].Revealed?
  {
    var clue := LastClue(log[..k]);
    && log[k].guessNumber == SinceClue(log[..k]) + 1
    && clue.Some? && clue.value.ClueGiven?
    && (clue.value.guessesAllowed > 0 ==> log[k].guessNumber <= clue.value.guessesAllowed)
  }

  /** While a clue is out, the game counts the reveals of the log's last clue. */
  predicate Counting(g: Game, log: seq<Entry>) {
    g.currentClue.Some? ==>
      var clue := LastClue(log);
      g.guessesUsed == SinceClue(log) && clue.Some? && clue.value.ClueGiven? && clue.value.guessesAllowed == g.guessesAllowed
  }

  lemma NumberedAppend(log: seq<Entry>, e: Entry)
    requires Numbered(log)
    requires e.Revealed? ==> NumberedAt(log + [e], |log|)
    ensures Numbered(log + [e])
  {
    forall k | 0 <= k < |log| + 1 && (log + [e])[k].Revealed? ensures NumberedAt(log + [e], k) {
      if k < |log| {
        assert (log + [e])[..k] == log[..k];
        assert NumberedAt(log, k);
      }
    }
  }

  lemma AppendEntry(log: seq<Entry>, e: Entry)
    ensures SinceClue(log + [e]) == if e.ClueGiven? then 0 else SinceClue(log) + if e.Revealed? then 1 else 0
    ensures LastClue(log + [e]) == if e.ClueGiven? then Some(e) else LastClue(log)
  {
    assert (log + [e])[..|log|] == log;
  }

  lemma VerdictKeepsCount(g: Game, card: Card)
    requires Sized(g)
    ensures var r := Determine(g, card).game;
            r.currentClue.Some? ==> (r.currentClue, r.guessesUsed, r.guessesAllowed) == (g.currentClue, g.guessesUsed, g.guessesAllowed)
  {
  }

  lemma StepIsNumbered(g: Game, log: seq<Entry>, a: Action)
    requires Sized(g) && Playable(g) && Numbered(log) && Counting(g, log)
    ensures Numbered(log + Logged(g, a)) && Counting(Step(g, a), log + Logged(g, a))
  {
    var es := Logged(g, a);
    if es == [] {
      assert log + es == log;
    } else {
      AppendEntry(log, es[0]);
      assert es == [es[0]];
      if a.RevealCard? {
        VerdictKeepsCount(Uncover(g, a.index), Face(g, a.index));
        assert (log + es)[..|log|] == log;
      }
      NumberedAppend(log, es[0]);
    }
  }

  /** In the log of every run each reveal is numbered by its place under its clue, comes
      after a clue, and stays within that clue's budget. */
  lemma {:induction false} EveryGuessIsNumbered(mode: Mode, l: Layout, run: seq<Action>)
    requires Fits(mode, l) && l.redTotal > 0 && l.blueTotal > 0
    ensures Numbered(Log(Created(mode, l), run)) && Counting(After(Created(mode, l), run), Log(Created(mode, l), run))
  {
    if run != [] {
      var pre, start := run[..|run|-1], Created(mode, l);
      EveryGuessIsNumbered(mode, l, pre);
      EveryRunIsPlayable(mode, l, pre);
      StepIsNumbered(After(start, pre), Log(start, pre), run[|run|-1]);
    }
  }
}
