/** The cooperative game ends as lost exactly when it cannot be won any more. */
module EngineDuet {
  import opened Common
  import opened Seeded
  import opened Board
  import opened GameRules
  import opened Engine
  import opened EngineRuns

  /** A duet that is not over can still find enough agents, has not found them yet, and
      has a token left. */
  ghost predicate Alive(g: Game) {
    && Sized(g) && g.mode == Duet && g.greenTotal > 0
    && (!g.gameOver ==> Reach(g) >= g.greenTotal > g.greenFound && g.timerTokens > 0)
  }

  predicate SameFinds(g: Game, h: Game) {
    (g.mode, g.types, g.duetTypes, g.revealed, g.greenFound) == (h.mode, h.types, h.duetTypes, h.revealed, h.greenFound)
  }

  lemma {:induction false} SameFindable(g: Game, h: Game, n: nat)
    requires Sized(g) && Sized(h) && g.mode == Duet && SameFinds(g, h) && n <= BOARD_SIZE
    ensures Findable(g, n) == Findable(h, n)
  {
    if n > 0 {
      SameFindable(g, h, n - 1);
    }
  }

  lemma {:induction false} UncoverFindable(g: Game, index: nat, n: nat)
    requires Sized(g) && g.mode == Duet && index < BOARD_SIZE && n <= BOARD_SIZE
    ensures Findable(Uncover(g, index), n) == Findable(g, n) - if index < n && IsFindable(g, index) then 1 else 0
  {
    if n > 0 {
      UncoverFindable(g, index, n - 1);
    }
  }

  /** Uncovering an agent keeps what is in reach; uncovering one from its blind side, or
      nothing, may only lose. */
  lemma UncoverReach(g: Game, index: nat)
    requires Sized(g) && g.mode == Duet && index < BOARD_SIZE && !g.revealed[index]
    ensures Reach(Uncover(g, index)) == Reach(g) - if IsFindable(g, index) && !IsAgent(Face(g, index)) then 1 else 0
  {
    UncoverFindable(g, index, BOARD_SIZE);
  }

  // ---- The game never drags a dead board along ----

  lemma VerdictIsAlive(g: Game, card: Card, e: Entry)
    requires Sized(g) && g.mode == Duet && g.greenTotal > 0 && !g.gameOver && g.timerTokens > 0
    ensures Alive(Recorded(Determine(g, card).game, e))
  {
    var d := DecideDuetTurn(g, card).game;
    SameFindable(g, d, BOARD_SIZE);
    DeterminedSized(g, card);
    SameFindable(g, Recorded(Determine(g, card).game, e), BOARD_SIZE);
  }

  lemma StepAlive(g: Game, a: Action)
    requires Alive(g)
    ensures Alive(Step(g, a))
  {
    StepSized(g, a);
    if a.RevealCard? {
      if Refused(g, a.index).None? {
        VerdictIsAlive(Uncover(g, a.index), Face(g, a.index), RevealEntry(g, a.index));
      }
    } else {
      SameFindable(g, Step(g, a), BOARD_SIZE);
    }
  }

  lemma {:induction false} RunAlive(g: Game, run: seq<Action>)
    requires Alive(g)
    ensures Alive(After(g, run))
  {
    if run != [] {
      RunAlive(g, run[..|run|-1]);
      StepAlive(After(g, run[..|run|-1]), run[|run|-1]);
    }
  }

  // ---- A dead board is dead ----

  /** Any player uncovering any card, with no rule to stop them. */
  function UncoverAll(g: Game, moves: seq<(Team, nat)>): (r: Game)
    requires Sized(g) && g.mode == Duet && forall i :: 0 <= i < |moves| ==> moves[i].1 < BOARD_SIZE
    ensures Sized(r) && r.mode == Duet
  {
    if moves == [] then g else
      var before := UncoverAll(g, moves[..|moves|-1]);
      var (team, index) := moves[|moves|-1];
      if before.revealed[index] then before else Uncover(before.(turn := team), index)
  }

  /** However the cards are uncovered, no more agents are found than were in reach: where
      the guard gives up, no way of playing on could have won. */
  lemma {:induction false} NothingBeyondReach(g: Game, moves: seq<(Team, nat)>)
    requires Sized(g) && g.mode == Duet && forall i :: 0 <= i < |moves| ==> moves[i].1 < BOARD_SIZE
    ensures UncoverAll(g, moves).greenFound <= Reach(UncoverAll(g, moves)) <= Reach(g)
  {
    if moves != [] {
      NothingBeyondReach(g, moves[..|moves|-1]);
      var before := UncoverAll(g, moves[..|moves|-1]);
      var (team, index) := moves[|moves|-1];
      if !before.revealed[index] {
        SameFindable(before, before.(turn := team), BOARD_SIZE);
        UncoverReach(before.(turn := team), index);
      }
    }
  }

  // ---- A live board can be won ----

  lemma {:induction false} FindOne(g: Game, n: nat) returns (i: nat)
    requires Sized(g) && g.mode == Duet && n <= BOARD_SIZE && Findable(g, n) > 0
    ensures i < n && IsFindable(g, i)
  {
    if IsFindable(g, n - 1) {
      i := n - 1;
    } else {
      i := FindOne(g, n - 1);
    }
  }

  lemma SameLast(g: Game, run: seq<Action>, h: Game, other: seq<Action>, a: Action)
    requires Sized(g) && Sized(h) && After(g, run) == After(h, other)
    ensures After(g, run + [a]) == After(h, other + [a])
  {
    assert (run + [a])[..|run|] == run && (other + [a])[..|other|] == other;
  }

  lemma LastSplit(a: seq<Action>, b: seq<Action>)
    requires b != []
    ensures b == b[..|b|-1] + [b[|b|-1]] && a + b == a + b[..|b|-1] + [b[|b|-1]]
  {
  }

  lemma {:induction false} AfterAppend(g: Game, a: seq<Action>, b: seq<Action>)
    requires Sized(g)
    ensures After(g, a + b) == After(After(g, a), b)
  {
    if b == [] {
      assert a + b == a;
    } else {
      var c, x := b[..|b|-1], b[|b|-1];
      LastSplit(a, b);
      AfterAppend(g, a, c);
      SameLast(g, a + c, After(g, a), c, x);
    }
  }

  function AntiClue(team: Team): Action {
    GiveClue(team, [], Finite(0.0), [])
  }

  lemma AfterOne(g: Game, a: Action)
    requires Sized(g)
    ensures After(g, [a]) == Step(g, a)
  {
    assert [a][..0] == [];
  }

  /** One turn's worth of moves that finds one more agent. */
  lemma OneMoreAgent(g: Game) returns (moves: seq<Action>)
    requires Alive(g) && !g.gameOver
    ensures var r := After(g, moves);
            && r.greenFound == g.greenFound + 1 && r.greenTotal == g.greenTotal
            && (r.gameOver ==> r.winner == Some(Red))
  {
    var i := FindOne(g, BOARD_SIZE);
    var h := g;
    moves := [];
    if !IsAgent(Face(g, i)) {
      moves := [PassTurn];
      h := Step(g, PassTurn);
      AfterOne(g, PassTurn);
      StepAlive(g, PassTurn);
    }
    var clue, show := AntiClue(h.turn), RevealCard(i);
    var told := Step(h, clue);
    StepAlive(h, clue);
    AfterOne(h, clue);
    AfterOne(told, show);
    AfterAppend(g, moves, [clue]);
    AfterAppend(g, moves + [clue], [show]);
    moves := moves + [clue] + [show];
    AgentShown(told, i);
  }

  lemma AgentShown(g: Game, i: nat)
    requires Alive(g) && !g.gameOver && i < BOARD_SIZE && !g.revealed[i] && IsAgent(Face(g, i))
    requires g.currentClue.Some? && g.guessesAllowed == 0
    ensures var r := Step(g, RevealCard(i));
            && r.greenFound == g.greenFound + 1 && r.greenTotal == g.greenTotal
            && (r.gameOver ==> r.winner == Some(Red))
  {
    var u := Uncover(g, i);
    UncoverReach(g, i);
    var d := DecideDuetTurn(u, Face(g, i)).game;
    SameFindable(u, d, BOARD_SIZE);
  }

  /** From every live state there is a way to win. */
  lemma WinIsPossible(g: Game) returns (moves: seq<Action>)
    requires Alive(g) && !g.gameOver
    ensures After(g, moves).gameOver && After(g, moves).winner == Some(Red)
    decreases g.greenTotal - g.greenFound
  {
    moves := OneMoreAgent(g);
    RunAlive(g, moves);
    var h := After(g, moves);
    if !h.gameOver {
      var more := WinIsPossible(h);
      AfterAppend(g, moves, more);
      moves := moves + more;
    }
  }

  /** A duet is only ever won with all its agents found. */
  predicate WinsAreEarned(g: Game) {
    g.winner.Some? ==> g.winner == Some(Red) && g.greenFound >= g.greenTotal
  }

  lemma StepReach(g: Game, a: Action)
    requires Sized(g) && g.mode == Duet && g.greenTotal > 0 && WinsAreEarned(g)
    ensures Sized(Step(g, a)) && Step(g, a).mode == Duet && Reach(Step(g, a)) <= Reach(g) && WinsAreEarned(Step(g, a))
  {
    StepSized(g, a);
    if a.RevealCard? && Refused(g, a.index).None? {
      var u := Uncover(g, a.index);
      UncoverReach(g, a.index);
      VerdictReach(u, Face(g, a.index), RevealEntry(g, a.index));
    } else {
      SameFindable(g, Step(g, a), BOARD_SIZE);
    }
  }

  lemma VerdictReach(g: Game, card: Card, e: Entry)
    requires Sized(g) && g.mode == Duet && g.greenTotal > 0 && WinsAreEarned(g)
    ensures var r := Recorded(Determine(g, card).game, e);
            Sized(r) && r.mode == Duet && Reach(r) == Reach(g) && WinsAreEarned(r)
  {
    DeterminedSized(g, card);
    SameFindable(g, Recorded(Determine(g, card).game, e), BOARD_SIZE);
  }

  lemma {:induction false} RunReach(g: Game, run: seq<Action>)
    requires Sized(g) && g.mode == Duet && g.greenTotal > 0 && WinsAreEarned(g)
    ensures var r := After(g, run); r.mode == Duet && r.greenTotal == g.greenTotal && Reach(r) <= Reach(g) && WinsAreEarned(r)
  {
    if run != [] {
      RunReach(g, run[..|run|-1]);
      StepReach(After(g, run[..|run|-1]), run[|run|-1]);
      StepSized(After(g, run[..|run|-1]), run[|run|-1]);
    }
  }

  /** The guard is exact: a running duet can still be won by some sequence of actions if
      and only if the agents in reach are enough. */
  lemma GuardIsExact(g: Game)
    requires Sized(g) && g.mode == Duet && !g.gameOver && g.winner.None?
    requires g.greenTotal > g.greenFound && g.timerTokens > 0
    ensures (exists moves :: After(g, moves).winner == Some(Red)) <==> Reach(g) >= g.greenTotal
  {
    if Reach(g) >= g.greenTotal {
      var moves := WinIsPossible(g);
    } else {
      forall moves ensures After(g, moves).winner != Some(Red) {
        RunReach(g, moves);
      }
    }
  }

  // ---- The board a duet is dealt ----

  datatype Pair = Pair(a: Card, b: Card)

  function DuetDeck(): (r: seq<Pair>)
    ensures |r| == BOARD_SIZE
  {
    Copies(3, Pair(Agent(Red), Agent(Blue))) + Copies(6, Pair(Agent(Red), Neutral)) + Copies(6, Pair(Neutral, Agent(Blue)))
    + Copies(1, Pair(Assassin, Assassin)) + Copies(2, Pair(Assassin, Neutral)) + Copies(2, Pair(Neutral, Assassin))
    + Copies(5, Pair(Neutral, Neutral))
  }

  predicate HasAgent(p: Pair) { IsAgent(p.a) || IsAgent(p.b) }

  function Agents(s: seq<Pair>): nat {
    if s == [] then 0 else Agents(s[..|s|-1]) + if HasAgent(s[|s|-1]) then 1 else 0
  }

  lemma {:induction false} AgentsAppend(a: seq<Pair>, b: seq<Pair>)
    ensures Agents(a + b) == Agents(a) + Agents(b)
  {
    if b == [] {
      assert a + b == a;
    } else {
      AgentsAppend(a, b[..|b|-1]);
      assert (a + b)[..|a + b|-1] == a + b[..|b|-1];
    }
  }

  lemma {:induction false} AgentsOfCopies(n: nat, p: Pair)
    ensures Agents(Copies(n, p)) == if HasAgent(p) then n else 0
  {
    if n > 0 {
      AgentsOfCopies(n - 1, p);
      assert Copies(n, p)[..n - 1] == Copies(n - 1, p);
    }
  }

  lemma CardsWithoutOne(t: seq<Pair>, k: nat)
    requires k < |t|
    ensures multiset(t[..k] + t[k + 1..]) == multiset(t) - multiset{t[k]}
  {
    assert t == t[..k] + [t[k]] + t[k + 1..];
  }

  lemma AgentsAround(a: seq<Pair>, x: Pair, b: seq<Pair>)
    ensures Agents(a + [x] + b) == Agents(a + b) + if HasAgent(x) then 1 else 0
  {
    AgentsAppend(a + [x], b);
    AgentsAppend(a, b);
    assert (a + [x])[..|a|] == a;
  }

  lemma AgentsWithoutOne(t: seq<Pair>, k: nat)
    requires k < |t|
    ensures Agents(t) == Agents(t[..k] + t[k + 1..]) + if HasAgent(t[k]) then 1 else 0
  {
    assert t == t[..k] + [t[k]] + t[k + 1..];
    AgentsAround(t[..k], t[k], t[k + 1..]);
  }

  lemma {:induction false} AgentsOfPermutation(s: seq<Pair>, t: seq<Pair>)
    requires multiset(s) == multiset(t)
    ensures Agents(s) == Agents(t)
  {
    if s == [] {
      assert |t| == |multiset(t)| == 0;
    } else {
      var pre, x := s[..|s|-1], s[|s|-1];
      assert s == pre + [x];
      assert x in multiset(t);
      var k :| 0 <= k < |t| && t[k] == x;
      CardsWithoutOne(t, k);
      AgentsOfPermutation(pre, t[..k] + t[k + 1..]);
      AgentsWithoutOne(t, k);
    }
  }

  lemma DeckAgents()
    ensures Agents(DuetDeck()) == DUET_GREENS
  {
    var a, b, c := Copies(3, Pair(Agent(Red), Agent(Blue))), Copies(6, Pair(Agent(Red), Neutral)), Copies(6, Pair(Neutral, Agent(Blue)));
    var d, e, f := Copies(1, Pair(Assassin, Assassin)), Copies(2, Pair(Assassin, Neutral)), Copies(2, Pair(Neutral, Assassin));
    var g := Copies(5, Pair(Neutral, Neutral));
    AgentsAppend(a + b + c + d + e + f, g);
    AgentsAppend(a + b + c + d + e, f);
    AgentsAppend(a + b + c + d, e);
    AgentsAppend(a + b + c, d);
    AgentsAppend(a + b, c);
    AgentsAppend(a, b);
    AgentsOfCopies(3, Pair(Agent(Red), Agent(Blue)));
    AgentsOfCopies(6, Pair(Agent(Red), Neutral));
    AgentsOfCopies(6, Pair(Neutral, Agent(Blue)));
    AgentsOfCopies(1, Pair(Assassin, Assassin));
    AgentsOfCopies(2, Pair(Assassin, Neutral));
    AgentsOfCopies(2, Pair(Neutral, Assassin));
    AgentsOfCopies(5, Pair(Neutral, Neutral));
  }

  /** A duet board: one shuffle of the pairs, each side its half. */
  function DuetLayout(random: Generator, seed: int, cardScores: seq<int>): Layout {
    var pairs := Shuffle(DuetDeck(), seed + 500, random);
    Layout(seq(|pairs|, i requires 0 <= i < |pairs| => pairs[i].a), seq(|pairs|, i requires 0 <= i < |pairs| => pairs[i].b),
           cardScores, 9, 9, FirstTeam(random, seed))
  }

  lemma {:induction false} FindableIsAgents(g: Game, pairs: seq<Pair>, n: nat)
    requires Sized(g) && g.mode == Duet && n <= |pairs| == BOARD_SIZE
    requires forall i :: 0 <= i < BOARD_SIZE ==> !g.revealed[i] && g.types[i] == pairs[i].a && g.duetTypes[i] == pairs[i].b
    ensures Findable(g, n) == Agents(pairs[..n])
  {
    if n > 0 {
      FindableIsAgents(g, pairs, n - 1);
      assert pairs[..n][..n - 1] == pairs[..n - 1];
    }
  }

  lemma DealtDuetIsAlive(random: Generator, seed: int, cardScores: seq<int>)
    requires |cardScores| == BOARD_SIZE
    ensures var l := DuetLayout(random, seed, cardScores);
            && Fits(Duet, l) && Alive(Created(Duet, l)) && Reach(Created(Duet, l)) == DUET_GREENS
  {
    var pairs := Shuffle(DuetDeck(), seed + 500, random);
    ShuffleKeepsCards(DuetDeck(), seed + 500, random);
    assert |pairs| == |multiset(pairs)| == |multiset(DuetDeck())| == BOARD_SIZE;
    AgentsOfPermutation(pairs, DuetDeck());
    DeckAgents();
    assert pairs[..BOARD_SIZE] == pairs;
    FindableIsAgents(Created(Duet, DuetLayout(random, seed, cardScores)), pairs, BOARD_SIZE);
  }

  /** So in every run of every duet a game that is not over can be played on to a win. */
  lemma EveryRunningDuetCanBeWon(random: Generator, seed: int, cardScores: seq<int>, run: seq<Action>)
    returns (moves: seq<Action>)
    requires |cardScores| == BOARD_SIZE
    ensures var start := Created(Duet, DuetLayout(random, seed, cardScores));
            && Fits(Duet, DuetLayout(random, seed, cardScores))
            && (!After(start, run).gameOver ==>
                After(start, run + moves).gameOver && After(start, run + moves).winner == Some(Red))
  {
    DealtDuetIsAlive(random, seed, cardScores);
    var start := Created(Duet, DuetLayout(random, seed, cardScores));
    RunAlive(start, run);
    moves := [];
    if !After(start, run).gameOver {
      moves := WinIsPossible(After(start, run));
      AfterAppend(start, run, moves);
    }
  }
}
