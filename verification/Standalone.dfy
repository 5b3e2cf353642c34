/** The standalone game: dealing, revealing, ending turns, and the link it is saved in. */
module Standalone {
  import opened Common
  import opened JsText
  import opened Seeded
  import opened Board
  import opened GameRules
  import opened SavedLink
  import WordCodec

  datatype Game = Game(
    seed: Text, words: seq<Text>, customWords: bool,
    types: seq<Card>, revealed: seq<bool>, turn: Team,
    redScore: nat, blueScore: nat, redTotal: nat, blueTotal: nat,
    gameOver: bool, winner: Option<Team>)

  // ---- Dealing ----

  /** Types, turn, totals and fresh scores from a number; words and seed stay. */
  function SetupBoard(random: Generator, g: Game, n: int): Game {
    var first := FirstTeam(random, n);
    g.(types := Types(random, n), revealed := seq(BOARD_SIZE, _ => false), turn := first, redScore := 0, blueScore := 0,
       redTotal := Total(first, Red), blueTotal := Total(first, Blue), gameOver := false, winner := None)
  }

  function InitWithWords(random: Generator, g: Game, seed: Text, boardWords: seq<Text>): Option<Game> {
    if |boardWords| != BOARD_SIZE then None else
    Some(SetupBoard(random, g.(seed := seed, words := boardWords, customWords := true), Hash(seed)))
  }

  datatype WordSource = Default | Combined | Custom | File

  /** A word of a list: lists are trimmed line by line and empty lines skipped. */
  type Word = w: Text | w != [] witness [65]

  /** The word settings. `defaults` is the built-in list; the active list is a copy of it
      or another one, and is never the built-in array itself. */
  datatype Settings = Settings(random: Generator, defaults: seq<Word>, activeWords: seq<Text>, source: WordSource,
                               localized: Option<seq<Text>>)

  /** The word list argument: left out, the built-in array itself, or another array. */
  datatype WordList = Unspecified | Defaults | Given(words: seq<Text>)

  function Deduplicated(s: seq<Text>): seq<Text> {
    if s == [] then [] else
      var r := Deduplicated(s[..|s|-1]);
      if s[|s|-1] in r then r else r + [s[|s|-1]]
  }

  datatype WordChoice =
    | BuiltIn
    | WithBuiltIn(words: seq<Word>)
    | CustomOnly(words: seq<Word>)
    | FileWithBuiltIn(words: seq<Word>)
    | FileOnly(words: seq<Word>)

  /** The active list and source that a choice of words puts in place. */
  function Choose(settings: Settings, choice: WordChoice): Settings {
    match choice
    case BuiltIn => settings.(activeWords := settings.defaults, source := Default)
    case WithBuiltIn(words) =>
      settings.(activeWords := Deduplicated(settings.defaults + words), source := if words == [] then Default else Combined)
    case CustomOnly(words) => settings.(activeWords := words, source := Custom)
    case FileWithBuiltIn(words) => settings.(activeWords := Deduplicated(settings.defaults + words), source := File)
    case FileOnly(words) => settings.(activeWords := words, source := File)
  }

  function Pool(settings: Settings, list: WordList): seq<Text> {
    match list
    case Given(words) => words
    case Defaults => settings.defaults
    case Unspecified =>
      if settings.localized.Some? && (settings.source == Default || settings.source == Combined)
      then Deduplicated(settings.localized.value + settings.activeWords)
      else settings.activeWords
  }

  function DealtWords(random: Generator, pool: seq<Text>, seed: Text): (r: seq<Text>)
    requires |pool| >= BOARD_SIZE
    ensures |r| == 25 && forall k :: 0 <= k < 25 ==> r[k] == Shuffle(pool, Hash(seed), random)[k]
  {
    Shuffle(pool, Hash(seed), random)[..BOARD_SIZE]
  }

  function Init(settings: Settings, g: Game, seed: Text, list: WordList): Option<Game> {
    var pool := Pool(settings, list);
    if |pool| < BOARD_SIZE then None else
    var custom := list != Defaults && settings.source != Default;
    Some(SetupBoard(settings.random, g.(seed := seed, customWords := custom, words := DealtWords(settings.random, pool, seed)),
                    Hash(seed)))
  }

  // ---- Playing ----

  function IndexOf(types: seq<Card>, card: Card): (r: Option<nat>)
    ensures r.Some? ==> r.value < |types| && types[r.value] == card
    ensures r.None? ==> card !in types
  {
    if types == [] then None
    else if types[0] == card then Some(0)
    else var r := IndexOf(types[1..], card); if r.None? then None else Some(r.value + 1)
  }

  function CheckGameOver(g: Game): Game
    requires |g.revealed| == |g.types|
  {
    var assassin := IndexOf(g.types, Assassin);
    if assassin.Some? && g.revealed[assassin.value] then
      g.(gameOver := true, winner := if g.winner.None? then Some(Other(g.turn)) else g.winner)
    else if g.redScore >= g.redTotal then g.(gameOver := true, winner := Some(Red))
    else if g.blueScore >= g.blueTotal then g.(gameOver := true, winner := Some(Blue))
    else g
  }

  function Score(g: Game, i: nat): Game
    requires |g.revealed| == |g.types| && i < |g.types|
  {
    g.(revealed := g.revealed[i := true],
       redScore := g.redScore + if g.types[i] == Agent(Red) then 1 else 0,
       blueScore := g.blueScore + if g.types[i] == Agent(Blue) then 1 else 0)
  }

  function EndIfWrong(g: Game, card: Card): Game {
    if !g.gameOver && card != Agent(g.turn) then g.(turn := Other(g.turn)) else g
  }

  /** One click, when the player may click at all. */
  function Reveal(g: Game, i: nat): Game
    requires |g.revealed| == |g.types|
  {
    if i >= |g.types| || g.gameOver || g.revealed[i] then g else
    var scored := Score(g, i);
    var struck := if g.types[i] == Assassin then scored.(gameOver := true, winner := Some(Other(g.turn))) else scored;
    EndIfWrong(CheckGameOver(struck), g.types[i])
  }

  function EndTurn(g: Game): Game {
    if g.gameOver then g else g.(turn := Other(g.turn))
  }

  // ---- The link ----

  function Bits(revealed: seq<bool>): (r: Text)
    ensures |r| == |revealed| && forall i :: 0 <= i < |r| ==> r[i] == if revealed[i] then 49 else 48
  {
    seq(|revealed|, i requires 0 <= i < |revealed| => if revealed[i] then 49 else 48)
  }

  function Save(g: Game): Saved {
    Saved(g.seed, Bits(g.revealed), if g.turn == Blue then [98] else [114],
          if g.customWords && |g.words| == BOARD_SIZE then Some(WordCodec.EncodeWords(g.words)) else None)
  }

  /** The reveal restore loop over the first `n` characters. */
  function Restored(g: Game, bits: Text, n: nat): (r: Game)
    requires n <= |bits| && n <= BOARD_SIZE == |g.types| == |g.revealed|
    ensures |r.types| == |r.revealed| == BOARD_SIZE
  {
    if n == 0 then g else
      var before := Restored(g, bits, n - 1);
      if bits[n - 1] == 49 then Score(before, n - 1) else before
  }

  function RestoredBoard(b: Game, bits: Option<Text>): (r: Game)
    requires |b.types| == |b.revealed| == BOARD_SIZE
    ensures |r.types| == |r.revealed| == BOARD_SIZE
  {
    if bits.None? then b else Restored(b, bits.value, Min(|bits.value|, BOARD_SIZE))
  }

  function RestoredTurn(g: Game, t: Option<Text>): Game {
    if t == Some([98]) then g.(turn := Blue) else if t == Some([114]) then g.(turn := Red) else g
  }

  /** The board a link asks for, before its reveals. */
  function LoadBoard(settings: Settings, g: Game, p: Params): Option<Game> {
    if p.game.None? || p.game.value == [] then None else
    var boardWords := if p.w.None? || p.w.value == [] then None else WordCodec.DecodeWords(p.w.value);
    if boardWords.Some? && |boardWords.value| == BOARD_SIZE
    then InitWithWords(settings.random, g, p.game.value, boardWords.value)
    else Init(settings, g, p.game.value, Defaults)
  }

  /** Load a link over whatever game there is; no result when it names no game, or when
      there are too few words to deal one. */
  function Load(settings: Settings, g: Game, p: Params): Option<Game> {
    var board := LoadBoard(settings, g, p);
    if board.None? || |board.value.types| != BOARD_SIZE then None else
    Some(CheckGameOver(RestoredTurn(RestoredBoard(board.value, p.r), p.t)))
  }

  lemma BoardIsFresh(settings: Settings, g: Game, p: Params)
    requires LoadBoard(settings, g, p).Some?
    ensures var b := LoadBoard(settings, g, p).value; b == SetupBoard(settings.random, b, Hash(b.seed))
  {
  }

  // ---- What every standalone game satisfies ----

  /** How many cards of a type are revealed among the first `n`. */
  function Shown(types: seq<Card>, revealed: seq<bool>, card: Card, n: nat): nat
    requires n <= |types| && n <= |revealed|
  {
    if n == 0 then 0 else
      Shown(types, revealed, card, n - 1) + if types[n - 1] == card && revealed[n - 1] then 1 else 0
  }

  /** The board is the seed's, the scores are the revealed cards, and the outcome is what
      the board shows. */
  ghost predicate Consistent(random: Generator, g: Game) {
    var n := Hash(g.seed);
    var first := FirstTeam(random, n);
    && g.types == Types(random, n) && |g.types| == |g.revealed| == BOARD_SIZE
    && g.redTotal == Total(first, Red) && g.blueTotal == Total(first, Blue)
    && Scored(g) && Judged(g)
  }

  ghost predicate Scored(g: Game)
    requires |g.types| == |g.revealed| == BOARD_SIZE
  {
    && g.redScore == Shown(g.types, g.revealed, Agent(Red), |g.types|)
    && g.blueScore == Shown(g.types, g.revealed, Agent(Blue), |g.types|)
  }

  predicate AssassinShown(g: Game)
    requires |g.types| == |g.revealed|
  {
    var assassin := IndexOf(g.types, Assassin);
    assassin.Some? && g.revealed[assassin.value]
  }

  /** The game is over exactly when the assassin or a team's last card is revealed, and
      its winner is the other team, or the completed one. */
  ghost predicate Judged(g: Game)
    requires |g.types| == |g.revealed|
  {
    && (g.gameOver <==> AssassinShown(g) || g.redScore >= g.redTotal || g.blueScore >= g.blueTotal)
    && g.winner == (if AssassinShown(g) then Some(Other(g.turn))
                    else if g.redScore >= g.redTotal then Some(Red)
                    else if g.blueScore >= g.blueTotal then Some(Blue)
                    else None)
  }

  lemma {:induction false} ShownNone(types: seq<Card>, revealed: seq<bool>, card: Card, n: nat)
    requires n <= |types| && n <= |revealed| && forall i :: 0 <= i < n ==> !revealed[i]
    ensures Shown(types, revealed, card, n) == 0
  {
    if n > 0 {
      ShownNone(types, revealed, card, n - 1);
    }
  }

  lemma {:induction false} ShownOneMore(types: seq<Card>, revealed: seq<bool>, card: Card, i: nat, n: nat)
    requires n <= |types| && n <= |revealed| && i < |revealed| && !revealed[i]
    ensures Shown(types, revealed[i := true], card, n) ==
            Shown(types, revealed, card, n) + if i < n && types[i] == card then 1 else 0
  {
    if n > 0 {
      ShownOneMore(types, revealed, card, i, n - 1);
    }
  }

  lemma SetupIsConsistent(random: Generator, g: Game)
    ensures Consistent(random, SetupBoard(random, g, Hash(g.seed)))
  {
    var b := SetupBoard(random, g, Hash(g.seed));
    EveryBoardIsFair(random, Hash(g.seed));
    ShownNone(b.types, b.revealed, Agent(Red), BOARD_SIZE);
    ShownNone(b.types, b.revealed, Agent(Blue), BOARD_SIZE);
  }

  /** The team that starts has the larger share, one card more than the other, and both
      totals are the cards on the board. */
  lemma StarterHasTheLargerShare(random: Generator, g: Game, n: int)
    ensures var b := SetupBoard(random, g, n);
            && Count(b.types, Agent(b.turn)) == Count(b.types, Agent(Other(b.turn))) + 1
            && b.redTotal == Count(b.types, Agent(Red)) && b.blueTotal == Count(b.types, Agent(Blue))
  {
    EveryBoardIsFair(random, n);
  }

  /** There is one assassin, so the first one found is the one clicked. */
  lemma OneAssassin(types: seq<Card>, i: nat)
    requires Count(types, Assassin) == 1 && i < |types| && types[i] == Assassin
    ensures IndexOf(types, Assassin) == Some(i)
  {
    var k := IndexOf(types, Assassin).value;
    if k < i {
      TwoAreTwo(types, k, i, Assassin);
    } else if i < k {
      TwoAreTwo(types, i, k, Assassin);
    }
  }

  lemma TwoAreTwo(types: seq<Card>, i: nat, j: nat, card: Card)
    requires i < j < |types| && types[i] == types[j] == card
    ensures Count(types, card) >= 2
  {
    var a, b := types[..j], types[j..];
    assert types == a + b;
    CountAppend(a, b, card);
    OneIsOne(a, i, card);
    OneIsOne(b, 0, card);
  }

  lemma {:induction false} OneIsOne(types: seq<Card>, i: nat, card: Card)
    requires i < |types| && types[i] == card
    ensures Count(types, card) >= 1
  {
    if i < |types| - 1 {
      OneIsOne(types[..|types|-1], i, card);
    }
  }

  lemma RevealKeepsScores(g: Game, i: nat)
    requires |g.types| == |g.revealed| == BOARD_SIZE && Scored(g) && i < BOARD_SIZE && !g.revealed[i]
    ensures Scored(Score(g, i))
  {
    ShownOneMore(g.types, g.revealed, Agent(Red), i, BOARD_SIZE);
    ShownOneMore(g.types, g.revealed, Agent(Blue), i, BOARD_SIZE);
  }

  /** A click is judged as the board then shows. */
  lemma RevealIsJudged(g: Game, i: nat)
    requires |g.types| == |g.revealed| && Judged(g) && Count(g.types, Assassin) == 1
    requires i < |g.types| && !g.gameOver && !g.revealed[i]
    ensures Judged(Reveal(g, i))
  {
    var scored := Score(g, i);
    if g.types[i] == Assassin {
      OneAssassin(g.types, i);
      assert AssassinShown(scored);
    } else {
      assert AssassinShown(scored) <==> AssassinShown(g);
    }
  }

  lemma RevealIsScored(g: Game, i: nat)
    requires |g.types| == |g.revealed| == BOARD_SIZE && Scored(g)
    requires i < |g.types| && !g.gameOver && !g.revealed[i]
    ensures var r, s := Reveal(g, i), Score(g, i);
            && (r.types, r.revealed, r.redScore, r.blueScore) == (s.types, s.revealed, s.redScore, s.blueScore)
            && (r.seed, r.redTotal, r.blueTotal, r.words, r.customWords) == (g.seed, g.redTotal, g.blueTotal, g.words, g.customWords)
  {
  }

  lemma RevealKeeps(random: Generator, g: Game, i: nat)
    requires Consistent(random, g)
    ensures Consistent(random, Reveal(g, i))
  {
    if i < |g.types| && !g.gameOver && !g.revealed[i] {
      RevealKeepsScores(g, i);
      RevealIsScored(g, i);
      EveryBoardIsFair(random, Hash(g.seed));
      RevealIsJudged(g, i);
    }
  }

  lemma {:induction false} RestoringKeepsScores(g: Game, bits: Text, n: nat)
    requires n <= |bits| && n <= BOARD_SIZE == |g.types| == |g.revealed| && Scored(g)
    requires forall i :: 0 <= i < BOARD_SIZE ==> !g.revealed[i]
    ensures var r := Restored(g, bits, n);
            && Scored(r) && r.types == g.types
            && (forall i :: 0 <= i < BOARD_SIZE ==> (r.revealed[i] <==> i < n && bits[i] == 49))
            && r == g.(revealed := r.revealed, redScore := r.redScore, blueScore := r.blueScore)
  {
    if n > 0 {
      RestoringKeepsScores(g, bits, n - 1);
      if bits[n - 1] == 49 {
        RevealKeepsScores(Restored(g, bits, n - 1), n - 1);
      }
    }
  }
}
