/** The page's game state, which dealing, clicking and loading change field by field. */
module StandaloneGame {
  import opened Common
  import opened JsText
  import opened Seeded
  import opened Board
  import opened GameRules
  import SavedLink
  import UrlQuery
  import S = Standalone
  import WordCodec

  class GameState {
    const random: Generator
    var seed: Text
    var words: seq<Text>
    var customWords: bool
    var types: seq<Card>
    var revealed: seq<bool>
    var currentTurn: Team
    var redScore: nat
    var blueScore: nat
    var redTotal: nat
    var blueTotal: nat
    var gameOver: bool
    var winner: Option<Team>

    ghost function Value(): S.Game
      reads this
    {
      S.Game(seed, words, customWords, types, revealed, currentTurn, redScore, blueScore, redTotal, blueTotal, gameOver, winner)
    }

    constructor (random: Generator)
      ensures this.random == random
    {
      this.random := random;
      seed, words, customWords, types, revealed := [], [], false, [], [];
      currentTurn, redScore, blueScore := Red, 0, 0;
      redTotal, blueTotal := FIRST_TEAM_CARDS, SECOND_TEAM_CARDS;
      gameOver, winner := false, None;
    }

    method SetupGameBoard(numericSeed: int)
      modifies this
      ensures Value() == S.SetupBoard(random, old(Value()), numericSeed)
    {
      var firstTeam := FirstTeam(random, numericSeed);
      currentTurn := firstTeam;
      var deck := SetupTotals(firstTeam);
      types := Shuffled(deck, numericSeed + 500);
      ResetPlay();
    }

    method ResetPlay()
      modifies this`revealed, this`redScore, this`blueScore, this`gameOver, this`winner
      ensures revealed == seq(BOARD_SIZE, _ => false) && redScore == 0 && blueScore == 0 && !gameOver && winner == None
    {
      revealed := seq(BOARD_SIZE, _ => false);
      redScore := 0;
      blueScore := 0;
      gameOver := false;
      winner := None;
    }

    /** The larger share for the first team; the cards in order. */
    method SetupTotals(firstTeam: Team) returns (deck: seq<Card>)
      modifies this`redTotal, this`blueTotal
      ensures redTotal == Total(firstTeam, Red) && blueTotal == Total(firstTeam, Blue) && deck == Deck(firstTeam)
    {
      if firstTeam == Red {
        deck := Copies(FIRST_TEAM_CARDS, Agent(Red)) + Copies(SECOND_TEAM_CARDS, Agent(Blue));
        redTotal := FIRST_TEAM_CARDS;
        blueTotal := SECOND_TEAM_CARDS;
      } else {
        deck := Copies(SECOND_TEAM_CARDS, Agent(Red)) + Copies(FIRST_TEAM_CARDS, Agent(Blue));
        redTotal := SECOND_TEAM_CARDS;
        blueTotal := FIRST_TEAM_CARDS;
      }
      deck := deck + Copies(NEUTRAL_CARDS, Neutral) + Copies(ASSASSIN_CARDS, Assassin);
    }

    /** A shuffled copy. */
    method Shuffled<T(0)>(s: seq<T>, seed: int) returns (r: seq<T>)
      ensures r == Shuffle(s, seed, random)
    {
      var a := new T[|s|](i requires 0 <= i < |s| => s[i]);
      assert a[..] == s;
      ShuffleWithSeed(a, seed, random);
      r := a[..];
    }

    method InitGameWithWords(newSeed: Text, boardWords: seq<Text>) returns (ok: bool)
      modifies this
      ensures S.InitWithWords(random, old(Value()), newSeed, boardWords) == if ok then Some(Value()) else None
      ensures !ok ==> Value() == old(Value())
    {
      if |boardWords| != BOARD_SIZE {
        return false;
      }
      seed := newSeed;
      words := boardWords;
      customWords := true;
      var numericSeed := HashString(newSeed);
      SetupGameBoard(numericSeed);
      ok := true;
    }

    method InitGame(settings: S.Settings, newSeed: Text, list: S.WordList) returns (ok: bool)
      requires settings.random == random
      modifies this
      ensures S.Init(settings, old(Value()), newSeed, list) == if ok then Some(Value()) else None
      ensures !ok ==> Value() == old(Value())
    {
      var pool := S.Pool(settings, list);
      if |pool| < BOARD_SIZE {
        return false;
      }
      seed := newSeed;
      customWords := list != S.Defaults && settings.source != S.Default;
      var numericSeed := HashString(newSeed);
      var shuffledWords := Shuffled(pool, numericSeed);
      words := shuffledWords[..BOARD_SIZE];
      SetupGameBoard(numericSeed);
      ok := true;
    }

    method CheckGameOver()
      requires |revealed| == |types|
      modifies this`gameOver, this`winner
      ensures Value() == S.CheckGameOver(old(Value()))
    {
      var assassinIndex := S.IndexOf(types, Assassin);
      if assassinIndex.Some? && revealed[assassinIndex.value] {
        gameOver := true;
        if winner.None? {
          winner := Some(if currentTurn == Red then Blue else Red);
        }
        return;
      }
      if redScore >= redTotal {
        gameOver := true;
        winner := Some(Red);
      } else if blueScore >= blueTotal {
        gameOver := true;
        winner := Some(Blue);
      }
    }

    method ScoreCard(index: nat)
      requires |revealed| == |types| && index < |types|
      modifies this`revealed, this`redScore, this`blueScore
      ensures Value() == S.Score(old(Value()), index)
    {
      revealed := revealed[index := true];
      if types[index] == Agent(Red) {
        redScore := redScore + 1;
      } else if types[index] == Agent(Blue) {
        blueScore := blueScore + 1;
      }
    }

    method RevealCard(index: nat)
      requires |revealed| == |types|
      modifies this
      ensures Value() == S.Reveal(old(Value()), index)
    {
      if index >= |types| || gameOver || revealed[index] {
        return;
      }
      var card := types[index];
      ScoreCard(index);
      if card == Assassin {
        gameOver := true;
        winner := Some(Other(currentTurn));
      }
      CheckGameOver();
      if !gameOver && card != Agent(currentTurn) {
        currentTurn := Other(currentTurn);
      }
    }

    method EndTurn()
      modifies this`currentTurn
      ensures Value() == S.EndTurn(old(Value()))
    {
      if gameOver {
        return;
      }
      currentTurn := Other(currentTurn);
    }

    /** The query of the address the page shows. */
    method UpdateURL() returns (url: Text)
      ensures url == SavedLink.Print(S.Save(Value()))
    {
      var turn: Text := if currentTurn == Blue then [98] else [114];
      url := SavedLink.GAME + ([UrlQuery.EQUALS] + seed);
      var rest := SavedLink.R + ([UrlQuery.EQUALS] + S.Bits(revealed));
      var last := SavedLink.T + ([UrlQuery.EQUALS] + turn);
      if customWords && |words| == BOARD_SIZE {
        last := last + ([UrlQuery.AMP] + (SavedLink.W + ([UrlQuery.EQUALS] + WordCodec.EncodeWords(words))));
      }
      url := url + ([UrlQuery.AMP] + (rest + ([UrlQuery.AMP] + last)));
      PrintedInOrder(S.Save(Value()));
    }

    /** False when the link names no game, so that a new one must be started, or when no
        board can be dealt; the state is then as it was. */
    method LoadGameFromURL(settings: S.Settings, link: Text) returns (loaded: bool)
      requires settings.random == random
      modifies this
      ensures S.Load(settings, old(Value()), SavedLink.Parse(link)) == if loaded then Some(Value()) else None
      ensures !loaded ==> Value() == old(Value())
    {
      var p := SavedLink.Parse(link);
      if p.game.None? || p.game.value == [] {
        return false;
      }
      ghost var before := Value();
      loaded := LoadBoard(settings, p);
      if !loaded {
        return false;
      }
      S.BoardIsFresh(settings, before, p);
      EveryBoardIsFair(random, Hash(seed));
      if p.r.Some? {
        RestoreRevealed(p.r.value);
      }
      RestoreTurn(p.t);
      CheckGameOver();
    }

    method RestoreTurn(t: Option<Text>)
      modifies this`currentTurn
      ensures Value() == S.RestoredTurn(old(Value()), t)
    {
      if t == Some([98]) {
        currentTurn := Blue;
      } else if t == Some([114]) {
        currentTurn := Red;
      }
    }

    method LoadBoard(settings: S.Settings, p: SavedLink.Params) returns (success: bool)
      requires settings.random == random && p.game.Some? && p.game.value != []
      modifies this
      ensures S.LoadBoard(settings, old(Value()), p) == if success then Some(Value()) else None
      ensures !success ==> Value() == old(Value())
    {
      success := false;
      if p.w.Some? && p.w.value != [] {
        var boardWords := WordCodec.DecodeWordsFromURL(p.w.value);
        if boardWords.Some? && |boardWords.value| == BOARD_SIZE {
          success := InitGameWithWords(p.game.value, boardWords.value);
        }
      }
      if !success {
        success := InitGame(settings, p.game.value, S.Defaults);
      }
    }

    method RestoreRevealed(bits: Text)
      requires |types| == |revealed| == BOARD_SIZE
      modifies this`revealed, this`redScore, this`blueScore
      ensures Value() == S.Restored(old(Value()), bits, Min(|bits|, BOARD_SIZE))
    {
      var i := 0;
      while i < |bits| && i < BOARD_SIZE
        invariant i <= |bits| && i <= BOARD_SIZE == |types| == |revealed|
        invariant Value() == S.Restored(old(Value()), bits, i)
      {
        if bits[i] == 49 {
          ScoreCard(i);
        }
        i := i + 1;
      }
    }
  }

  lemma PrintedInOrder(s: SavedLink.Saved)
    ensures SavedLink.Print(s) ==
            SavedLink.TextOf((SavedLink.GAME, s.seed)) + ([UrlQuery.AMP] + (
            SavedLink.TextOf((SavedLink.R, s.bits)) + ([UrlQuery.AMP] + (
            SavedLink.TextOf((SavedLink.T, s.turn)) +
            if s.words.None? then [] else [UrlQuery.AMP] + SavedLink.TextOf((SavedLink.W, s.words.value))))))
  {
    var words: seq<SavedLink.Param> := if s.words.None? then [] else [(SavedLink.W, s.words.value)];
    var t, r, g: SavedLink.Param := (SavedLink.T, s.turn), (SavedLink.R, s.bits), (SavedLink.GAME, s.seed);
    if s.words.Some? {
      SavedLink.JoinedCons(t, words);
    } else {
      assert [t] + words == [t];
    }
    SavedLink.JoinedCons(r, [t] + words);
    SavedLink.JoinedCons(g, [r] + ([t] + words));
    assert SavedLink.ParamsOf(s) == [g] + ([r] + ([t] + words));
  }
}
