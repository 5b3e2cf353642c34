/** A standalone game saved to its link and loaded back. */
module SavedGame {
  import opened Common
  import opened JsText
  import opened Seeded
  import opened Board
  import opened GameRules
  import opened SavedLink
  import opened UrlQuery
  import opened Standalone
  import Base64
  import opened WordCodec
  import Utf8
  import WordEscape

  // ---- Every game a player can get to ----

  datatype Action =
    | NewGame(choice: WordChoice, seed: Text)
    | Click(index: nat)
    | Pass
    | Open(link: Text)

  function Deal(settings: Settings, on: Game, choice: WordChoice, seed: Text): Option<Game> {
    var chosen := Choose(settings, choice);
    Init(chosen, on, seed, Given(chosen.activeWords))
  }

  /** No game before the first deal; a deal that fails leaves the game there was. */
  function Step(settings: Settings, blank: Game, g: Option<Game>, a: Action): Option<Game> {
    var on := if g.Some? then g.value else blank;
    match a
    case NewGame(choice, seed) => Or(Deal(settings, on, choice, seed), g)
    case Click(i) => if g.None? || |on.revealed| != |on.types| then g else Some(Reveal(on, i))
    case Pass => if g.None? then g else Some(EndTurn(on))
    case Open(link) => Or(Load(settings, on, Parse(link)), g)
  }

  function Or<T>(a: Option<T>, b: Option<T>): Option<T> {
    if a.Some? then a else b
  }

  function After(settings: Settings, blank: Game, run: seq<Action>): Option<Game> {
    if run == [] then None else Step(settings, blank, After(settings, blank, run[..|run|-1]), run[|run|-1])
  }

  lemma LoadIsConsistent(settings: Settings, g: Game, p: Params)
    requires Load(settings, g, p).Some?
    ensures Consistent(settings.random, Load(settings, g, p).value)
  {
    var random, b := settings.random, LoadBoard(settings, g, p).value;
    BoardIsFresh(settings, g, p);
    ShownIsConsistent(random, b, p.r, p.t);
  }

  /** Restoring reveals changes the reveals and, to match, the scores. */
  lemma RestoredIsScored(b: Game, bits: Option<Text>)
    requires |b.types| == |b.revealed| == BOARD_SIZE && Scored(b) && forall i :: 0 <= i < BOARD_SIZE ==> !b.revealed[i]
    ensures var r := RestoredBoard(b, bits);
            Scored(r) && r == b.(revealed := r.revealed, redScore := r.redScore, blueScore := r.blueScore)
  {
    if bits.Some? {
      RestoringKeepsScores(b, bits.value, Min(|bits.value|, BOARD_SIZE));
    }
  }

  lemma ShownIsConsistent(random: Generator, b: Game, r: Option<Text>, t: Option<Text>)
    requires b == SetupBoard(random, b, Hash(b.seed)) && |b.types| == BOARD_SIZE
    ensures Consistent(random, CheckGameOver(RestoredTurn(RestoredBoard(b, r), t)))
  {
    SetupIsConsistent(random, b);
    RestoredIsScored(b, r);
    TurnedIsConsistent(random, b, RestoredBoard(b, r), t);
  }

  lemma TurnedIsConsistent(random: Generator, b: Game, shown: Game, t: Option<Text>)
    requires Consistent(random, b) && !b.gameOver && b.winner.None?
    requires |shown.revealed| == BOARD_SIZE && shown.types == b.types && Scored(shown)
    requires shown == b.(revealed := shown.revealed, redScore := shown.redScore, blueScore := shown.blueScore)
    ensures Consistent(random, CheckGameOver(RestoredTurn(shown, t)))
  {
    CheckedIsConsistent(random, b, RestoredTurn(shown, t));
  }

  lemma CheckedIsJudged(g: Game)
    requires |g.types| == |g.revealed| && !g.gameOver && g.winner.None?
    ensures var c := CheckGameOver(g); Judged(c) && c == g.(gameOver := c.gameOver, winner := c.winner)
  {
  }

  lemma CheckedIsConsistent(random: Generator, b: Game, shown: Game)
    requires Consistent(random, b) && !b.gameOver && b.winner.None?
    requires |shown.revealed| == BOARD_SIZE && shown.types == b.types && Scored(shown)
    requires shown == b.(revealed := shown.revealed, redScore := shown.redScore, blueScore := shown.blueScore, turn := shown.turn)
    ensures Consistent(random, CheckGameOver(shown))
  {
    CheckedIsJudged(shown);
  }

  // ---- Their words ----

  /** The built-in list: enough words, and none twice. */
  ghost predicate Usable(settings: Settings) {
    && |settings.defaults| >= BOARD_SIZE
    && forall i, j :: 0 <= i < j < |settings.defaults| ==> settings.defaults[i] != settings.defaults[j]
  }

  /** 25 words, none empty, and the built-in deal unless the game is marked custom. */
  ghost predicate Worded(settings: Settings, g: Game)
    requires |settings.defaults| >= BOARD_SIZE
  {
    && |g.words| == BOARD_SIZE && [] !in g.words
    && (!g.customWords ==> g.words == DealtWords(settings.random, settings.defaults, g.seed))
  }

  lemma {:induction false} DeduplicatedHas(s: seq<Text>)
    ensures forall w :: w in Deduplicated(s) ==> w in s
  {
    if s != [] {
      DeduplicatedHas(s[..|s|-1]);
    }
  }

  lemma {:induction false} DistinctStay(s: seq<Text>)
    requires forall i, j :: 0 <= i < j < |s| ==> s[i] != s[j]
    ensures Deduplicated(s) == s
  {
    if s != [] {
      DistinctStay(s[..|s|-1]);
      assert s == s[..|s|-1] + [s[|s|-1]];
    }
  }

  lemma NoEmptyWord(words: seq<Word>)
    ensures [] !in words
  {
    assert forall i :: 0 <= i < |words| ==> words[i] != [];
  }

  /** Wherever the source says default, the list is the built-in one. */
  lemma ChosenWords(settings: Settings, choice: WordChoice)
    requires Usable(settings)
    ensures var chosen := Choose(settings, choice);
            [] !in chosen.activeWords && (chosen.source == Default ==> chosen.activeWords == settings.defaults)
  {
    NoEmptyWord(settings.defaults);
    if !choice.BuiltIn? {
      NoEmptyWord(choice.words);
    }
    if choice.WithBuiltIn? || choice.FileWithBuiltIn? {
      DeduplicatedHas(settings.defaults + choice.words);
      DistinctStay(settings.defaults);
      assert settings.defaults + [] == settings.defaults;
    }
  }

  /** Dropping repeats keeps each item once, where it first was. */
  lemma {:induction false} DeduplicatedOnce(s: seq<Text>)
    ensures var r := Deduplicated(s);
            && (forall i, j :: 0 <= i < j < |r| ==> r[i] != r[j])
            && (forall w :: w in r <==> w in s)
            && forall k :: 0 <= k <= |s| ==> Deduplicated(s[..k]) <= r
  {
    if s != [] {
      var pre, x := s[..|s|-1], s[|s|-1];
      DeduplicatedOnce(pre);
      assert s == pre + [x];
      forall k | 0 <= k <= |s| ensures Deduplicated(s[..k]) <= Deduplicated(s) {
        if k < |s| {
          assert pre[..k] == s[..k];
        } else {
          assert s[..k] == s;
        }
      }
    }
  }

  /** Left out, the list is the active one; with the built-in words among it and a localized
      list at hand, the localized words come first, and none comes twice. */
  lemma PoolWithoutList(settings: Settings)
    ensures var pool := Pool(settings, Unspecified);
            if settings.localized.Some? && settings.source in {Default, Combined} then
              && (forall w :: w in pool <==> w in settings.localized.value || w in settings.activeWords)
              && (forall i, j :: 0 <= i < j < |pool| ==> pool[i] != pool[j])
              && Deduplicated(settings.localized.value) <= pool
            else pool == settings.activeWords
  {
    if settings.localized.Some? {
      var both := settings.localized.value + settings.activeWords;
      DeduplicatedOnce(both);
      assert both[..|settings.localized.value|] == settings.localized.value;
    }
  }

  /** The words a choice puts up for a deal. */
  function ChosenList(settings: Settings, choice: WordChoice): seq<Text> {
    match choice
    case BuiltIn => settings.defaults
    case WithBuiltIn(words) => Deduplicated(settings.defaults + words)
    case CustomOnly(words) => words
    case FileWithBuiltIn(words) => Deduplicated(settings.defaults + words)
    case FileOnly(words) => words
  }

  /** A deal succeeds exactly when the chosen list has 25 words. The board is then the
      number's, the words are the first 25 of the shuffled list, and the game is marked custom
      exactly if the choice adds or names words of its own. */
  lemma DealtGameIsTheChoices(settings: Settings, on: Game, choice: WordChoice, seed: Text)
    ensures Deal(settings, on, choice, seed).Some? <==> |ChosenList(settings, choice)| >= 25
    ensures Deal(settings, on, choice, seed).Some? ==>
              var g := Deal(settings, on, choice, seed).value;
              && g.seed == seed && g.types == Types(settings.random, Hash(seed)) && g.turn == FirstTeam(settings.random, Hash(seed))
              && g.words == DealtWords(settings.random, ChosenList(settings, choice), seed)
              && (g.customWords <==> !choice.BuiltIn? && !(choice.WithBuiltIn? && choice.words == []))
              && g.revealed == seq(25, _ => false) && !g.gameOver && g.winner.None?
  {
  }

  lemma DealtFromPool(random: Generator, pool: seq<Text>, seed: Text)
    requires |pool| >= BOARD_SIZE
    ensures |DealtWords(random, pool, seed)| == BOARD_SIZE && forall w :: w in DealtWords(random, pool, seed) ==> w in pool
  {
    ShuffleIsAPermutation(pool, Hash(seed), random);
  }

  lemma DealIsWorded(settings: Settings, on: Game, choice: WordChoice, seed: Text)
    requires Usable(settings) && Deal(settings, on, choice, seed).Some?
    ensures Worded(settings, Deal(settings, on, choice, seed).value)
  {
    ChosenWords(settings, choice);
    DealtFromPool(settings.random, Choose(settings, choice).activeWords, seed);
  }

  lemma {:induction false} NonEmptyHas(words: seq<Text>)
    ensures [] !in WordEscape.NonEmpty(words)
  {
    if words != [] {
      NonEmptyHas(words[1..]);
    }
  }

  lemma DecodedWords(encoded: Text)
    ensures DecodeWords(encoded).Some? ==> [] !in DecodeWords(encoded).value
  {
    if DecodeWords(encoded).Some? {
      NonEmptyHas(WordEscape.UnescapeAll(WordEscape.SplitFrom(TextOfBytes(Base64.FromUrl(encoded).value), [])));
    }
  }

  lemma LoadBoardIsWorded(settings: Settings, on: Game, p: Params)
    requires Usable(settings) && LoadBoard(settings, on, p).Some?
    ensures Worded(settings, LoadBoard(settings, on, p).value)
  {
    var boardWords := if p.w.None? || p.w.value == [] then None else DecodeWords(p.w.value);
    if boardWords.Some? && |boardWords.value| == BOARD_SIZE {
      DecodedWords(p.w.value);
    } else {
      NoEmptyWord(settings.defaults);
      DealtFromPool(settings.random, settings.defaults, p.game.value);
    }
  }

  lemma JudgingKeepsWords(g: Game, t: Option<Text>)
    requires |g.revealed| == |g.types|
    ensures var c := CheckGameOver(RestoredTurn(g, t)); (c.words, c.customWords, c.seed) == (g.words, g.customWords, g.seed)
  {
  }

  lemma LoadIsWorded(settings: Settings, on: Game, p: Params)
    requires Usable(settings) && Load(settings, on, p).Some?
    ensures Worded(settings, Load(settings, on, p).value)
  {
    var b := LoadBoard(settings, on, p).value;
    BoardIsFresh(settings, on, p);
    LoadBoardIsWorded(settings, on, p);
    SetupIsConsistent(settings.random, b);
    RestoredIsScored(b, p.r);
    JudgingKeepsWords(RestoredBoard(b, p.r), p.t);
  }

  ghost predicate Good(settings: Settings, g: Option<Game>)
    requires |settings.defaults| >= BOARD_SIZE
  {
    g.Some? ==> Consistent(settings.random, g.value) && Worded(settings, g.value)
  }

  /** In every run of deals, clicks, passes and loaded links, the game is its seed's board
      with 25 nonempty words, the scores and the outcome are what its revealed cards give,
      and a game not marked custom has the words the built-in list deals. */
  lemma {:induction false} EveryGameIsConsistent(settings: Settings, blank: Game, run: seq<Action>)
    requires Usable(settings)
    ensures Good(settings, After(settings, blank, run))
  {
    if run != [] {
      EveryGameIsConsistent(settings, blank, run[..|run|-1]);
      StepKeeps(settings, blank, After(settings, blank, run[..|run|-1]), run[|run|-1]);
    }
  }

  lemma DealIsGood(settings: Settings, on: Game, choice: WordChoice, seed: Text)
    requires Usable(settings)
    ensures Good(settings, Deal(settings, on, choice, seed))
  {
    var r := Deal(settings, on, choice, seed);
    if r.Some? {
      DealIsWorded(settings, on, choice, seed);
      SetupIsConsistent(settings.random, r.value);
    }
  }

  lemma LoadIsGood(settings: Settings, on: Game, p: Params)
    requires Usable(settings)
    ensures Good(settings, Load(settings, on, p))
  {
    if Load(settings, on, p).Some? {
      LoadIsConsistent(settings, on, p);
      LoadIsWorded(settings, on, p);
    }
  }

  lemma RevealIsGood(settings: Settings, g: Game, i: nat)
    requires |settings.defaults| >= BOARD_SIZE && Good(settings, Some(g))
    ensures Good(settings, Some(Reveal(g, i)))
  {
    RevealKeeps(settings.random, g, i);
    if i < |g.types| && !g.gameOver && !g.revealed[i] {
      RevealIsScored(g, i);
    }
  }

  lemma StepKeeps(settings: Settings, blank: Game, g: Option<Game>, a: Action)
    requires Usable(settings) && Good(settings, g)
    ensures Good(settings, Step(settings, blank, g, a))
  {
    var on := if g.Some? then g.value else blank;
    match a
    case NewGame(choice, seed) => DealIsGood(settings, on, choice, seed);
    case Click(i) => if g.Some? { RevealIsGood(settings, on, i); }
    case Pass =>
    case Open(link) => LoadIsGood(settings, on, Parse(link));
  }

  // ---- What a link says ----

  /** The words a link carries, if they are 25. */
  function CarriedWords(p: Params): Option<seq<Text>> {
    if p.w.None? || p.w.value == [] then None else
    var read := DecodeWords(p.w.value);
    if read.Some? && |read.value| == 25 then read else None
  }

  lemma RestoredBits(b: Game, bits: Option<Text>, i: nat)
    requires |b.types| == |b.revealed| == 25 && Scored(b) && i < 25
    requires forall k :: 0 <= k < 25 ==> !b.revealed[k]
    ensures RestoredBoard(b, bits).revealed[i] <==> bits.Some? && i < |bits.value| && bits.value[i] == 49
  {
    if bits.Some? {
      RestoringKeepsScores(b, bits.value, Min(|bits.value|, 25));
    }
  }

  lemma CheckedKeepsTheRest(g: Game)
    requires |g.revealed| == |g.types|
    ensures var c := CheckGameOver(g); c == g.(gameOver := c.gameOver, winner := c.winner)
  {
  }

  /** A link is loaded exactly when it names a seed and there are words to deal. The game then
      is what the link says: its seed, revealed the cards marked `1`, the turn its `b` or `r`,
      and without either the starter's; the words it carries if they are 25, else the first 25
      of the shuffled built-in list. */
  lemma LoadedGameIsTheLinks(settings: Settings, on: Game, p: Params)
    ensures Load(settings, on, p).Some? <==>
              p.game.Some? && p.game.value != [] && (CarriedWords(p).Some? || |settings.defaults| >= 25)
    ensures Load(settings, on, p).Some? ==>
              var g, n := Load(settings, on, p).value, Hash(p.game.value);
              && g.seed == p.game.value && g.types == Types(settings.random, n) && |g.types| == |g.revealed| == 25
              && (forall i :: 0 <= i < 25 ==> (g.revealed[i] <==> p.r.Some? && i < |p.r.value| && p.r.value[i] == 49))
              && g.turn == (if p.t == Some([98]) then Blue else if p.t == Some([114]) then Red
                            else FirstTeam(settings.random, n))
              && g.customWords == CarriedWords(p).Some?
              && (CarriedWords(p).Some? ==> g.words == CarriedWords(p).value)
              && (CarriedWords(p).None? ==> g.words == DealtWords(settings.random, settings.defaults, p.game.value))
  {
    var board := LoadBoard(settings, on, p);
    if board.Some? {
      var b := board.value;
      BoardNamed(settings, on, p);
      BoardIsFresh(settings, on, p);
      SetupIsConsistent(settings.random, b);
      forall i | 0 <= i < 25
        ensures RestoredBoard(b, p.r).revealed[i] <==> p.r.Some? && i < |p.r.value| && p.r.value[i] == 49
      {
        RestoredBits(b, p.r, i);
      }
      RestoredIsScored(b, p.r);
      CheckedKeepsTheRest(RestoredTurn(RestoredBoard(b, p.r), p.t));
    }
  }

  lemma BoardNamed(settings: Settings, on: Game, p: Params)
    requires LoadBoard(settings, on, p).Some?
    ensures var b := LoadBoard(settings, on, p).value;
            && p.game == Some(b.seed) && b.seed != [] && b.customWords == CarriedWords(p).Some?
            && (CarriedWords(p).Some? ==> b.words == CarriedWords(p).value)
            && (CarriedWords(p).None? ==>
                  |settings.defaults| >= 25 && b.words == DealtWords(settings.random, settings.defaults, b.seed))
  {
  }

  // ---- Their turns ----

  lemma AfterAction(settings: Settings, blank: Game, run: seq<Action>, a: Action)
    ensures After(settings, blank, run + [a]) == Step(settings, blank, After(settings, blank, run), a)
  {
    assert (run + [a])[..|run|] == run;
  }

  /** In every run a click on a hidden card of a running game turns it over, and passes the
      turn exactly if it neither ends the game nor is the card of the team to move; any other
      click changes nothing, and so does a pass after the end. */
  lemma ClickPassesTheTurnIff(settings: Settings, blank: Game, run: seq<Action>, i: nat)
    requires Usable(settings) && After(settings, blank, run).Some?
    ensures var g := After(settings, blank, run).value;
            && After(settings, blank, run + [Click(i)]).Some? && After(settings, blank, run + [Pass]).Some?
            && |g.types| == |g.revealed| == 25
            && var clicked, passed := After(settings, blank, run + [Click(i)]).value, After(settings, blank, run + [Pass]).value;
               && (if i < 25 && !g.gameOver && !g.revealed[i] then
                     && clicked.revealed == g.revealed[i := true]
                     && (clicked.turn != g.turn <==> !clicked.gameOver && g.types[i] != Agent(g.turn))
                   else clicked == g)
               && passed == (if g.gameOver then g else g.(turn := if g.turn == Red then Blue else Red))
  {
    EveryGameIsConsistent(settings, blank, run);
    AfterAction(settings, blank, run, Click(i));
    AfterAction(settings, blank, run, Pass);
    var g := After(settings, blank, run).value;
    if i < 25 && !g.gameOver && !g.revealed[i] {
      RevealIsScored(g, i);
      ClickTurns(g, i);
    }
  }

  lemma ClickTurns(g: Game, i: nat)
    requires |g.types| == |g.revealed| && i < |g.types| && !g.gameOver && !g.revealed[i]
    ensures Reveal(g, i).turn != g.turn <==> !Reveal(g, i).gameOver && g.types[i] != Agent(g.turn)
  {
  }

  // ---- Saving and loading ----

  lemma SavedIsPlain(g: Game)
    ensures PlainPayload(Save(g))
  {
    if Save(g).words.Some? {
      Base64.UrlForm(Utf8.EncodeText(WordEscape.TextOf(g.words)));
      var w := Save(g).words.value;
      assert forall i :: 0 <= i < |w| ==> Base64.IsUrlSafe(w[i]);
    }
  }

  /** The link carries the words: the list is marked custom, fits the cap, and still has
      25 nonempty words once a leading mark is dropped. */
  predicate Carried(g: Game) {
    && g.customWords && |g.words| == BOARD_SIZE
    && |EncodeWords(g.words)| <= MAX_ENCODED_WORDS_BYTES
    && |WordEscape.NonEmpty(WithoutMark(g.words))| == BOARD_SIZE
  }

  /** The words a reloaded game has. */
  function ReloadedWords(settings: Settings, g: Game): seq<Text>
    requires |settings.defaults| >= BOARD_SIZE
  {
    if Carried(g) then RepairAll(WithoutMark(g.words)) else DealtWords(settings.random, settings.defaults, g.seed)
  }

  lemma {:induction false} NonEmptySize(words: seq<Text>)
    ensures |WordEscape.NonEmpty(words)| <= |words|
    ensures |WordEscape.NonEmpty(words)| == |words| <==> [] !in words
    ensures [] !in words ==> WordEscape.NonEmpty(words) == words
  {
    if words != [] {
      NonEmptySize(words[1..]);
      assert words == [words[0]] + words[1..];
    }
  }

  lemma {:induction false} RepairKeepsEmptiness(words: seq<Text>)
    ensures |WordEscape.NonEmpty(RepairAll(words))| == |WordEscape.NonEmpty(words)|
  {
    if words != [] {
      RepairKeepsEmptiness(words[1..]);
      assert RepairAll(words)[1..] == RepairAll(words[1..]);
    }
  }

  lemma EmptyLinkHasNoWords()
    ensures DecodeWords([]) == Some([])
  {
    assert Base64.Atob([]) == Some([]);
    assert Utf8.DecodeText([]) == Some([]);
    assert WordEscape.SplitFrom([], []) == [[]];
    assert WordEscape.UnescapeAll([[]]) == [[]];
    assert WordEscape.NonEmpty([[]]) == [];
  }

  /** Which board the loader deals from a saved game's word parameter. */
  lemma WordsRead(g: Game)
    requires |g.words| == BOARD_SIZE
    ensures var w := Save(g).words;
            var read := if w.None? || w.value == [] then None else DecodeWords(w.value);
            if Carried(g) then read == Some(RepairAll(WithoutMark(g.words))) else read.None? || |read.value| != BOARD_SIZE
  {
    if g.customWords {
      var cut := WithoutMark(g.words);
      DecodedEncoding(g.words);
      EmptyLinkHasNoWords();
      RepairKeepsEmptiness(cut);
      NonEmptySize(RepairAll(cut));
    }
  }

  lemma BoardReloads(settings: Settings, over: Game, g: Game, p: Params)
    requires |settings.defaults| >= BOARD_SIZE && |g.words| == BOARD_SIZE && g.seed != []
    requires p.game == Some(g.seed) && p.w == Save(g).words
    ensures LoadBoard(settings, over, p) ==
            Some(SetupBoard(settings.random,
                            over.(seed := g.seed, words := ReloadedWords(settings, g), customWords := Carried(g)),
                            Hash(g.seed)))
  {
    WordsRead(g);
  }

  lemma {:induction false} SameShown(types: seq<Card>, a: seq<bool>, b: seq<bool>, card: Card, n: nat)
    requires n <= |types| && n <= |a| && n <= |b| && a[..n] == b[..n]
    ensures Shown(types, a, card, n) == Shown(types, b, card, n)
  {
    if n > 0 {
      assert a[..n][n - 1] == b[..n][n - 1];
      assert a[..n - 1] == a[..n][..n - 1] == b[..n][..n - 1] == b[..n - 1];
      SameShown(types, a, b, card, n - 1);
    }
  }

  /** Restoring the saved bits onto the seed's fresh board gives the saved board. */
  lemma RevealsReload(random: Generator, g: Game, b: Game)
    requires Consistent(random, g) && Consistent(random, b) && b.seed == g.seed
    requires forall i :: 0 <= i < BOARD_SIZE ==> !b.revealed[i]
    ensures Restored(b, Bits(g.revealed), BOARD_SIZE) ==
            b.(revealed := g.revealed, redScore := g.redScore, blueScore := g.blueScore)
  {
    var r := Restored(b, Bits(g.revealed), BOARD_SIZE);
    RestoringKeepsScores(b, Bits(g.revealed), BOARD_SIZE);
    assert r.revealed == g.revealed;
  }

  /** The whole game comes back, turn, scores, outcome and all, save for its words. */
  lemma SavedGameReloads(settings: Settings, over: Game, g: Game)
    requires Consistent(settings.random, g) && |g.words| == BOARD_SIZE
    requires |settings.defaults| >= BOARD_SIZE && g.seed != [] && Survives(g.seed)
    ensures Load(settings, over, Parse(Print(Save(g)))) ==
            Some(g.(words := ReloadedWords(settings, g), customWords := Carried(g)))
  {
    var p := Parse(Print(Save(g)));
    SavedIsPlain(g);
    ParsePrinted(Save(g));
    BoardReloads(settings, over, g, p);
    var b := LoadBoard(settings, over, p).value;
    SetupIsConsistent(settings.random, over.(seed := g.seed, words := ReloadedWords(settings, g), customWords := Carried(g)));
    RevealsReload(settings.random, g, b);
    OutcomeReloads(settings.random, g, b);
  }

  lemma OutcomeReloads(random: Generator, g: Game, b: Game)
    requires Consistent(random, g) && b == SetupBoard(random, b, Hash(g.seed)) && b.seed == g.seed
    ensures var shown := b.(revealed := g.revealed, redScore := g.redScore, blueScore := g.blueScore);
            CheckGameOver(RestoredTurn(shown, Some(Save(g).turn))) == g.(words := b.words, customWords := b.customWords)
  {
    assert [98 as Unit] != [114 as Unit] by {
      assert [98 as Unit][0] != [114 as Unit][0];
    }
  }

  /** Its words come back exactly when the link carries them unharmed, or when they are
      what the built-in list deals anyway. */
  lemma WordsComeBackIff(settings: Settings, g: Game)
    requires |g.words| == BOARD_SIZE && |settings.defaults| >= BOARD_SIZE
    ensures ReloadedWords(settings, g) == g.words <==>
            if Carried(g) then AllWellFormed(g.words) && !StartsWithMark(g.words)
            else g.words == DealtWords(settings.random, settings.defaults, g.seed)
  {
    if Carried(g) {
      var cut := WithoutMark(g.words);
      if StartsWithMark(g.words) {
        LengthOfRepaired(cut);
        assert cut[1..] == g.words[1..];
      } else {
        NonEmptySize(g.words);
        NonEmptySize(RepairAll(g.words));
        RepairKeepsEmptiness(g.words);
        RepairedWords(g.words);
      }
    }
  }

  lemma LoadedSeed(settings: Settings, over: Game, p: Params)
    ensures Load(settings, over, p).Some? ==> p.game == Some(Load(settings, over, p).value.seed) && p.game != Some([])
  {
    if Load(settings, over, p).Some? {
      var b := LoadBoard(settings, over, p).value;
      BoardIsFresh(settings, over, p);
      SetupIsConsistent(settings.random, b);
      RestoredIsScored(b, p.r);
      JudgingKeepsWords(RestoredBoard(b, p.r), p.t);
    }
  }

  /** A marked list is carried by the link as it is. */
  predicate Carriable(words: seq<Text>) {
    && AllWellFormed(words) && !StartsWithMark(words)
    && |EncodeWords(words)| <= MAX_ENCODED_WORDS_BYTES
  }

  /** The whole game comes back as it was exactly when its seed survives the link and a
      custom list has 25 nonempty well-formed words, does not start with U+FEFF and fits the
      cap, or a list not marked custom is the one the built-in list deals. */
  lemma SavedGameComesBackIff(settings: Settings, over: Game, g: Game)
    requires Consistent(settings.random, g) && |g.words| == BOARD_SIZE && |settings.defaults| >= BOARD_SIZE
    ensures Load(settings, over, Parse(Print(Save(g)))) == Some(g) <==>
            && g.seed != [] && Survives(g.seed)
            && if g.customWords then [] !in g.words && Carriable(g.words)
               else g.words == DealtWords(settings.random, settings.defaults, g.seed)
  {
    SavedIsPlain(g);
    SeedComesBackIff(Save(g));
    LoadedSeed(settings, over, Parse(Print(Save(g))));
    if g.seed != [] && Survives(g.seed) {
      SavedGameReloads(settings, over, g);
      WordsComeBackIff(settings, g);
      NonEmptySize(g.words);
    }
  }

  /** Every game a run of deals, clicks, passes and loaded links reaches comes back exactly
      when its seed survives the link and its words, if marked custom, can be carried. */
  lemma ReachedGameComesBackIff(settings: Settings, blank: Game, run: seq<Action>, over: Game, g: Game)
    requires Usable(settings) && After(settings, blank, run) == Some(g)
    ensures Load(settings, over, Parse(Print(Save(g)))) == Some(g) <==>
            g.seed != [] && Survives(g.seed) && (g.customWords ==> Carriable(g.words))
  {
    EveryGameIsConsistent(settings, blank, run);
    SavedGameComesBackIff(settings, over, g);
  }

  /** A link that only names a seed deals its board from the built-in list. */
  lemma SeedLoads(settings: Settings, on: Game, seed: Text)
    requires |settings.defaults| >= BOARD_SIZE && seed != []
    ensures var g := Load(settings, on, Params(Some(seed), None, None, None));
            g.Some? && g.value.seed == seed && !g.value.customWords
  {
    EveryBoardIsFair(settings.random, Hash(seed));
  }

  lemma AfterOne(settings: Settings, blank: Game, a: Action)
    ensures After(settings, blank, [a]) == Step(settings, blank, None, a)
  {
    assert [a][..0] == [];
  }

  /** Escaped in a link, every well-formed seed is reached, the ones that do not survive
      their own link included. */
  lemma EverySeedIsReached(settings: Settings, blank: Game, seed: Text)
    requires Usable(settings) && seed != [] && WellFormed(seed)
    ensures var g := After(settings, blank, [Open(EscapedLink(seed))]);
            g.Some? && g.value.seed == seed && !g.value.customWords
  {
    AfterOne(settings, blank, Open(EscapedLink(seed)));
    EveryTextIsAskedFor(seed);
    RepairedIffIllFormed(seed);
    SeedLoads(settings, blank, seed);
  }

  /** So a tab, for one, is reached and lost: the game of "a", a tab and "b" names the game
      of "ab" in its own link. */
  lemma TabIsLost(settings: Settings, blank: Game)
    requires Usable(settings)
    ensures var g := After(settings, blank, [Open(EscapedLink([97, 9, 98]))]);
            g.Some? && g.value.seed == [97, 9, 98] && Parse(Print(Save(g.value))).game == Some([97, 98])
  {
    var seed: Text := [97, 9, 98];
    NoSurrogates(seed);
    RepairedIffIllFormed(seed);
    EverySeedIsReached(settings, blank, seed);
    var g := After(settings, blank, [Open(EscapedLink(seed))]).value;
    SavedIsPlain(g);
    SeedReadBack(Save(g));
    CutIff(seed);
    TabIsDropped();
  }

  lemma TabIsDropped()
    ensures Cut([97, 9, 98]) == [97, 9, 98] && Read([97, 9, 98]) == [97, 98]
  {
    var seed: Text := [97, 9, 98];
    CutIff(seed);
    NoSurrogates(seed);
    assert WithoutBreaks([98 as Unit]) == [98];
    assert seed[1..][1..] == [98];
    assert WithoutBreaks(seed[1..]) == [98];
    assert WithoutBreaks(seed) == [97, 98];
    EscapesAreUndone([97, 98]);
    PlainReads([97, 98]);
    assert Searched(seed) == Searched([97, 98]) by {
      PlainEscapesItself([97, 98]);
    }
  }

  // ---- Printing again ----

  /** Repairing words does not change their link. */
  lemma RepairedWordsEncodeAlike(words: seq<Text>)
    ensures EncodeWords(RepairAll(words)) == EncodeWords(words)
  {
    RepairText(words);
    RepairedEncodesAlike(WordEscape.TextOf(words));
  }

  lemma MarkChangesLink(words: seq<Text>)
    requires StartsWithMark(words)
    ensures EncodeWords(WithoutMark(words)) != EncodeWords(words)
  {
    var text := WordEscape.TextOf(words);
    MarkInText(words);
    var points := Scalars(Points(text));
    assert Points(text)[1..] == Points(text[1..]) && points[1..] == Scalars(Points(text[1..]));
    Utf8.FirstBytes(points);
    var whole, cut := Utf8.EncodeText(text), Utf8.EncodeText(text[1..]);
    assert whole[3..] == cut && |whole| == |cut| + 3;
    Base64.UrlLength(whole);
    Base64.UrlLength(cut);
  }

  /** Printing the reloaded game gives the same seed, reveals and turn always, and the same
      words parameter exactly when there was none or its words survived, repaired or not. */
  lemma PrintsTheSameAgain(settings: Settings, g: Game, again: Game)
    requires |g.words| == BOARD_SIZE && |settings.defaults| >= BOARD_SIZE
    requires again == g.(words := ReloadedWords(settings, g), customWords := Carried(g))
    ensures (Save(again).seed, Save(again).bits, Save(again).turn) == (Save(g).seed, Save(g).bits, Save(g).turn)
    ensures Save(again) == Save(g) <==> !g.customWords || (Carried(g) && !StartsWithMark(g.words))
  {
    if Carried(g) {
      RepairedWordsEncodeAlike(WithoutMark(g.words));
      if StartsWithMark(g.words) {
        MarkChangesLink(g.words);
      }
    }
  }
}
