/** The recap of a finished game: clue blocks, their efficiency, and the independent
    statistics over the same events. */
module Recap {

  /** A card type or team as the replay names it; either may be missing or unknown. */
  datatype Label = Missing | Red | Blue | Neutral | Assassin | Unknown(id: nat)

  datatype Clue = Clue(team: Label, word: nat, number: int)

  datatype Event = ClueEvent(clue: Clue) | RevealEvent(word: nat, card: Label, team: Label) | OtherEvent

  datatype Result = Correct | Wrong | NeutralHit | AssassinHit

  datatype Guess = Guess(word: nat, result: Result)

  datatype Block = Block(clue: Clue, guesses: seq<Guess>)

  /** A card is correct when its type is the guessing team. */
  function GuessResult(card: Label, team: Label): Result {
    if card == Assassin then AssassinHit
    else if card == Neutral then NeutralHit
    else if card == team then Correct
    else Wrong
  }

  function GuessOf(e: Event): Guess
    requires e.RevealEvent?
  {
    Guess(e.word, GuessResult(e.card, e.team))
  }

  // ---- Grouping ----

  /** One event: a clue opens a block, a reveal joins the open one. */
  function Grouped(blocks: seq<Block>, e: Event): seq<Block> {
    if e.ClueEvent? then blocks + [Block(e.clue, [])]
    else if e.RevealEvent? && blocks != [] then
      var last := blocks[|blocks|-1];
      blocks[..|blocks|-1] + [last.(guesses := last.guesses + [GuessOf(e)])]
    else blocks
  }

  function Blocks(events: seq<Event>): seq<Block> {
    if events == [] then [] else Grouped(Blocks(events[..|events|-1]), events[|events|-1])
  }

  method GroupClueBlocks(events: seq<Event>) returns (blocks: seq<Block>)
    ensures blocks == Blocks(events)
  {
    blocks := [];
    for i := 0 to |events|
      invariant blocks == Blocks(events[..i])
    {
      var ev := events[i];
      assert events[..i + 1][..i] == events[..i];
      if ev.ClueEvent? {
        blocks := blocks + [Block(ev.clue, [])];
      } else if ev.RevealEvent? && |blocks| > 0 {
        var current := blocks[|blocks|-1];
        blocks := blocks[|blocks|-1 := current.(guesses := current.guesses + [GuessOf(ev)])];
      }
    }
    assert events[..|events|] == events;
  }

  /** The events from the first clue on. */
  function FromFirstClue(events: seq<Event>): seq<Event> {
    if events == [] then [] else
      var before, e := FromFirstClue(events[..|events|-1]), events[|events|-1];
      if before == [] && !e.ClueEvent? then [] else before + [e]
  }

  datatype Item = Given(clue: Clue) | Guessed(guess: Guess)

  /** The clues and guesses of a stretch of events, in order. */
  function Items(events: seq<Event>): seq<Item> {
    if events == [] then [] else
      Items(events[..|events|-1]) + ItemOf(events[|events|-1])
  }

  function ItemOf(e: Event): seq<Item> {
    match e
    case ClueEvent(clue) => [Given(clue)]
    case RevealEvent(_, _, _) => [Guessed(GuessOf(e))]
    case OtherEvent => []
  }

  function GuessItems(guesses: seq<Guess>): (r: seq<Item>)
    ensures |r| == |guesses|
  {
    if guesses == [] then [] else GuessItems(guesses[..|guesses|-1]) + [Guessed(guesses[|guesses|-1])]
  }

  /** Each block's clue, followed by its guesses. */
  function Flattened(blocks: seq<Block>): seq<Item> {
    if blocks == [] then [] else
      var b := blocks[|blocks|-1];
      Flattened(blocks[..|blocks|-1]) + ([Given(b.clue)] + GuessItems(b.guesses))
  }

  lemma ItemsAppend(events: seq<Event>, e: Event)
    ensures Items(events + [e]) == Items(events) + ItemOf(e)
  {
    assert (events + [e])[..|events|] == events;
  }

  lemma FlattenedAppend(blocks: seq<Block>, b: Block)
    ensures Flattened(blocks + [b]) == Flattened(blocks) + ([Given(b.clue)] + GuessItems(b.guesses))
  {
    assert (blocks + [b])[..|blocks|] == blocks;
  }

  lemma GuessItemsAppend(guesses: seq<Guess>, g: Guess)
    ensures GuessItems(guesses + [g]) == GuessItems(guesses) + [Guessed(g)]
  {
    assert (guesses + [g])[..|guesses|] == guesses;
  }

  lemma LastFlattened(blocks: seq<Block>, g: Guess)
    requires blocks != []
    ensures var last := blocks[|blocks|-1];
            Flattened(blocks[..|blocks|-1] + [last.(guesses := last.guesses + [g])]) == Flattened(blocks) + [Guessed(g)]
  {
    var init, last := blocks[..|blocks|-1], blocks[|blocks|-1];
    FlattenedAppend(init, last.(guesses := last.guesses + [g]));
    GuessItemsAppend(last.guesses, g);
    var head, body := Flattened(init), [Given(last.clue)] + GuessItems(last.guesses);
    assert head + (body + [Guessed(g)]) == head + body + [Guessed(g)];
  }

  lemma GroupedFlattened(blocks: seq<Block>, e: Event)
    ensures Flattened(Grouped(blocks, e)) == Flattened(blocks) + if e.ClueEvent? || blocks != [] then ItemOf(e) else []
  {
    if e.ClueEvent? {
      FlattenedAppend(blocks, Block(e.clue, []));
      assert GuessItems([]) == [];
    } else if e.RevealEvent? && blocks != [] {
      LastFlattened(blocks, GuessOf(e));
    }
  }

  /** The blocks, laid end to end, are every clue and every guess from the first clue on,
      in order: nothing is lost, repeated or moved to another clue. */
  lemma {:induction false} BlocksAreTheGame(events: seq<Event>)
    ensures Flattened(Blocks(events)) == Items(FromFirstClue(events))
    ensures Blocks(events) == [] <==> FromFirstClue(events) == []
  {
    if events != [] {
      var pre, e := events[..|events|-1], events[|events|-1];
      BlocksAreTheGame(pre);
      ItemsAppend(FromFirstClue(pre), e);
      GroupedFlattened(Blocks(pre), e);
      BlocksAppear(pre, e);
    }
  }

  lemma BlocksAppear(pre: seq<Event>, e: Event)
    ensures Grouped(Blocks(pre), e) == [] <==> Blocks(pre) == [] && !e.ClueEvent?
  {
  }

  // ---- Efficiency ----

  datatype Rating = Clean | Partial | Leak | HitAssassin

  datatype Efficiency = Efficiency(landed: nat, promised: int, wrong: nat, neutral: nat, assassin: nat, rating: Rating, score: int)

  function Tally(guesses: seq<Guess>, r: Result): nat {
    if guesses == [] then 0 else Tally(guesses[..|guesses|-1], r) + if guesses[|guesses|-1].result == r then 1 else 0
  }

  method ComputeClueEfficiency(block: Block) returns (e: Efficiency)
    ensures e.landed == Tally(block.guesses, Correct) && e.wrong == Tally(block.guesses, Wrong)
    ensures e.neutral == Tally(block.guesses, NeutralHit) && e.assassin == Tally(block.guesses, AssassinHit)
    ensures e.landed + e.wrong + e.neutral + e.assassin == |block.guesses| && e.promised == block.clue.number
    ensures e.rating == Clean <==> e.landed == |block.guesses| && e.landed >= block.clue.number
    ensures e.rating == HitAssassin <==> e.assassin > 0
    ensures e.rating == Leak <==> e.assassin == 0 && e.wrong > 0
    ensures e.score == 2 * e.landed - 3 * e.wrong - e.neutral - 10 * e.assassin
  {
    var landed, wrong, neutral, assassin := 0, 0, 0, 0;
    for i := 0 to |block.guesses|
      invariant landed == Tally(block.guesses[..i], Correct) && wrong == Tally(block.guesses[..i], Wrong)
      invariant neutral == Tally(block.guesses[..i], NeutralHit) && assassin == Tally(block.guesses[..i], AssassinHit)
      invariant landed + wrong + neutral + assassin == i
    {
      assert block.guesses[..i + 1][..i] == block.guesses[..i];
      match block.guesses[i].result {
        case Correct => landed := landed + 1;
        case Wrong => wrong := wrong + 1;
        case NeutralHit => neutral := neutral + 1;
        case AssassinHit => assassin := assassin + 1;
      }
    }
    assert block.guesses[..|block.guesses|] == block.guesses;
    var promised := block.clue.number;
    var rating := if assassin > 0 then HitAssassin
                  else if wrong > 0 then Leak
                  else if neutral > 0 || landed < promised then Partial
                  else Clean;
    var score := landed * 2 - wrong * 3 - neutral - assassin * 10;
    e := Efficiency(landed, promised, wrong, neutral, assassin, rating, score);
  }

  // ---- Statistics ----

  datatype Stats = Stats(redCorrect: nat, blueCorrect: nat, assassinBy: Label, totalClues: nat)

  function StatsStep(s: Stats, e: Event): Stats {
    match e
    case ClueEvent(_) => s.(totalClues := s.totalClues + 1)
    case RevealEvent(_, card, team) =>
      if card == Assassin then s.(assassinBy := team)
      else if card == team == Red then s.(redCorrect := s.redCorrect + 1)
      else if card == team == Blue then s.(blueCorrect := s.blueCorrect + 1)
      else s
    case OtherEvent => s
  }

  function StatsOf(events: seq<Event>): Stats {
    if events == [] then Stats(0, 0, Missing, 0) else StatsStep(StatsOf(events[..|events|-1]), events[|events|-1])
  }

  method ComputeStats(events: seq<Event>) returns (s: Stats)
    ensures s == StatsOf(events)
  {
    var redCorrect, blueCorrect, assassinBy, totalClues := 0, 0, Missing, 0;
    for i := 0 to |events|
      invariant Stats(redCorrect, blueCorrect, assassinBy, totalClues) == StatsOf(events[..i])
    {
      assert events[..i + 1][..i] == events[..i];
      var ev := events[i];
      if ev.ClueEvent? {
        totalClues := totalClues + 1;
      } else if ev.RevealEvent? {
        if ev.card == Assassin {
          assassinBy := ev.team;
        } else if ev.card == ev.team && ev.card == Red {
          redCorrect := redCorrect + 1;
        } else if ev.card == ev.team && ev.card == Blue {
          blueCorrect := blueCorrect + 1;
        }
      }
    }
    assert events[..|events|] == events;
    s := Stats(redCorrect, blueCorrect, assassinBy, totalClues);
  }

  /** How many reveals there are of a card by a team. */
  function Reveals(events: seq<Event>, card: Label, team: Label): nat {
    if events == [] then 0 else
      var e := events[|events|-1];
      Reveals(events[..|events|-1], card, team) + if e.RevealEvent? && e.card == card && e.team == team then 1 else 0
  }

  function CluesIn(events: seq<Event>): nat {
    if events == [] then 0 else CluesIn(events[..|events|-1]) + if events[|events|-1].ClueEvent? then 1 else 0
  }

  predicate HitsAssassin(e: Event) {
    e.RevealEvent? && e.card == Assassin
  }

  ghost predicate HitsLast(events: seq<Event>, i: nat)
    requires i < |events|
  {
    HitsAssassin(events[i]) && forall k :: i < k < |events| ==> !HitsAssassin(events[k])
  }

  /** The statistics are counts: red cards revealed by red, blue ones by blue, all clues; and
      the team of the last reveal of an assassin, if there is one. */
  lemma {:induction false} StatsAreCounts(events: seq<Event>)
    ensures var s := StatsOf(events);
            && s.redCorrect == Reveals(events, Red, Red) && s.blueCorrect == Reveals(events, Blue, Blue)
            && s.totalClues == CluesIn(events)
            && ((forall i :: 0 <= i < |events| ==> !HitsAssassin(events[i])) ==> s.assassinBy == Missing)
            && forall i :: 0 <= i < |events| && HitsLast(events, i) ==> s.assassinBy == events[i].team
  {
    if events != [] {
      var pre, e := events[..|events|-1], events[|events|-1];
      StatsAreCounts(pre);
      assert forall i :: 0 <= i < |pre| ==> pre[i] == events[i];
      var s := StatsOf(events);
      forall i | 0 <= i < |events| && HitsLast(events, i) ensures s.assassinBy == events[i].team {
        if i < |pre| {
          assert !HitsAssassin(events[|events|-1]);
          assert HitsLast(pre, i);
        }
      }
    }
  }

  // ---- What the counts of a block count ----

  /** Which reveals a result stands for. */
  predicate Means(card: Label, team: Label, r: Result) {
    match r
    case AssassinHit => card == Assassin
    case NeutralHit => card == Neutral
    case Correct => card != Assassin && card != Neutral && card == team
    case Wrong => card != Assassin && card != Neutral && card != team
  }

  /** The reveals of that kind between the `k`th clue, from 0, and the next. */
  function RevealsUnder(events: seq<Event>, k: nat, r: Result): nat {
    if events == [] then 0 else
      var pre, e := events[..|events|-1], events[|events|-1];
      RevealsUnder(pre, k, r) + if e.RevealEvent? && CluesIn(pre) == k + 1 && Means(e.card, e.team, r) then 1 else 0
  }

  lemma {:induction false} NoneUnder(events: seq<Event>, k: nat, r: Result)
    requires CluesIn(events) <= k
    ensures RevealsUnder(events, k, r) == 0
  {
    if events != [] {
      NoneUnder(events[..|events|-1], k, r);
    }
  }

  lemma NoneUnderYet(events: seq<Event>, k: nat, r: Result)
    ensures CluesIn(events) == k ==> RevealsUnder(events, k, r) == 0
  {
    if CluesIn(events) == k {
      NoneUnder(events, k, r);
    }
  }

  /** An event adds to the count of the last block alone. */
  lemma OneMoreCounted(blocks: seq<Block>, e: Event, k: nat, r: Result)
    ensures var after := Grouped(blocks, e);
            && |after| == |blocks| + (if e.ClueEvent? then 1 else 0)
            && (k < |blocks| ==>
                  Tally(after[k].guesses, r) == Tally(blocks[k].guesses, r)
                    + if e.RevealEvent? && |blocks| == k + 1 && Means(e.card, e.team, r) then 1 else 0)
            && (e.ClueEvent? && k == |blocks| ==> Tally(after[k].guesses, r) == 0)
  {
    if e.RevealEvent? && |blocks| == k + 1 {
      TallyAppend(blocks[k].guesses, GuessOf(e), r);
    }
  }

  /** Each count of each block is the reveals of its kind under the block's own clue. */
  lemma {:induction false} BlocksCountTheirReveals(events: seq<Event>, k: nat, r: Result)
    ensures |Blocks(events)| == CluesIn(events)
    ensures k < |Blocks(events)| ==> Tally(Blocks(events)[k].guesses, r) == RevealsUnder(events, k, r)
  {
    if events != [] {
      var pre, e := events[..|events|-1], events[|events|-1];
      BlocksCountTheirReveals(pre, k, r);
      NoneUnderYet(pre, k, r);
      OneMoreCounted(Blocks(pre), e, k, r);
    }
  }

  // ---- The two passes agree ----

  function Landed(blocks: seq<Block>): nat {
    if blocks == [] then 0 else Landed(blocks[..|blocks|-1]) + Tally(blocks[|blocks|-1].guesses, Correct)
  }

  lemma LandedAppend(blocks: seq<Block>, b: Block)
    ensures Landed(blocks + [b]) == Landed(blocks) + Tally(b.guesses, Correct)
  {
    assert (blocks + [b])[..|blocks|] == blocks;
  }

  lemma TallyAppend(guesses: seq<Guess>, g: Guess, r: Result)
    ensures Tally(guesses + [g], r) == Tally(guesses, r) + if g.result == r then 1 else 0
  {
    assert (guesses + [g])[..|guesses|] == guesses;
  }

  predicate IsTeam(l: Label) { l == Red || l == Blue }

  predicate IsCorrect(e: Event) {
    e.RevealEvent? && GuessResult(e.card, e.team) == Correct
  }

  /** Correct reveals of a real team that come before the first clue: in no block. */
  function Early(events: seq<Event>): nat {
    if events == [] then 0 else
      var pre, e := events[..|events|-1], events[|events|-1];
      Early(pre) + if FromFirstClue(events) == [] && IsCorrect(e) && IsTeam(e.team) then 1 else 0
  }

  /** Reveals in blocks whose card and team agree without being a real team, both missing
      say: the blocks count them, the statistics do not. */
  function Odd(events: seq<Event>): nat {
    if events == [] then 0 else
      var pre, e := events[..|events|-1], events[|events|-1];
      Odd(pre) + if FromFirstClue(events) != [] && IsCorrect(e) && !IsTeam(e.team) then 1 else 0
  }

  lemma GroupedLanded(blocks: seq<Block>, e: Event)
    ensures Landed(Grouped(blocks, e)) == Landed(blocks) + if blocks != [] && IsCorrect(e) then 1 else 0
    ensures |Grouped(blocks, e)| == |blocks| + if e.ClueEvent? then 1 else 0
  {
    if e.ClueEvent? {
      LandedAppend(blocks, Block(e.clue, []));
    } else if e.RevealEvent? && blocks != [] {
      var init, last := blocks[..|blocks|-1], blocks[|blocks|-1];
      LandedAppend(init, last.(guesses := last.guesses + [GuessOf(e)]));
      TallyAppend(last.guesses, GuessOf(e), Correct);
    }
  }

  lemma StatsCount(s: Stats, e: Event)
    ensures var t := StatsStep(s, e);
            && t.redCorrect + t.blueCorrect == s.redCorrect + s.blueCorrect + (if IsCorrect(e) && IsTeam(e.team) then 1 else 0)
            && t.totalClues == s.totalClues + if e.ClueEvent? then 1 else 0
  {
  }

  /** For every event stream, whatever its labels: what the blocks land and what comes too
      early for them is what the statistics count and what has no real team. */
  lemma {:induction false} PassesBalance(events: seq<Event>)
    ensures Landed(Blocks(events)) + Early(events) == StatsOf(events).redCorrect + StatsOf(events).blueCorrect + Odd(events)
    ensures StatsOf(events).totalClues == |Blocks(events)|
  {
    if events != [] {
      var pre, e := events[..|events|-1], events[|events|-1];
      PassesBalance(pre);
      BlocksAreTheGame(pre);
      GroupedLanded(Blocks(pre), e);
      StatsCount(StatsOf(pre), e);
    }
  }

  lemma {:induction false} NothingOdd(events: seq<Event>)
    requires forall i :: 0 <= i < |events| && events[i].RevealEvent? ==> IsTeam(events[i].team)
    ensures Odd(events) == 0
  {
    if events != [] {
      NothingOdd(events[..|events|-1]);
    }
  }

  /** For events of real teams the total landed is red's and blue's correct cards exactly
      when no correct reveal precedes the first clue. */
  lemma LandedIsCorrectIff(events: seq<Event>)
    requires forall i :: 0 <= i < |events| && events[i].RevealEvent? ==> IsTeam(events[i].team)
    ensures Landed(Blocks(events)) == StatsOf(events).redCorrect + StatsOf(events).blueCorrect <==>
            forall i :: 0 <= i < |events| && IsCorrect(events[i]) ==> exists k :: 0 <= k < i && events[k].ClueEvent?
  {
    PassesBalance(events);
    NothingOdd(events);
    NoneEarly(events);
  }

  lemma {:induction false} ClueSeen(events: seq<Event>)
    ensures FromFirstClue(events) != [] <==> exists k :: 0 <= k < |events| && events[k].ClueEvent?
  {
    if events != [] {
      var pre := events[..|events|-1];
      ClueSeen(pre);
      if k :| 0 <= k < |events| && events[k].ClueEvent? {
        assert k < |pre| ==> pre[k].ClueEvent?;
      }
      if k :| 0 <= k < |pre| && pre[k].ClueEvent? {
        assert events[k].ClueEvent?;
      }
    }
  }

  lemma {:induction false} NoneEarly(events: seq<Event>)
    requires forall i :: 0 <= i < |events| && events[i].RevealEvent? ==> IsTeam(events[i].team)
    ensures Early(events) == 0 <==>
            forall i :: 0 <= i < |events| && IsCorrect(events[i]) ==> exists k :: 0 <= k < i && events[k].ClueEvent?
  {
    if events != [] {
      var pre, e := events[..|events|-1], events[|events|-1];
      NoneEarly(pre);
      ClueSeen(pre);
      assert forall i :: 0 <= i < |pre| ==> pre[i] == events[i];
      assert (exists k :: 0 <= k < |pre| && pre[k].ClueEvent?) <==> exists k :: 0 <= k < |pre| && events[k].ClueEvent?;
      if IsCorrect(e) {
        assert FromFirstClue(events) == [] <==> FromFirstClue(pre) == [];
      }
    }
  }
}
