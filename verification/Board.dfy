/** Dealing a standalone board from a number. */
module Board {
  import opened GameRules
  import opened Seeded

  /** Red starts when the draw is over a half. */
  function FirstTeam(random: Generator, seed: int): Team {
    if random(seed + 1000) > 0x8000_0000 then Red else Blue
  }

  function Total(first: Team, team: Team): nat {
    if first == team then FIRST_TEAM_CARDS else SECOND_TEAM_CARDS
  }

  function Copies<T>(n: nat, x: T): (r: seq<T>)
    ensures |r| == n
  {
    seq(n, _ => x)
  }

  function Deck(first: Team): seq<Card> {
    Copies(Total(first, Red), Agent(Red)) + Copies(Total(first, Blue), Agent(Blue))
    + Copies(NEUTRAL_CARDS, Neutral) + Copies(ASSASSIN_CARDS, Assassin)
  }

  function Types(random: Generator, seed: int): seq<Card> {
    Shuffle(Deck(FirstTeam(random, seed)), seed + 500, random)
  }

  function Count(cards: seq<Card>, card: Card): nat {
    if cards == [] then 0 else Count(cards[..|cards|-1], card) + if cards[|cards|-1] == card then 1 else 0
  }

  lemma {:induction false} CountIsMultiplicity(cards: seq<Card>, card: Card)
    ensures Count(cards, card) == multiset(cards)[card]
  {
    if cards != [] {
      CountIsMultiplicity(cards[..|cards|-1], card);
      assert cards == cards[..|cards|-1] + [cards[|cards|-1]];
    }
  }

  lemma {:induction false} CountCopies(n: nat, c: Card, card: Card)
    ensures Count(Copies(n, c), card) == if c == card then n else 0
  {
    if n > 0 {
      CountCopies(n - 1, c, card);
      assert Copies(n, c)[..n - 1] == Copies(n - 1, c);
    }
  }

  lemma {:induction false} CountAppend(a: seq<Card>, b: seq<Card>, card: Card)
    ensures Count(a + b, card) == Count(a, card) + Count(b, card)
  {
    if b == [] {
      assert a + b == a;
    } else {
      CountAppend(a, b[..|b|-1], card);
      assert (a + b)[..|a + b|-1] == a + b[..|b|-1];
    }
  }

  lemma DeckCounts(first: Team, card: Card)
    ensures Count(Deck(first), card) ==
            match card {
              case Agent(Red) => Total(first, Red)
              case Agent(Blue) => Total(first, Blue)
              case Neutral => NEUTRAL_CARDS
              case Assassin => ASSASSIN_CARDS
            }
    ensures |Deck(first)| == BOARD_SIZE
  {
    var red, blue := Copies(Total(first, Red), Agent(Red)), Copies(Total(first, Blue), Agent(Blue));
    var neutral, assassin := Copies(NEUTRAL_CARDS, Neutral), Copies(ASSASSIN_CARDS, Assassin);
    CountAppend(red + blue + neutral, assassin, card);
    CountAppend(red + blue, neutral, card);
    CountAppend(red, blue, card);
    CountCopies(Total(first, Red), Agent(Red), card);
    CountCopies(Total(first, Blue), Agent(Blue), card);
    CountCopies(NEUTRAL_CARDS, Neutral, card);
    CountCopies(ASSASSIN_CARDS, Assassin, card);
  }

  /** Whatever the seed and the generator: 25 cards, the starting team's share the larger
      by one, and the fixed numbers of neutral and assassin cards. */
  lemma EveryBoardIsFair(random: Generator, seed: int)
    ensures var types, first := Types(random, seed), FirstTeam(random, seed);
            && |types| == BOARD_SIZE
            && Count(types, Agent(Red)) == Total(first, Red) && Count(types, Agent(Blue)) == Total(first, Blue)
            && Total(first, first) == Total(first, Other(first)) + 1
            && Count(types, Neutral) == NEUTRAL_CARDS && Count(types, Assassin) == ASSASSIN_CARDS
  {
    var deck, types := Deck(FirstTeam(random, seed)), Types(random, seed);
    ShuffleKeepsCards(deck, seed + 500, random);
    assert |types| == |multiset(types)| == |multiset(deck)| == |deck|;
    forall card: Card ensures Count(types, card) == Count(deck, card) {
      CountIsMultiplicity(types, card);
      CountIsMultiplicity(deck, card);
    }
    forall card: Card { DeckCounts(FirstTeam(random, seed), card); }
  }

  /** The words of a board come from distinct positions of their pool. */
  lemma WordsComeFromDistinctPositions<T(!new)>(pool: seq<T>, seed: int, random: Generator, n: nat) returns (p: seq<nat>)
    requires n <= |pool|
    ensures |Shuffle(pool, seed, random)| == |pool| && |p| == n
    ensures forall i :: 0 <= i < n ==> p[i] < |pool| && Shuffle(pool, seed, random)[i] == pool[p[i]]
    ensures forall i, j :: 0 <= i < j < n ==> p[i] != p[j]
  {
    ShuffleIsAPermutation(pool, seed, random);
    p := Positions(|pool|, seed, random)[..n];
  }
}
