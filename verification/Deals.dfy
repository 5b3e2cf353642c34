/** Which games can be dealt, and how the parts of a deal hang together. */
module Deals {
  import opened GameRules
  import opened Seeded
  import opened Shuffles
  import opened Board

  /** Red starts on the upper half of the draw 1000 above the seed. */
  lemma StarterIff(random: Generator, n: int)
    ensures FirstTeam(random, n) == Red <==> 2 * random(n + 1000) > 0x1_0000_0000
  {
  }

  lemma MixedValues()
    ensures Mixed(0x6d2b79f5) == 1144304738 && Mixed(0x6d2b79f6) == 2693262067 && Mixed(0x6d2b79f4) == 3850105811
    ensures Mixed(0xed2b79f5) == 3524353788 && Mixed(0x6d2b7ddd) == 3415336119
  {
  }

  lemma MulberryValue(seed: int, t: bv32, draw: bv32)
    requires t as int == ToUint32(seed + 0x6d2b79f5) && Mixed(t) == draw
    ensures Mulberry32(seed) == draw as int
  {
  }

  /** Draws of the game's own generator. */
  lemma DrawOfZero()
    ensures Mulberry32(0) == 1144304738
  {
    MixedValues();
    MulberryValue(0, 0x6d2b79f5, 1144304738);
  }

  lemma DrawOfMinusOne()
    ensures Mulberry32(-1) == 3850105811
  {
    MixedValues();
    MulberryValue(-1, 0x6d2b79f4, 3850105811);
  }

  lemma DrawOfAThousand()
    ensures Mulberry32(1000) == 3415336119 && FirstTeam(Mulberry32, 0) == Red
  {
    MixedValues();
    MulberryValue(1000, 0x6d2b7ddd, 3415336119);
  }

  /** The cards before they are shuffled: red's, blue's, the neutral ones, the assassin. */
  lemma DeckInOrder(first: Team, i: nat)
    requires i < 25
    ensures |Deck(first)| == 25
    ensures var red := if first == Red then 9 else 8;
            Deck(first)[i] == if i < red then Agent(Red) else if i < 17 then Agent(Blue) else if i < 24 then Neutral else Assassin
  {
  }

  /** What is left of a pool without some items of it, in some order. */
  lemma {:induction false} RestOf<T>(pool: seq<T>, items: seq<T>) returns (rest: seq<T>)
    requires multiset(items) <= multiset(pool)
    ensures multiset(items + rest) == multiset(pool)
    decreases |items|
  {
    if items == [] {
      rest := pool;
      assert items + rest == pool;
    } else {
      var j := FirstIsThere(pool, items);
      rest := RestOf(Remaining(pool, j), items[1..]);
      Together(pool, items, rest, multiset(Remaining(pool, j)));
    }
  }

  lemma Together<T>(pool: seq<T>, items: seq<T>, rest: seq<T>, others: multiset<T>)
    requires items != [] && items[0] in multiset(pool) && others == multiset(pool) - multiset{items[0]}
    requires multiset(items[1..] + rest) == others
    ensures multiset(items + rest) == multiset(pool)
  {
    assert items + rest == [items[0]] + (items[1..] + rest);
  }

  lemma FirstIsThere<T>(pool: seq<T>, items: seq<T>) returns (j: nat)
    requires items != [] && multiset(items) <= multiset(pool)
    ensures j < |pool| && multiset(Remaining(pool, j)) == multiset(pool) - multiset{items[0]}
    ensures items[0] in multiset(pool) && multiset(items[1..]) <= multiset(Remaining(pool, j))
  {
    assert items[0] in multiset(items);
    assert items[0] in multiset(pool);
    j :| 0 <= j < |pool| && pool[j] == items[0];
    RemainingItems(pool, j);
    assert items == [items[0]] + items[1..];
  }

  /** One generator made of three, each for the seeds of its part. */
  ghost function Merged(n: int, size: nat, words: Generator, types: Generator, starter: U32): Generator {
    (x: int) => if n <= x < n + size then words(x) else if x == n + 1000 then starter else types(x)
  }

  lemma MergedStarter(n: int, size: nat, words: Generator, types: Generator, first: Team)
    requires size <= 500
    ensures FirstTeam(Merged(n, size, words, types, if first == Red then 0xFFFF_FFFF else 0), n) == first
  {
  }

  /** Nothing ties the starter, the arrangement of the cards and the choice and order of the
      words of a board together, for pools of up to 500 words: any starter, any arrangement
      of that starter's cards and any 25 words of the pool in any order are dealt under some
      generator, from the same number. */
  lemma EveryDealArises<T>(pool: seq<T>, words: seq<T>, first: Team, types: seq<Card>, n: int) returns (random: Generator)
    requires |pool| <= 500 && |words| == BOARD_SIZE && multiset(words) <= multiset(pool)
    requires multiset(types) == multiset(Deck(first))
    ensures FirstTeam(random, n) == first && Types(random, n) == types
    ensures |Shuffle(pool, n, random)| == |pool| >= BOARD_SIZE && Shuffle(pool, n, random)[..BOARD_SIZE] == words
  {
    DeckCounts(first, Neutral);
    var rest := RestOf(pool, words);
    var forWords := EveryOrderIsDealt(pool, words + rest, n);
    var forTypes := EveryOrderIsDealt(Deck(first), types, n + 500);
    random := Merged(n, |pool|, forWords, forTypes, if first == Red then 0xFFFF_FFFF else 0);
    MergedStarter(n, |pool|, forWords, forTypes, first);
    SameDraws(pool, n, random, forWords);
    SameDraws(Deck(first), n + 500, random, forTypes);
    assert |pool| == |multiset(pool)| == |multiset(words + rest)| == |words + rest|;
    assert (words + rest)[..BOARD_SIZE] == words;
  }
}
