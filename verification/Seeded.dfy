/** The seeded arithmetic that makes a board a function of its seed: 32-bit hashing, the
    Mulberry32 generator, the shuffle and the bots' generator. */
module Seeded {
  import opened JsText

  type U32 = x: int | 0 <= x < 0x1_0000_0000

  /** `>>> 0`. */
  function ToUint32(x: int): U32 { x % 0x1_0000_0000 }

  /** `| 0`, section 7.1.6 of ECMA-262. */
  function ToInt32(x: int): (r: int)
    ensures -0x8000_0000 <= r < 0x8000_0000
  {
    var u := x % 0x1_0000_0000;
    if u < 0x8000_0000 then u else u - 0x1_0000_0000
  }

  /** Truncation takes away a multiple of 2^32. */
  lemma Wraps(x: int) returns (k: int)
    ensures ToInt32(x) == x + k * 0x1_0000_0000
  {
    k := 0 - x / 0x1_0000_0000 - if x % 0x1_0000_0000 < 0x8000_0000 then 0 else 1;
  }

  lemma SameWord(x: int, y: int, k: int)
    requires x == y + k * 0x1_0000_0000
    ensures ToInt32(x) == ToInt32(y)
  {
  }

  // ---- hashString ----

  function Abs(x: int): nat {
    if x < 0 then 0 - x else x
  }

  /** The base-31 polynomial over the code points, most significant first. */
  function Polynomial(points: seq<Point>): nat {
    if points == [] then 0 else 31 * Polynomial(points[..|points|-1]) + points[|points|-1]
  }

  function Power31(n: nat): nat {
    if n == 0 then 1 else 31 * Power31(n - 1)
  }

  /** The loop: shift, subtract, add, truncate. */
  function HashStep(hash: int, p: Point): int {
    ToInt32(ToInt32(hash * 32) - hash + p)
  }

  lemma HashStepIs(x: int, p: Point)
    ensures HashStep(ToInt32(x), p) == ToInt32(31 * x + p)
  {
    var hash := ToInt32(x);
    var b := Wraps(x);
    var a := Wraps(hash * 32);
    SameWord(ToInt32(hash * 32) - hash + p, 31 * x + p, a + 31 * b);
  }

  method HashString(str: Text) returns (r: nat)
    ensures r == Abs(ToInt32(Polynomial(Points(str)))) && r <= 0x8000_0000
  {
    var hash := 0;
    var points := Points(str);
    for i := 0 to |points|
      invariant hash == ToInt32(Polynomial(points[..i]))
    {
      assert points[..i + 1][..i] == points[..i];
      HashStepIs(Polynomial(points[..i]), points[i]);
      hash := HashStep(hash, points[i]);
    }
    assert points[..|points|] == points;
    r := Abs(hash);
  }

  function Hash(str: Text): (r: nat)
    ensures r <= 0x8000_0000
  {
    Abs(ToInt32(Polynomial(Points(str))))
  }

  /** H(a + b) = H(a) * 31^|b| + H(b), before reduction. */
  lemma {:induction false} PolynomialOfConcatenation(a: seq<Point>, b: seq<Point>)
    ensures Polynomial(a + b) == Polynomial(a) * Power31(|b|) + Polynomial(b)
  {
    if b == [] {
      assert a + b == a;
    } else {
      var c, x := b[..|b|-1], b[|b|-1];
      PolynomialOfConcatenation(a, c);
      assert (a + b)[..|a + b|-1] == a + c;
      assert 31 * (Polynomial(a) * Power31(|c|)) == Polynomial(a) * Power31(|b|);
    }
  }

  lemma Distribute(x: int, k: int, m: int, y: int, l: int)
    ensures (x + k * 0x1_0000_0000) * m + (y + l * 0x1_0000_0000) == x * m + y + (k * m + l) * 0x1_0000_0000
  {
    calc {
      (x + k * 0x1_0000_0000) * m;
    ==
      x * m + (k * 0x1_0000_0000) * m;
    ==
      x * m + (k * m) * 0x1_0000_0000;
    }
  }

  lemma WordsCombine(x: int, y: int, m: int)
    ensures ToInt32(x * m + y) == ToInt32(ToInt32(x) * m + ToInt32(y))
  {
    var k := Wraps(x);
    var l := Wraps(y);
    Distribute(x, k, m, y, l);
    SameWord(ToInt32(x) * m + ToInt32(y), x * m + y, k * m + l);
  }

  /** The concatenation law the signed 32-bit hashes themselves satisfy. */
  lemma HashOfConcatenation(a: seq<Point>, b: seq<Point>)
    ensures ToInt32(Polynomial(a + b)) == ToInt32(ToInt32(Polynomial(a)) * Power31(|b|) + ToInt32(Polynomial(b)))
  {
    PolynomialOfConcatenation(a, b);
    WordsCombine(Polynomial(a), Polynomial(b), Power31(|b|));
  }

  // ---- seededRandom ----

  /** A seeded generator: its draw times 2^32. What is proved of the shuffle and of the
      boards holds for every generator. */
  type Generator = int -> U32

  function Mixed(t: bv32): bv32 {
    var t1: bv32 := (t ^ (t >> 15)) * (t | 1);
    var t2: bv32 := t1 ^ (t1 + (t1 ^ (t1 >> 7)) * (t1 | 61));
    t2 ^ (t2 >> 14)
  }

  /** The one the game uses. */
  function Mulberry32(seed: int): U32 {
    Mixed(ToUint32(seed + 0x6d2b79f5) as bv32) as int
  }

  /** `Math.floor(draw / 2^32 * n)`: the product is exact for every array a browser deals. */
  function Scaled(draw: U32, n: nat): (r: nat)
    ensures n > 0 ==> r < n
    ensures n == 0 ==> r == 0
    ensures r * 0x1_0000_0000 <= draw * n < (r + 1) * 0x1_0000_0000
  {
    ScaledBound(draw, n);
    draw * n / 0x1_0000_0000
  }

  lemma ScaledBound(draw: U32, n: nat)
    ensures 0 <= draw * n
    ensures n > 0 ==> draw * n / 0x1_0000_0000 < n
  {
    if n > 0 {
      assert draw * n < 0x1_0000_0000 * n;
    }
  }

  // ---- shuffleWithSeed ----

  function Swap<T>(s: seq<T>, i: nat, j: nat): seq<T>
    requires i < |s| && j < |s|
  {
    s[i := s[j]][j := s[i]]
  }

  /** The steps of the shuffle from index `i` down to 1. */
  function ShuffleFrom<T>(s: seq<T>, i: nat, seed: int, random: Generator): (r: seq<T>)
    requires i < |s| || s == []
    ensures |r| == |s|
    decreases i
  {
    if i == 0 || s == [] then s else ShuffleFrom(Swap(s, i, Scaled(random(seed), i + 1)), i - 1, seed + 1, random)
  }

  function Shuffle<T>(s: seq<T>, seed: int, random: Generator): (r: seq<T>)
    ensures |r| == |s|
  {
    if s == [] then [] else ShuffleFrom(s, |s| - 1, seed, random)
  }

  method ShuffleWithSeed<T>(a: array<T>, seed: int, random: Generator)
    modifies a
    ensures a[..] == Shuffle(old(a[..]), seed, random)
  {
    if a.Length == 0 {
      return;
    }
    var currentSeed := seed;
    var i := a.Length - 1;
    while i > 0
      invariant 0 <= i < a.Length
      invariant ShuffleFrom(a[..], i, currentSeed, random) == Shuffle(old(a[..]), seed, random)
    {
      var j := Scaled(random(currentSeed), i + 1);
      ghost var before := a[..];
      currentSeed := currentSeed + 1;
      a[i], a[j] := a[j], a[i];
      assert a[..] == Swap(before, i, j);
      i := i - 1;
    }
  }

  function Identity(n: nat): (r: seq<nat>)
    ensures |r| == n && forall i :: 0 <= i < n ==> r[i] == i
  {
    seq(n, i => i)
  }

  /** Where each card of a shuffled array of `n` came from. */
  function Positions(n: nat, seed: int, random: Generator): seq<nat> {
    Shuffle(Identity(n), seed, random)
  }

  ghost predicate IsPermutation(p: seq<nat>) {
    && (forall i :: 0 <= i < |p| ==> p[i] < |p|)
    && (forall i, j :: 0 <= i < j < |p| ==> p[i] != p[j])
  }

  ghost predicate Taken<T(!new)>(r: seq<T>, s: seq<T>, p: seq<nat>) {
    && |r| == |s| == |p|
    && forall i :: 0 <= i < |p| ==> p[i] < |s| && r[i] == s[p[i]]
  }

  lemma {:induction false} ShufflesAlike<T(!new)>(r: seq<T>, s: seq<T>, p: seq<nat>, i: nat, seed: int, random: Generator)
    requires IsPermutation(p) && Taken(r, s, p) && (i < |s| || s == [])
    ensures IsPermutation(ShuffleFrom(p, i, seed, random)) && Taken(ShuffleFrom(r, i, seed, random), s, ShuffleFrom(p, i, seed, random))
    decreases i
  {
    if i > 0 && s != [] {
      var j := Scaled(random(seed), i + 1);
      ShufflesAlike(Swap(r, i, j), s, Swap(p, i, j), i - 1, seed + 1, random);
    }
  }

  /** The shuffle moves cards by one permutation of the positions, which depends only on
      how many there are and the seed, never on the cards. */
  lemma ShuffleIsAPermutation<T(!new)>(s: seq<T>, seed: int, random: Generator)
    ensures IsPermutation(Positions(|s|, seed, random)) && Taken(Shuffle(s, seed, random), s, Positions(|s|, seed, random))
  {
    if s != [] {
      var p := Identity(|s|);
      assert IsPermutation(p) && Taken(s, s, p);
      ShufflesAlike(s, s, p, |s| - 1, seed, random);
    }
  }

  lemma SwapKeepsCards<T>(s: seq<T>, i: nat, j: nat)
    requires i < |s| && j < |s|
    ensures multiset(Swap(s, i, j)) == multiset(s)
  {
  }

  lemma {:induction false} ShuffleKeepsCardsFrom<T>(s: seq<T>, i: nat, seed: int, random: Generator)
    requires i < |s| || s == []
    ensures multiset(ShuffleFrom(s, i, seed, random)) == multiset(s)
    decreases i
  {
    if i > 0 && s != [] {
      var j := Scaled(random(seed), i + 1);
      SwapKeepsCards(s, i, j);
      ShuffleKeepsCardsFrom(Swap(s, i, j), i - 1, seed + 1, random);
    }
  }

  /** Every card is dealt as often as it was there. */
  lemma ShuffleKeepsCards<T>(s: seq<T>, seed: int, random: Generator)
    ensures multiset(Shuffle(s, seed, random)) == multiset(s)
  {
    if s != [] {
      ShuffleKeepsCardsFrom(s, |s| - 1, seed, random);
    }
  }
}
