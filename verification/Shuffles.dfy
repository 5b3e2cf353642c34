/** Which permutation the shuffle is, and that nothing but its draws decides it. */
module Shuffles {
  import opened Seeded

  /** What is left when the item at `j` is taken: the last one moves into its place. */
  function Remaining<T>(s: seq<T>, j: nat): (r: seq<T>)
    requires j < |s|
    ensures |r| == |s| - 1
  {
    if j == |s| - 1 then s[..|s|-1] else s[..|s|-1][j := s[|s|-1]]
  }

  lemma SwapSnoc<T>(s: seq<T>, x: T, i: nat, j: nat)
    requires i < |s| && j < |s|
    ensures Swap(s + [x], i, j) == Swap(s, i, j) + [x]
  {
  }

  lemma OneStep<T>(s: seq<T>, i: nat, seed: int, random: Generator, next: seq<T>)
    requires 0 < i < |s| && next == Swap(s, i, Scaled(random(seed), i + 1))
    ensures ShuffleFrom(s, i, seed, random) == ShuffleFrom(next, i - 1, seed + 1, random)
  {
  }

  /** The steps below an index do not see what lies above it. */
  lemma {:induction false} LastStays<T>(s: seq<T>, x: T, i: nat, seed: int, random: Generator)
    requires i < |s|
    ensures ShuffleFrom(s + [x], i, seed, random) == ShuffleFrom(s, i, seed, random) + [x]
    decreases i
  {
    if i > 0 {
      var j := Scaled(random(seed), i + 1);
      var swapped := Swap(s, i, j);
      SwapSnoc(s, x, i, j);
      LastStays(swapped, x, i - 1, seed + 1, random);
      OneStep(s + [x], i, seed, random, swapped + [x]);
      OneStep(s, i, seed, random, swapped);
    }
  }

  /** The last item is the one at the drawn index, and before it comes the shuffle of what
      remains, by the next seed. */
  lemma ShuffleTakesTheDrawn<T>(s: seq<T>, seed: int, random: Generator)
    requires s != []
    ensures var j := Scaled(random(seed), |s|);
            Shuffle(s, seed, random) == Shuffle(Remaining(s, j), seed + 1, random) + [s[j]]
  {
    var j := Scaled(random(seed), |s|);
    if |s| > 1 {
      assert Swap(s, |s| - 1, j) == Remaining(s, j) + [s[j]];
      LastStays(Remaining(s, j), s[j], |s| - 2, seed + 1, random);
    } else {
      assert s == [] + [s[j]];
    }
  }

  // ---- By its indices ----

  /** An index for each draw, each among the items still there. */
  ghost predicate AreIndices(js: seq<nat>, n: nat) {
    |js| == n && forall k :: 0 <= k < n ==> js[k] < n - k
  }

  ghost function Arranged<T>(s: seq<T>, js: seq<nat>): (r: seq<T>)
    requires AreIndices(js, |s|)
    ensures |r| == |s|
    decreases |s|
  {
    if s == [] then [] else Arranged(Remaining(s, js[0]), js[1..]) + [s[js[0]]]
  }

  function Drawn(n: nat, seed: int, random: Generator): (js: seq<nat>)
    ensures |js| == n && forall k :: 0 <= k < n ==> js[k] == Scaled(random(seed + k), n - k)
  {
    seq<nat>(n, k requires 0 <= k < n => Scaled(random(seed + k), n - k))
  }

  lemma DrawnTail(n: nat, seed: int, random: Generator)
    requires n > 0
    ensures Drawn(n, seed, random)[1..] == Drawn(n - 1, seed + 1, random)
  {
    var js, ks := Drawn(n, seed, random)[1..], Drawn(n - 1, seed + 1, random);
    forall k | 0 <= k < n - 1 ensures js[k] == ks[k] {
      assert seed + (k + 1) == seed + 1 + k;
    }
  }

  lemma {:induction false} ShuffleIsArranged<T>(s: seq<T>, seed: int, random: Generator)
    ensures AreIndices(Drawn(|s|, seed, random), |s|)
    ensures Shuffle(s, seed, random) == Arranged(s, Drawn(|s|, seed, random))
    decreases |s|
  {
    var js := Drawn(|s|, seed, random);
    if s != [] {
      ShuffleTakesTheDrawn(s, seed, random);
      ShuffleIsArranged(Remaining(s, js[0]), seed + 1, random);
      DrawnTail(|s|, seed, random);
    }
  }

  predicate AllDistinct<T(==)>(s: seq<T>) {
    forall i, j :: 0 <= i < j < |s| ==> s[i] != s[j]
  }

  lemma RemainingDistinct<T>(s: seq<T>, j: nat)
    requires AllDistinct(s) && j < |s|
    ensures AllDistinct(Remaining(s, j))
  {
  }

  /** Of distinct items different indices make different arrangements. */
  lemma {:induction false} ArrangedOnce<T>(s: seq<T>, js: seq<nat>, ks: seq<nat>)
    requires AllDistinct(s) && AreIndices(js, |s|) && AreIndices(ks, |s|)
    requires Arranged(s, js) == Arranged(s, ks)
    ensures js == ks
    decreases |s|
  {
    if s != [] {
      var a, b := Arranged(Remaining(s, js[0]), js[1..]), Arranged(Remaining(s, ks[0]), ks[1..]);
      assert (a + [s[js[0]]])[|s| - 1] == (b + [s[ks[0]]])[|s| - 1];
      assert js[0] == ks[0];
      assert a == (a + [s[js[0]]])[..|s| - 1] == (b + [s[ks[0]]])[..|s| - 1] == b;
      RemainingDistinct(s, js[0]);
      ArrangedOnce(Remaining(s, js[0]), js[1..], ks[1..]);
      assert js == [js[0]] + js[1..] && ks == [ks[0]] + ks[1..];
    }
  }

  /** So two generators shuffle distinct items alike exactly when they draw the same
      indices. */
  lemma SameShuffleIff<T>(s: seq<T>, seed: int, random: Generator, other: Generator)
    requires AllDistinct(s)
    ensures Shuffle(s, seed, random) == Shuffle(s, seed, other) <==> Drawn(|s|, seed, random) == Drawn(|s|, seed, other)
  {
    ShuffleIsArranged(s, seed, random);
    ShuffleIsArranged(s, seed, other);
    if Shuffle(s, seed, random) == Shuffle(s, seed, other) {
      ArrangedOnce(s, Drawn(|s|, seed, random), Drawn(|s|, seed, other));
    }
  }

  // ---- Every arrangement arises ----

  lemma RemainingItems<T>(s: seq<T>, j: nat)
    requires j < |s|
    ensures multiset(Remaining(s, j)) == multiset(s) - multiset{s[j]}
  {
    var front, last := s[..|s|-1], s[|s|-1];
    assert s == front + [last];
    if j < |front| {
      assert multiset(front[j := last]) == multiset(front) - multiset{front[j]} + multiset{last};
    }
  }

  /** The indices that arrange `s` as `t`. */
  lemma {:induction false} EveryArrangementHasIndices<T>(s: seq<T>, t: seq<T>) returns (js: seq<nat>)
    requires multiset(s) == multiset(t)
    ensures AreIndices(js, |s|) && Arranged(s, js) == t
    decreases |s|
  {
    assert |s| == |multiset(s)| == |multiset(t)| == |t|;
    js := [];
    if s != [] {
      var j := LastIsThere(s, t);
      var ks := EveryArrangementHasIndices(Remaining(s, j), t[..|t|-1]);
      js := [j] + ks;
      assert js[1..] == ks && t == t[..|t|-1] + [s[j]];
    }
  }

  lemma LastIsThere<T>(s: seq<T>, t: seq<T>) returns (j: nat)
    requires s != [] && |s| == |t| && multiset(s) == multiset(t)
    ensures j < |s| && s[j] == t[|t|-1] && multiset(Remaining(s, j)) == multiset(t[..|t|-1])
  {
    var x := t[|t|-1];
    assert x in multiset(s);
    j :| 0 <= j < |s| && s[j] == x;
    RemainingItems(s, j);
    assert t == t[..|t|-1] + [x];
  }

  /** The smallest draw that is scaled to `j`. */
  function DrawFor(j: nat, n: nat): (draw: U32)
    requires j < n <= 0x1_0000_0000
    ensures Scaled(draw, n) == j
  {
    DrawForBounds(j, n);
    (j * 0x1_0000_0000 + n - 1) / n
  }

  lemma DrawForBounds(j: nat, n: nat)
    requires j < n <= 0x1_0000_0000
    ensures var draw := (j * 0x1_0000_0000 + n - 1) / n;
            0 <= draw < 0x1_0000_0000 && draw * n / 0x1_0000_0000 == j
  {
    var x := j * 0x1_0000_0000 + n - 1;
    var draw := x / n;
    Division(x, n);
    assert j * 0x1_0000_0000 <= draw * n < (j + 1) * 0x1_0000_0000;
    BelowTop(draw, n, j);
  }

  lemma BelowTop(draw: nat, n: nat, j: nat)
    requires j < n && draw * n < (j + 1) * 0x1_0000_0000
    ensures draw < 0x1_0000_0000
  {
    AtLeast(n, j + 1, 0x1_0000_0000);
    if draw >= 0x1_0000_0000 {
      AtLeast(draw, 0x1_0000_0000, n);
    }
  }

  lemma Division(x: nat, n: nat)
    requires n > 0
    ensures x - n < x / n * n <= x
  {
  }

  lemma AtLeast(a: nat, b: nat, n: nat)
    requires a >= b
    ensures a * n >= b * n
  {
  }

  ghost predicate CanBeDrawn(js: seq<nat>) {
    |js| <= 0x1_0000_0000 && AreIndices(js, |js|)
  }

  ghost function DrawAt(js: seq<nat>, seed: int, x: int): U32
    requires CanBeDrawn(js)
  {
    if seed <= x < seed + |js| then DrawFor(js[x - seed], |js| - (x - seed)) else 0
  }

  /** A generator with the given indices drawn from a seed on. */
  ghost function Drawing(js: seq<nat>, seed: int): Generator
    requires CanBeDrawn(js)
  {
    (x: int) => DrawAt(js, seed, x)
  }

  lemma DrawingDraws(js: seq<nat>, seed: int)
    requires CanBeDrawn(js)
    ensures Drawn(|js|, seed, Drawing(js, seed)) == js
  {
    var random := Drawing(js, seed);
    forall k | 0 <= k < |js| ensures Scaled(random(seed + k), |js| - k) == js[k] {
      assert random(seed + k) == DrawAt(js, seed, seed + k) == DrawFor(js[k], |js| - k);
    }
  }

  /** Every order of the items is dealt under some generator. */
  lemma EveryOrderIsDealt<T>(s: seq<T>, t: seq<T>, seed: int) returns (random: Generator)
    requires multiset(s) == multiset(t) && |s| <= 0x1_0000_0000
    ensures Shuffle(s, seed, random) == t
  {
    var js := EveryArrangementHasIndices(s, t);
    random := Drawing(js, seed);
    DrawingDraws(js, seed);
    ShuffleIsArranged(s, seed, random);
  }

  /** Only the draws of its own seeds matter. */
  lemma SameDraws<T>(s: seq<T>, seed: int, random: Generator, other: Generator)
    requires forall x :: seed <= x < seed + |s| ==> random(x) == other(x)
    ensures Shuffle(s, seed, random) == Shuffle(s, seed, other)
  {
    ShuffleIsArranged(s, seed, random);
    ShuffleIsArranged(s, seed, other);
    SameIndices(|s|, seed, random, other);
  }

  lemma SameIndices(n: nat, seed: int, random: Generator, other: Generator)
    requires forall x :: seed <= x < seed + n ==> random(x) == other(x)
    ensures Drawn(n, seed, random) == Drawn(n, seed, other)
  {
  }
}
