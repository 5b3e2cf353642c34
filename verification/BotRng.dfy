/** The bots' generator: Mulberry32 over a state stepped by an odd constant. */
module BotRng {
  import opened Seeded

  const GOLDEN: U32 := 0x9e37_79b9

  /** Its inverse modulo 2^32. */
  const INVERSE: U32 := 340573321

  class Rng {
    const random: Generator
    var state: U32
    ghost var seed: int
    ghost var draws: nat

    ghost predicate Valid()
      reads this
    {
      state == StateAfter(seed, draws)
    }

    constructor (seed: int, random: Generator)
      ensures Valid() && this.seed == seed && draws == 0 && this.random == random
    {
      this.random := random;
      this.seed, draws := seed, 0;
      state := ToUint32(seed);
      new;
    }

    method Next() returns (value: U32)
      requires Valid()
      modifies this
      ensures Valid() && seed == old(seed) && draws == old(draws) + 1
      ensures value == random(StateAfter(seed, old(draws)))
    {
      value := random(state);
      OneMore(seed, draws);
      state := ToUint32(state + GOLDEN);
      draws := draws + 1;
    }

    method Int(n: int) returns (r: nat)
      requires Valid()
      modifies this
      ensures Valid() && seed == old(seed)
      ensures n <= 0 ==> r == 0 && draws == old(draws)
      ensures n > 0 ==> r < n && draws == old(draws) + 1 && r == Scaled(random(StateAfter(seed, old(draws))), n)
    {
      if n <= 0 {
        return 0;
      }
      var value := Next();
      r := Scaled(value, n);
    }
  }

  function StateAfter(seed: int, draws: nat): U32 {
    ToUint32(seed + draws * GOLDEN)
  }

  lemma AddAfterReducing(x: int, y: int)
    ensures ToUint32(ToUint32(x) + y) == ToUint32(x + y)
  {
    var q := x / 0x1_0000_0000;
    assert ToUint32(x) == x - q * 0x1_0000_0000;
  }

  lemma OneMore(seed: int, draws: nat)
    ensures ToUint32(StateAfter(seed, draws) + GOLDEN) == StateAfter(seed, draws + 1)
  {
    AddAfterReducing(seed + draws * GOLDEN, GOLDEN);
  }

  lemma InverseOfGolden()
    ensures GOLDEN * INVERSE == 210485888 * 0x1_0000_0000 + 1
  {
  }

  lemma Congruent(x: int, y: int)
    ensures ToUint32(x) == ToUint32(y) <==> (x - y) % 0x1_0000_0000 == 0
  {
    assert x == x / 0x1_0000_0000 * 0x1_0000_0000 + x % 0x1_0000_0000 && y == y / 0x1_0000_0000 * 0x1_0000_0000 + y % 0x1_0000_0000;
  }

  lemma Cancel(d: int, k: int)
    requires d * 0x9e37_79b9 == k * 0x1_0000_0000
    ensures d == (k * 340573321 - d * 210485888) * 0x1_0000_0000
  {
  }

  /** A multiple of the step vanishes only when its factor does: the step is odd. */
  lemma StepIsInvertible(d: int)
    ensures d * GOLDEN % 0x1_0000_0000 == 0 <==> d % 0x1_0000_0000 == 0
  {
    if d * GOLDEN % 0x1_0000_0000 == 0 {
      Cancel(d, d * GOLDEN / 0x1_0000_0000);
    }
    if d % 0x1_0000_0000 == 0 {
      var k := d / 0x1_0000_0000;
      assert d * GOLDEN == (k * GOLDEN) * 0x1_0000_0000;
    }
  }

  /** Two draws see the same state exactly when they are a multiple of 2^32 apart, so no
      state repeats within 2^32 draws. */
  lemma StatesRepeatOnlyAfterAFullPeriod(seed: int, j: nat, k: nat)
    ensures StateAfter(seed, j) == StateAfter(seed, k) <==> (j - k) % 0x1_0000_0000 == 0
  {
    Congruent(seed + j * GOLDEN, seed + k * GOLDEN);
    assert seed + j * GOLDEN - (seed + k * GOLDEN) == (j - k) * GOLDEN;
    StepIsInvertible(j - k);
  }

  /** And every one of the 2^32 states comes up. */
  lemma EveryStateComesUp(seed: int, target: U32) returns (draws: nat)
    ensures draws < 0x1_0000_0000 && StateAfter(seed, draws) == target
  {
    var d := target - seed;
    draws := ToUint32(d * INVERSE);
    var q := d * INVERSE / 0x1_0000_0000;
    InverseOfGolden();
    assert draws == d * INVERSE - q * 0x1_0000_0000;
    assert draws * GOLDEN == d * (GOLDEN * INVERSE) - (q * GOLDEN) * 0x1_0000_0000;
    assert seed + draws * GOLDEN - target == (210485888 * d - q * GOLDEN) * 0x1_0000_0000;
    Congruent(seed + draws * GOLDEN, target);
  }
}
