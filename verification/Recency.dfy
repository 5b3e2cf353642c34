/** Bounded recency order. The keys of a capped insertion-ordered map are
    followed through every kind of write the server performs on one:
    delete-then-set, a bare set, and delete. */
module Recency {
  import opened Common

  ghost predicate NoDup<K(!new)>(s: seq<K>) {
    s == [] || (s[0] !in s[1..] && NoDup(s[1..]))
  }

  function Without<K(==)>(s: seq<K>, k: K): (r: seq<K>)
    ensures |r| <= |s|
    ensures k in s ==> |r| < |s|
  {
    if s == [] then [] else (if s[0] == k then [] else [s[0]]) + Without(s[1..], k)
  }

  /** The keys that stand behind `x`, that is, were inserted after it. */
  function Later<K(==,!new)>(s: seq<K>, x: K): set<K> {
    if s == [] then {} else if s[0] == x then Elements(s[1..]) else Later(s[1..], x)
  }

  function Elements<K(==,!new)>(s: seq<K>): (r: set<K>)
    ensures forall x :: x in r <==> x in s
  {
    set x | x in s
  }

  lemma {:induction false} WithoutNoDup<K(!new)>(s: seq<K>, k: K)
    requires NoDup(s)
    ensures NoDup(Without(s, k))
    ensures k in s ==> |Without(s, k)| == |s| - 1
    ensures k !in s ==> Without(s, k) == s
    ensures forall x :: x in Without(s, k) <==> x in s && x != k
  {
    if s != [] {
      WithoutNoDup(s[1..], k);
      if s[0] != k {
        assert Without(s, k)[1..] == Without(s[1..], k);
      } else {
        assert Without(s, k) == Without(s[1..], k);
      }
    }
  }

  lemma {:induction false} SnocNoDup<K(!new)>(s: seq<K>, k: K)
    requires NoDup(s) && k !in s
    ensures NoDup(s + [k])
  {
    if s != [] {
      SnocNoDup(s[1..], k);
      assert (s + [k])[1..] == s[1..] + [k];
    }
  }

  lemma {:induction false} NoDupSize<K(!new)>(s: seq<K>)
    requires NoDup(s)
    ensures |Elements(s)| == |s|
  {
    if s != [] {
      NoDupSize(s[1..]);
      assert Elements(s) == {s[0]} + Elements(s[1..]);
    }
  }

  lemma {:induction false} LaterWithout<K(!new)>(s: seq<K>, k: K, x: K)
    requires NoDup(s) && x in s && x != k
    ensures Later(Without(s, k), x) == Later(s, x) - {k}
  {
    WithoutNoDup(s[1..], k);
    if s[0] != x {
      LaterWithout(s[1..], k, x);
      if s[0] != k {
        assert Without(s, k)[1..] == Without(s[1..], k);
      } else {
        assert Without(s, k) == Without(s[1..], k);
        LaterMembers(s[1..], x);
      }
    } else {
      assert Without(s, k)[1..] == Without(s[1..], k);
    }
  }

  lemma {:induction false} LaterMembers<K(!new)>(s: seq<K>, x: K)
    ensures forall y :: y in Later(s, x) ==> y in s
  {
    if s != [] && s[0] != x {
      LaterMembers(s[1..], x);
    }
  }

  lemma {:induction false} LaterSnoc<K(!new)>(s: seq<K>, k: K, x: K)
    requires x in s
    ensures Later(s + [k], x) == Later(s, x) + {k}
  {
    assert (s + [k])[1..] == s[1..] + [k];
    if s[0] != x {
      LaterSnoc(s[1..], k, x);
    }
  }

  lemma {:induction false} LaterLast<K(!new)>(s: seq<K>, k: K)
    requires k !in s
    ensures Later(s + [k], k) == {}
  {
    if s != [] {
      assert (s + [k])[1..] == s[1..] + [k];
      LaterLast(s[1..], k);
    }
  }

  lemma {:induction false} LaterCount<K(!new)>(s: seq<K>, x: K)
    requires NoDup(s) && x in s
    ensures |Later(s, x)| <= |s| - 1
    ensures s[0] == x ==> |Later(s, x)| == |s| - 1
  {
    if s[0] == x {
      NoDupSize(s[1..]);
    } else {
      LaterCount(s[1..], x);
    }
  }

  lemma WithoutHead<K(!new)>(s: seq<K>)
    requires NoDup(s) && s != []
    ensures Without(s, s[0]) == s[1..]
  {
    WithoutNoDup(s[1..], s[0]);
  }

  /** `Refresh` deletes the key before setting it, `Put` only sets it. Both trim
      the front afterwards. */
  datatype KeyOp<K> = Refresh(key: K) | Put(key: K) | Drop(key: K) | Clear

  function Step<K(==,!new)>(s: seq<K>, op: KeyOp<K>, cap: nat): seq<K> {
    match op
    case Refresh(k) => LastN(cap, Without(s, k) + [k])
    case Put(k) => LastN(cap, if k in s then s else s + [k])
    case Drop(k) => Without(s, k)
    case Clear => []
  }

  function Keys<K(==,!new)>(h: seq<KeyOp<K>>, cap: nat): seq<K> {
    if h == [] then [] else Step(Keys(h[..|h|-1], cap), h[|h|-1], cap)
  }

  /** The last call moved or inserted `x` at the back of the order. */
  predicate PlacesLast<K(==,!new)>(h: seq<KeyOp<K>>, x: K, cap: nat)
    requires h != []
  {
    var op := h[|h|-1];
    op == Refresh(x) || (op == Put(x) && x !in Keys(h[..|h|-1], cap))
  }

  /** The keys other than `x` written since `x` was last placed at the back. */
  function Since<K(==,!new)>(h: seq<KeyOp<K>>, x: K, cap: nat): (r: set<K>)
    ensures x !in r
  {
    if h == [] || PlacesLast(h, x, cap) then {} else
      var op := h[|h|-1];
      var before := Since(h[..|h|-1], x, cap);
      if (op.Refresh? || op.Put?) && op.key != x then before + {op.key} else before
  }

  /** The keys placed at the back after `x` last was, and not dropped again. */
  function Behind<K(==,!new)>(h: seq<KeyOp<K>>, x: K, cap: nat): set<K> {
    if h == [] || PlacesLast(h, x, cap) then {} else
      var op, before := h[|h|-1], Behind(h[..|h|-1], x, cap);
      match op
      case Clear => {}
      case Drop(k) => before - {k}
      case Refresh(k) => before + {k}
      case Put(k) => if PlacesLast(h, k, cap) then before + {k} else before
  }

  ghost predicate OnlyRefreshes<K(!new)>(h: seq<KeyOp<K>>) {
    forall i :: 0 <= i < |h| ==> h[i].Refresh?
  }

  predicate Writes<K(==)>(op: KeyOp<K>, x: K) {
    op == Refresh(x) || op == Put(x)
  }

  predicate Removes<K(==)>(op: KeyOp<K>, x: K) {
    op == Drop(x) || op == Clear
  }

  /** The call before `n` did not remove `x` and left fewer than `cap` keys behind it. */
  predicate KeptAt<K(==,!new)>(h: seq<KeyOp<K>>, n: nat, x: K, cap: nat)
    requires 0 < n <= |h|
  {
    !Removes(h[n-1], x) && |Behind(h[..n], x, cap)| < cap
  }

  /** From the call at `i` on, no call removed `x` and never were `cap` keys behind it. */
  ghost predicate KeptSince<K(!new)>(h: seq<KeyOp<K>>, i: nat, x: K, cap: nat) {
    forall n :: i < n <= |h| ==> KeptAt(h, n, x, cap)
  }

  /** `x` was written, and kept since. */
  ghost predicate Recent<K(!new)>(h: seq<KeyOp<K>>, x: K, cap: nat) {
    exists i :: 0 <= i < |h| && Writes(h[i], x) && KeptSince(h, i, x, cap)
  }

  lemma LastNBounded<K(!new)>(s: seq<K>, cap: nat)
    requires NoDup(s) && |s| <= cap + 1
    ensures NoDup(LastN(cap, s)) && |LastN(cap, s)| <= cap
  {
  }

  lemma StepBounded<K(!new)>(s: seq<K>, op: KeyOp<K>, cap: nat)
    requires NoDup(s) && |s| <= cap
    ensures NoDup(Step(s, op, cap)) && |Step(s, op, cap)| <= cap
  {
    match op
    case Refresh(k) =>
      WithoutNoDup(s, k);
      SnocNoDup(Without(s, k), k);
      LastNBounded(Without(s, k) + [k], cap);
    case Put(k) =>
      if k !in s {
        SnocNoDup(s, k);
      }
      LastNBounded(if k in s then s else s + [k], cap);
    case Drop(k) => WithoutNoDup(s, k);
    case Clear =>
  }

  lemma {:induction false} KeysBounded<K(!new)>(h: seq<KeyOp<K>>, cap: nat)
    ensures NoDup(Keys(h, cap)) && |Keys(h, cap)| <= cap
  {
    if h != [] {
      KeysBounded(h[..|h|-1], cap);
      StepBounded(Keys(h[..|h|-1], cap), h[|h|-1], cap);
    }
  }

  /** The two shapes a write can give a capped order: append, or append and lose
      the front key. */
  lemma TrimSnoc<K(!new)>(s: seq<K>, k: K, cap: nat)
    requires |s| <= cap && 0 < cap
    ensures LastN(cap, s + [k]) == (if |s| < cap then s else s[1..]) + [k]
  {
    if |s| == cap {
      assert (s + [k])[1..] == s[1..] + [k];
    }
  }

  lemma LaterAppended<K(!new)>(s: seq<K>, k: K, x: K, cap: nat)
    requires NoDup(s) && |s| <= cap && 0 < cap && k !in s
    requires x in LastN(cap, s + [k])
    ensures Later(LastN(cap, s + [k]), x) == if x == k then {} else Later(s, x) + {k}
  {
    TrimSnoc(s, k, cap);
    var t := if |s| < cap then s else s[1..];
    if x == k {
      LaterLast(t, k);
    } else {
      LaterSnoc(t, k, x);
    }
  }

  /** The keys behind `x` in the order are exactly those placed there after it. */
  lemma {:induction false} LaterIsBehind<K(!new)>(h: seq<KeyOp<K>>, x: K, cap: nat)
    requires 0 < cap && x in Keys(h, cap)
    ensures Later(Keys(h, cap), x) == Behind(h, x, cap)
  {
    if h == [] { return; }
    var pre, op := h[..|h|-1], h[|h|-1];
    var s := Keys(pre, cap);
    KeysBounded(pre, cap);
    if x in s && op != Refresh(x) {
      LaterIsBehind(pre, x, cap);
      if !op.Clear? && x != op.key {
        LaterWithout(s, op.key, x);
      }
    }
    match op
    case Refresh(k) =>
      WithoutNoDup(s, k);
      LaterAppended(Without(s, k), k, x, cap);
    case Put(k) =>
      if k !in s {
        LaterMembers(s, x);
        LaterAppended(s, k, x, cap);
      }
    case Drop(k) => WithoutNoDup(s, k);
    case Clear =>
  }

  lemma {:induction false} BehindIsSince<K(!new)>(h: seq<KeyOp<K>>, x: K, cap: nat)
    ensures Behind(h, x, cap) <= Since(h, x, cap)
    ensures OnlyRefreshes(h) ==> Behind(h, x, cap) == Since(h, x, cap)
  {
    if h != [] {
      BehindIsSince(h[..|h|-1], x, cap);
    }
  }

  /** In particular they were all written since `x` was last placed at the back, and are
      all of those when every write refreshes and nothing is dropped. */
  lemma LaterIsSince<K(!new)>(h: seq<KeyOp<K>>, x: K, cap: nat)
    requires 0 < cap && x in Keys(h, cap)
    ensures Later(Keys(h, cap), x) <= Since(h, x, cap)
    ensures OnlyRefreshes(h) ==> Later(Keys(h, cap), x) == Since(h, x, cap)
  {
    LaterIsBehind(h, x, cap);
    BehindIsSince(h, x, cap);
  }

  /** The key just written is never the victim of the trim that follows. */
  lemma JustWrittenStays<K(!new)>(h: seq<KeyOp<K>>, op: KeyOp<K>, cap: nat)
    requires 0 < cap && (op.Refresh? || op.Put?)
    ensures op.key in Keys(h + [op], cap)
  {
    assert (h + [op])[..|h|] == h;
    KeysBounded(h, cap);
    WithoutNoDup(Keys(h, cap), op.key);
    TrimSnoc(Without(Keys(h, cap), op.key), op.key, cap);
    TrimSnoc(Keys(h, cap), op.key, cap);
  }

  lemma {:induction false} SubsetSize<T>(a: set<T>, b: set<T>)
    requires a <= b
    ensures |a| <= |b|
  {
    if a != {} {
      var t :| t in a;
      SubsetSize(a - {t}, b - {t});
    }
  }

  /** A key lost to a call that does not name it was pushed out by a write of
      another key, and at least `cap` distinct other keys were written since it
      was last placed at the back. */
  lemma EvictedOnlyAfterCapOthers<K(!new)>(h: seq<KeyOp<K>>, op: KeyOp<K>, x: K, cap: nat)
    requires 0 < cap
    requires x in Keys(h, cap) && x !in Keys(h + [op], cap)
    requires op != Drop(x) && op != Clear
    ensures (op.Refresh? || op.Put?) && op.key != x
    ensures |Since(h + [op], x, cap)| >= cap
  {
    assert (h + [op])[..|h|] == h;
    var s := Keys(h, cap);
    KeysBounded(h, cap);
    if op.Drop? {
      WithoutNoDup(s, op.key);
    } else {
      var k := op.key;
      JustWrittenStays(h, op, cap);
      var d := Without(s, k);
      WithoutNoDup(s, k);
      TrimSnoc(d, k, cap);
      assert |d| == cap && d[0] == x;
      LaterIsSince(h, x, cap);
      LaterCount(d, x);
      LaterWithout(s, k, x);
      assert |Later(d, x) + {k}| == cap;
      SubsetSize(Later(d, x) + {k}, Since(h + [op], x, cap));
    }
  }

  /** A write of another key pushes `x` out exactly when it makes the `cap`th key behind. */
  lemma PushedOut<K(!new)>(h: seq<KeyOp<K>>, op: KeyOp<K>, x: K, cap: nat)
    requires 0 < cap && x in Keys(h, cap) && !Removes(op, x) && !Writes(op, x)
    ensures x in Keys(h + [op], cap) <==> |Behind(h + [op], x, cap)| < cap
  {
    var next := h + [op];
    assert next[..|h|] == h;
    var s := Keys(h, cap);
    KeysBounded(h, cap);
    KeysBounded(next, cap);
    LaterIsBehind(h, x, cap);
    if x in Keys(next, cap) {
      LaterIsBehind(next, x, cap);
      LaterCount(Keys(next, cap), x);
    } else if op.Drop? {
      WithoutNoDup(s, op.key);
    } else {
      var k := op.key;
      var d := Without(s, k);
      WithoutNoDup(s, k);
      TrimSnoc(d, k, cap);
      LaterCount(d, x);
      LaterWithout(s, k, x);
      assert Later(d, x) + {k} == Behind(next, x, cap);
    }
  }

  /** Still kept after one more call: kept before, not removed, not pushed out. */
  lemma KeptOneMore<K(!new)>(h: seq<KeyOp<K>>, op: KeyOp<K>, i: nat, x: K, cap: nat)
    requires i <= |h|
    ensures KeptSince(h + [op], i, x, cap) <==>
            KeptSince(h, i, x, cap) && !Removes(op, x) && |Behind(h + [op], x, cap)| < cap
  {
    var next := h + [op];
    assert next[..|next|] == next;
    assert KeptAt(next, |next|, x, cap) <==> !Removes(op, x) && |Behind(next, x, cap)| < cap;
    forall n | 0 < n <= |h| ensures KeptAt(next, n, x, cap) <==> KeptAt(h, n, x, cap) {
      assert next[..n] == h[..n] && next[n-1] == h[n-1];
    }
  }

  lemma RecentStep<K(!new)>(h: seq<KeyOp<K>>, op: KeyOp<K>, x: K, cap: nat)
    ensures Recent(h + [op], x, cap) <==>
            && (Writes(op, x) || Recent(h, x, cap))
            && !Removes(op, x) && |Behind(h + [op], x, cap)| < cap
  {
    var next := h + [op];
    forall i | 0 <= i <= |h|
      ensures KeptSince(next, i, x, cap) <==> KeptSince(h, i, x, cap) && !Removes(op, x) && |Behind(next, x, cap)| < cap
    {
      KeptOneMore(h, op, i, x, cap);
    }
    assert Writes(next[|h|], x) <==> Writes(op, x);
    if i :| 0 <= i < |h| && Writes(h[i], x) && KeptSince(h, i, x, cap) {
      assert Writes(next[i], x);
    }
    if i :| 0 <= i < |next| && Writes(next[i], x) && KeptSince(next, i, x, cap) {
      assert i < |h| ==> Writes(h[i], x);
    }
  }

  /** What is held after one more call. */
  lemma HeldStep<K(!new)>(h: seq<KeyOp<K>>, op: KeyOp<K>, x: K, cap: nat)
    requires 0 < cap
    ensures x in Keys(h + [op], cap) <==>
            && (Writes(op, x) || x in Keys(h, cap))
            && !Removes(op, x) && |Behind(h + [op], x, cap)| < cap
  {
    if Writes(op, x) {
      WriteHolds(h, op, x, cap);
    } else if Removes(op, x) {
      NotHeld(h, op, x, cap);
    } else if x in Keys(h, cap) {
      PushedOut(h, op, x, cap);
    } else {
      NotHeld(h, op, x, cap);
    }
  }

  lemma WriteHolds<K(!new)>(h: seq<KeyOp<K>>, op: KeyOp<K>, x: K, cap: nat)
    requires 0 < cap && Writes(op, x)
    ensures x in Keys(h + [op], cap) && |Behind(h + [op], x, cap)| < cap
  {
    JustWrittenStays(h, op, cap);
    KeysBounded(h + [op], cap);
    LaterIsBehind(h + [op], x, cap);
    LaterCount(Keys(h + [op], cap), x);
  }

  lemma NotHeld<K(!new)>(h: seq<KeyOp<K>>, op: KeyOp<K>, x: K, cap: nat)
    requires !Writes(op, x) && (Removes(op, x) || x !in Keys(h, cap))
    ensures x !in Keys(h + [op], cap)
  {
    assert (h + [op])[..|h|] == h;
    KeysBounded(h, cap);
    if !op.Clear? {
      WithoutNoDup(Keys(h, cap), op.key);
    }
  }

  /** The order is exactly least-recently-placed, through every run of writes, drops and
      clears: a key is held if and only if it was written, not removed since, and never
      had `cap` keys behind it. */
  lemma {:induction false} HeldIffRecentEnough<K(!new)>(h: seq<KeyOp<K>>, x: K, cap: nat)
    requires 0 < cap
    ensures x in Keys(h, cap) <==> Recent(h, x, cap)
  {
    if h == [] { return; }
    var pre, op := h[..|h|-1], h[|h|-1];
    assert h == pre + [op];
    HeldIffRecentEnough(pre, x, cap);
    RecentStep(pre, op, x, cap);
    HeldStep(pre, op, x, cap);
  }
}
