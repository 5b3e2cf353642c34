/** Strings as the browser holds them: sequences of 16-bit units, read as code points
    with surrogate pairs. */
module JsText {

  type Unit = u: int | 0 <= u < 0x10000

  /** A code point of a string. An unpaired surrogate is one too. */
  type Point = p: int | 0 <= p <= 0x10FFFF

  type Text = seq<Unit>

  const REPLACEMENT: Point := 0xFFFD
  const BOM: Unit := 0xFEFF

  predicate IsHigh(p: Point) { 0xD800 <= p < 0xDC00 }

  predicate IsLow(p: Point) { 0xDC00 <= p < 0xE000 }

  predicate IsSurrogate(p: Point) { 0xD800 <= p < 0xE000 }

  predicate Paired(s: Text) {
    |s| >= 2 && IsHigh(s[0]) && IsLow(s[1])
  }

  function PairOf(high: Unit, low: Unit): Point
    requires IsHigh(high) && IsLow(low)
  {
    0x10000 + (high - 0xD800) * 0x400 + (low - 0xDC00)
  }

  /** Iterating a string: its code points, unpaired surrogates as they are. */
  function Points(s: Text): seq<Point> {
    if s == [] then []
    else if Paired(s) then [PairOf(s[0], s[1])] + Points(s[2..])
    else [s[0]] + Points(s[1..])
  }

  function UnitsOf(p: Point): Text {
    if p < 0x10000 then [p] else [0xD800 + (p - 0x10000) / 0x400, 0xDC00 + (p - 0x10000) % 0x400]
  }

  function Utf16(points: seq<Point>): Text {
    if points == [] then [] else UnitsOf(points[0]) + Utf16(points[1..])
  }

  function Scalar(p: Point): Point {
    if IsSurrogate(p) then REPLACEMENT else p
  }

  /** What an encoder sees: unpaired surrogates become U+FFFD. */
  function Scalars(points: seq<Point>): (r: seq<Point>)
    ensures |r| == |points| && forall i :: 0 <= i < |r| ==> !IsSurrogate(r[i])
  {
    if points == [] then [] else [Scalar(points[0])] + Scalars(points[1..])
  }

  /** The string has no unpaired surrogate. */
  predicate WellFormed(s: Text) {
    forall p :: p in Points(s) ==> !IsSurrogate(p)
  }

  /** The string with each unpaired surrogate replaced. */
  function Repair(s: Text): (r: Text)
    ensures |r| == |s|
  {
    if s == [] then []
    else if Paired(s) then [s[0], s[1]] + Repair(s[2..])
    else [Scalar(s[0])] + Repair(s[1..])
  }

  lemma {:induction false} Utf16OfScalars(s: Text)
    ensures Utf16(Scalars(Points(s))) == Repair(s)
  {
    if s != [] {
      if Paired(s) {
        Utf16OfScalars(s[2..]);
        assert Points(s)[1..] == Points(s[2..]);
        var p := PairOf(s[0], s[1]);
        assert UnitsOf(p) == [s[0], s[1]];
      } else {
        Utf16OfScalars(s[1..]);
        assert Points(s)[1..] == Points(s[1..]);
      }
    }
  }

  /** Repairing changes exactly the strings that are not well formed. */
  lemma {:induction false} RepairedIffIllFormed(s: Text)
    ensures Repair(s) == s <==> WellFormed(s)
  {
    if s != [] {
      if Paired(s) {
        RepairedIffIllFormed(s[2..]);
        assert s == [s[0], s[1]] + s[2..];
        assert Points(s) == [PairOf(s[0], s[1])] + Points(s[2..]);
        assert Repair(s)[2..] == Repair(s[2..]);
      } else {
        RepairedIffIllFormed(s[1..]);
        assert s == [s[0]] + s[1..];
        assert Points(s) == [s[0] as Point] + Points(s[1..]);
        assert Repair(s)[0] == Scalar(s[0]) && Repair(s)[1..] == Repair(s[1..]);
      }
    }
  }

  lemma RepairOne(u: Unit, s: Text)
    requires !(IsHigh(u) && s != [] && IsLow(s[0]))
    ensures Repair([u] + s) == [Scalar(u)] + Repair(s)
  {
    assert ([u] + s)[1..] == s;
  }

  lemma RepairPair(h: Unit, l: Unit, s: Text)
    requires IsHigh(h) && IsLow(l)
    ensures Repair([h, l] + s) == [h, l] + Repair(s)
  {
    assert ([h, l] + s)[2..] == s;
  }

  lemma Regroup(a: Text, b: Text, c: Text)
    ensures a + b + c == a + (b + c)
  {
  }

  lemma AppendPair(h: Unit, l: Unit, x: Text, t: Text)
    requires IsHigh(h) && IsLow(l) && Repair(x + t) == Repair(x) + Repair(t)
    ensures Repair([h, l] + x + t) == Repair([h, l] + x) + Repair(t)
  {
    RepairPair(h, l, x);
    RepairPair(h, l, x + t);
    Regroup([h, l], x, t);
    Regroup([h, l], Repair(x), Repair(t));
  }

  lemma AppendOne(u: Unit, x: Text, t: Text)
    requires Repair(x + t) == Repair(x) + Repair(t)
    requires t != [] && !IsSurrogate(t[0])
    requires !(IsHigh(u) && x != [] && IsLow(x[0]))
    ensures Repair([u] + x + t) == Repair([u] + x) + Repair(t)
  {
    RepairOne(u, x);
    RepairOne(u, x + t);
    Regroup([u], x, t);
    Regroup([Scalar(u)], Repair(x), Repair(t));
  }

  /** A unit that is no surrogate keeps what comes before it apart. */
  lemma {:induction false} RepairAppend(a: Text, t: Text)
    requires t != [] && !IsSurrogate(t[0])
    ensures Repair(a + t) == Repair(a) + Repair(t)
  {
    if a == [] {
      assert a + t == t;
    } else if Paired(a) {
      RepairAppend(a[2..], t);
      AppendPair(a[0], a[1], a[2..], t);
      assert a == [a[0], a[1]] + a[2..];
    } else {
      RepairAppend(a[1..], t);
      AppendOne(a[0], a[1..], t);
      assert a == [a[0]] + a[1..];
    }
  }

  /** An encoder sees no difference. */
  lemma {:induction false} RepairedEncodesAlike(s: Text)
    ensures Scalars(Points(Repair(s))) == Scalars(Points(s))
  {
    if s != [] {
      if Paired(s) {
        RepairedEncodesAlike(s[2..]);
        var r := Repair(s);
        assert r[2..] == Repair(s[2..]);
        ScalarsCons(PairOf(s[0], s[1]), Points(s[2..]));
        ScalarsCons(PairOf(s[0], s[1]), Points(r[2..]));
      } else {
        RepairedEncodesAlike(s[1..]);
        var r := Repair(s);
        assert r[1..] == Repair(s[1..]) && r[0] == Scalar(s[0]);
        ScalarsCons(s[0], Points(s[1..]));
        ScalarsCons(r[0], Points(r[1..]));
      }
    }
  }

  lemma ScalarsCons(p: Point, rest: seq<Point>)
    ensures Scalars([p] + rest) == [Scalar(p)] + Scalars(rest)
  {
    assert ([p] + rest)[1..] == rest;
  }

  lemma RepairTwice(s: Text)
    ensures Repair(Repair(s)) == Repair(s)
  {
    RepairedEncodesAlike(s);
    Utf16OfScalars(s);
    Utf16OfScalars(Repair(s));
  }

  lemma {:induction false} RepairAt(s: Text, i: nat)
    requires i < |s|
    ensures Repair(s)[i] == s[i] || (IsSurrogate(s[i]) && Repair(s)[i] == REPLACEMENT)
  {
    if Paired(s) {
      if i >= 2 {
        RepairAt(s[2..], i - 2);
      }
    } else if i >= 1 {
      RepairAt(s[1..], i - 1);
    }
  }

  lemma NoSurrogates(s: Text)
    requires forall u :: u in s ==> !IsSurrogate(u)
    ensures Repair(s) == s
  {
    forall i | 0 <= i < |s| ensures Repair(s)[i] == s[i] {
      RepairAt(s, i);
    }
  }
}
