/** What a browser makes of text in a link's query: the URL parser's clean-up and percent
    escapes on the way in, form decoding on the way out (sections 4.4, 1.3 and 5.1 of the
    URL Standard). */
module UrlQuery {
  import opened JsText
  import opened Utf8

  const AMP: Unit := 38
  const EQUALS: Unit := 61
  const PLUS: Unit := 43
  const SPACE: Unit := 32
  const PERCENT: Unit := 37

  /** Tabs, line feeds and carriage returns, which the parser removes. */
  predicate IsBreak(u: Unit) {
    u == 9 || u == 10 || u == 13
  }

  function WithoutBreaks(s: Text): (r: Text)
    ensures |r| <= |s|
  {
    if s == [] then [] else (if IsBreak(s[0]) then [] else [s[0]]) + WithoutBreaks(s[1..])
  }

  function HexDigit(n: nat): Unit
    requires n < 16
  {
    if n < 10 then 48 + n else 55 + n
  }

  predicate IsHex(u: int) {
    48 <= u <= 57 || 65 <= u <= 70 || 97 <= u <= 102
  }

  function HexValue(u: int): (v: nat)
    requires IsHex(u)
    ensures v < 16
  {
    if u <= 57 then u - 48 else if u <= 70 then u - 55 else u - 87
  }

  /** A percent sign and two hexadecimal digits in front. */
  predicate IsEscape(s: seq<int>) {
    |s| >= 3 && s[0] == PERCENT && IsHex(s[1]) && IsHex(s[2])
  }

  /** The percent escape of a byte. */
  function Triple(v: Byte): (r: Text)
    ensures IsEscape(r) && |r| == 3 && HexValue(r[1]) * 16 + HexValue(r[2]) == v
  {
    [PERCENT, HexDigit(v / 16), HexDigit(v % 16)]
  }

  function Triples(b: seq<Byte>): Text {
    if b == [] then [] else Triple(b[0]) + Triples(b[1..])
  }

  /** Controls, space, quotes, `#`, angle brackets, and everything beyond ASCII. */
  predicate InQuerySet(u: Unit) {
    u <= 0x20 || u >= 0x7F || u == 34 || u == 35 || u == 39 || u == 60 || u == 62
  }

  function Escaped(s: Text): Text {
    if s == [] then []
    else if Paired(s) then Triples(EncodePoint(PairOf(s[0], s[1]))) + Escaped(s[2..])
    else EscapedUnit(s[0]) + Escaped(s[1..])
  }

  function EscapedUnit(u: Unit): Text {
    if InQuerySet(u) then Triples(EncodePoint(Scalar(u))) else [u]
  }

  /** The query the page finds in its address, for one written into a link. */
  function Searched(s: Text): Text {
    Escaped(WithoutBreaks(Repair(s)))
  }

  function FormBytes(b: seq<Byte>): seq<Byte> {
    if b == [] then []
    else if IsEscape(b) then [HexValue(b[1]) * 16 + HexValue(b[2])] + FormBytes(b[3..])
    else [if b[0] == PLUS then SPACE else b[0]] + FormBytes(b[1..])
  }

  /** Form decoding of one name or value. */
  function Form(s: Text): Text {
    LossyText(FormBytes(EncodeText(s)))
  }

  /** What a name or value written into a link is read as. */
  function Read(s: Text): Text {
    Form(Searched(s))
  }

  // ---- Encoding, unit by unit ----

  lemma EncodeOne(s: Text)
    requires s != [] && !Paired(s)
    ensures EncodeText(s) == EncodePoint(Scalar(s[0])) + EncodeText(s[1..])
  {
    var points := Points(s);
    assert points[1..] == Points(s[1..]) && Scalars(points)[1..] == Scalars(Points(s[1..]));
  }

  lemma EncodePair(s: Text)
    requires Paired(s)
    ensures EncodeText(s) == EncodePoint(PairOf(s[0], s[1])) + EncodeText(s[2..])
  {
    var points := Points(s);
    assert points[1..] == Points(s[2..]) && Scalars(points)[1..] == Scalars(Points(s[2..]));
  }

  lemma HexHead(s: Text)
    ensures (EncodeText(s) != [] && IsHex(EncodeText(s)[0])) <==> (s != [] && IsHex(s[0]))
    ensures s != [] && s[0] < 0x80 ==> EncodeText(s) == [s[0]] + EncodeText(s[1..])
  {
    if s != [] {
      if Paired(s) {
        EncodePair(s);
      } else {
        EncodeOne(s);
      }
    }
  }

  lemma EscapeHead(s: Text)
    ensures IsEscape(EncodeText(s)) <==> IsEscape(s)
    ensures IsEscape(s) ==> EncodeText(s) == s[..3] + EncodeText(s[3..])
  {
    if s != [] {
      if Paired(s) {
        EncodePair(s);
      } else {
        EncodeOne(s);
        HexHead(s[1..]);
        if s[0] == PERCENT && |s| > 1 && IsHex(s[1]) {
          HexHead(s[2..]);
          assert s[1..][1..] == s[2..];
          if IsHex(s[1]) && |s| > 2 && IsHex(s[2]) {
            assert s[2..][1..] == s[3..];
          }
        }
      }
    }
  }

  // ---- Form decoding, unit by unit ----

  lemma Regrouped(b: seq<Byte>, rest: seq<Byte>)
    requires b != []
    ensures [b[0]] + (b[1..] + rest) == b + rest
  {
  }

  lemma HighByteStays(v: Byte, s: seq<Byte>)
    requires v >= 0x80
    ensures FormBytes([v] + s) == [v] + FormBytes(s)
  {
    assert ([v] + s)[1..] == s && ([v] + s)[0] == v;
  }

  lemma {:induction false} HighBytesStay(b: seq<Byte>, rest: seq<Byte>)
    requires forall i :: 0 <= i < |b| ==> b[i] >= 0x80
    ensures FormBytes(b + rest) == b + FormBytes(rest)
  {
    if b == [] {
      assert b + rest == rest;
    } else {
      HighBytesStay(b[1..], rest);
      HighByteStays(b[0], b[1..] + rest);
      Regrouped(b, rest);
      Regrouped(b, FormBytes(rest));
    }
  }

  lemma PairUnits(s: Text)
    requires Paired(s)
    ensures UnitsOf(PairOf(s[0], s[1])) == s[..2]
    ensures forall i :: 0 <= i < |EncodePoint(PairOf(s[0], s[1]))| ==> EncodePoint(PairOf(s[0], s[1]))[i] >= 0x80
  {
  }

  lemma FormPair(s: Text)
    requires Paired(s)
    ensures Form(s) == s[..2] + Form(s[2..])
    ensures FormBytes(EncodeText(s)) == EncodePoint(PairOf(s[0], s[1])) + FormBytes(EncodeText(s[2..]))
  {
    var p, rest := PairOf(s[0], s[1]), EncodeText(s[2..]);
    EncodePair(s);
    PairUnits(s);
    HighBytesStay(EncodePoint(p), rest);
    LossyCons(p, FormBytes(rest));
  }

  function PlusToSpace(p: Point): Point {
    if p == PLUS then SPACE else p
  }

  lemma FormOne(s: Text)
    requires s != [] && !Paired(s) && !IsEscape(s)
    ensures Form(s) == [PlusToSpace(Scalar(s[0]))] + Form(s[1..])
    ensures FormBytes(EncodeText(s)) == EncodePoint(PlusToSpace(Scalar(s[0]))) + FormBytes(EncodeText(s[1..]))
  {
    var p, rest := Scalar(s[0]), EncodeText(s[1..]);
    EncodeOne(s);
    EscapeHead(s);
    if p < 0x80 {
      assert ([p] + rest)[1..] == rest;
    } else {
      HighBytesStay(EncodePoint(p), rest);
    }
    LossyCons(PlusToSpace(p), FormBytes(rest));
  }

  lemma FormEscape(s: Text)
    requires IsEscape(s)
    ensures FormBytes(EncodeText(s)) == [HexValue(s[1]) * 16 + HexValue(s[2])] + FormBytes(EncodeText(s[3..]))
    ensures |Form(s)| <= 1 + |Form(s[3..])|
  {
    EscapeHead(s);
    var b := EncodeText(s);
    assert b[3..] == EncodeText(s[3..]) && b[1] == s[1] && b[2] == s[2];
    OneByteMore(HexValue(s[1]) * 16 + HexValue(s[2]), FormBytes(b[3..]));
  }

  // ---- Percent escapes are undone ----

  lemma TripleIsRead(v: Byte, s: Text)
    ensures FormBytes(EncodeText(Triple(v) + s)) == [v] + FormBytes(EncodeText(s))
  {
    var whole := Triple(v) + s;
    assert IsEscape(whole) && whole[1] == Triple(v)[1] && whole[2] == Triple(v)[2] && whole[3..] == s;
    FormEscape(whole);
  }

  lemma TriplesCons(b: seq<Byte>, s: Text)
    requires b != []
    ensures Triples(b) + s == Triple(b[0]) + (Triples(b[1..]) + s)
  {
  }

  lemma {:induction false} TriplesAreRead(b: seq<Byte>, s: Text)
    ensures FormBytes(EncodeText(Triples(b) + s)) == b + FormBytes(EncodeText(s))
  {
    if b == [] {
      assert Triples(b) + s == s;
    } else {
      TriplesAreRead(b[1..], s);
      TriplesCons(b, s);
      TripleIsRead(b[0], Triples(b[1..]) + s);
      Regrouped(b, FormBytes(EncodeText(s)));
    }
  }

  lemma EscapedHead(s: Text)
    requires s != [] && IsHex(s[0])
    ensures Escaped(s) == [s[0]] + Escaped(s[1..])
  {
  }

  lemma EscapedStart(s: Text)
    requires s != [] && !IsHex(s[0])
    ensures Escaped(s) != [] && !IsHex(Escaped(s)[0])
  {
  }

  /** Whether an escape comes next is not changed. */
  lemma EscapesNoEscape(s: Text)
    requires s != [] && s[0] == PERCENT
    ensures Escaped(s) == [PERCENT] + Escaped(s[1..]) && (IsEscape(Escaped(s)) <==> IsEscape(s))
    ensures IsEscape(s) ==> Escaped(s) == s[..3] + Escaped(s[3..])
  {
    if |s| > 1 {
      if IsHex(s[1]) {
        EscapedHead(s[1..]);
        assert s[1..][1..] == s[2..];
        if |s| > 2 {
          if IsHex(s[2]) {
            EscapedHead(s[2..]);
            assert s[2..][1..] == s[3..];
          } else {
            EscapedStart(s[2..]);
          }
        }
      } else {
        EscapedStart(s[1..]);
      }
    }
  }

  /** The parser's percent escapes make no difference to the reader. */
  lemma {:induction false} EscapesAreUndone(s: Text)
    ensures FormBytes(EncodeText(Escaped(s))) == FormBytes(EncodeText(s))
  {
    if s != [] {
      if Paired(s) {
        EscapesAreUndone(s[2..]);
        TriplesAreRead(EncodePoint(PairOf(s[0], s[1])), Escaped(s[2..]));
        FormPair(s);
      } else if IsEscape(s) {
        EscapesAreUndone(s[3..]);
        EscapesNoEscape(s);
        FormEscape(s);
        FormEscape(Escaped(s));
        assert Escaped(s)[3..] == Escaped(s[3..]);
      } else {
        EscapesAreUndone(s[1..]);
        OtherUnit(s);
      }
    }
  }

  lemma OtherUnit(s: Text)
    requires s != [] && !Paired(s) && !IsEscape(s)
    requires FormBytes(EncodeText(Escaped(s[1..]))) == FormBytes(EncodeText(s[1..]))
    ensures FormBytes(EncodeText(Escaped(s))) == FormBytes(EncodeText(s))
  {
    FormOne(s);
    if InQuerySet(s[0]) {
      TriplesAreRead(EncodePoint(Scalar(s[0])), Escaped(s[1..]));
    } else {
      var e := Escaped(s);
      assert e == [s[0]] + Escaped(s[1..]);
      if s[0] == PERCENT {
        EscapesNoEscape(s);
      }
      FormOne(e);
      assert e[1..] == Escaped(s[1..]);
    }
  }

  // ---- What is read as it was written ----

  predicate HasEscape(s: Text) {
    exists i :: 0 <= i < |s| && IsEscape(s[i..])
  }

  lemma HasEscapeTail(s: Text, k: nat)
    requires k <= |s| && forall i :: 0 <= i < k ==> !IsEscape(s[i..])
    ensures HasEscape(s) <==> HasEscape(s[k..])
  {
    if HasEscape(s) {
      var i :| 0 <= i < |s| && IsEscape(s[i..]);
      assert s[k..][i - k..] == s[i..];
    }
    if HasEscape(s[k..]) {
      var i :| 0 <= i < |s[k..]| && IsEscape(s[k..][i..]);
      assert s[k..][i..] == s[k + i..];
    }
  }

  function AllPlusToSpace(s: Text): (r: Text)
    ensures |r| == |s|
  {
    if s == [] then [] else [PlusToSpace(s[0])] + AllPlusToSpace(s[1..])
  }

  /** Form decoding never lengthens; it shortens text with an escape in it, and otherwise
      only repairs and reads plus signs as spaces. */
  lemma {:induction false} FormLength(s: Text)
    ensures if HasEscape(s) then |Form(s)| < |s| else Form(s) == AllPlusToSpace(Repair(s))
  {
    if s != [] {
      if Paired(s) {
        FormLength(s[2..]);
        FormPair(s);
        HasEscapeTail(s, 2);
        PlusPair(s);
      } else if IsEscape(s) {
        FormLength(s[3..]);
        FormEscape(s);
        assert s[0..] == s;
      } else {
        FormLength(s[1..]);
        FormOne(s);
        assert s[0..] == s;
        HasEscapeTail(s, 1);
        PlusOne(s);
      }
    }
  }

  lemma PlusPair(s: Text)
    requires Paired(s)
    ensures AllPlusToSpace(Repair(s)) == s[..2] + AllPlusToSpace(Repair(s[2..]))
  {
    var r := Repair(s);
    assert r[1..][1..] == Repair(s[2..]) && r[0] == s[0] && r[1] == s[1];
  }

  lemma PlusOne(s: Text)
    requires s != [] && !Paired(s)
    ensures AllPlusToSpace(Repair(s)) == [PlusToSpace(Scalar(s[0]))] + AllPlusToSpace(Repair(s[1..]))
  {
    var r := Repair(s);
    assert r[1..] == Repair(s[1..]) && r[0] == Scalar(s[0]);
  }

  lemma {:induction false} AllPlusAt(s: Text, i: nat)
    requires i < |s|
    ensures AllPlusToSpace(s)[i] == PlusToSpace(s[i])
  {
    if i > 0 {
      AllPlusAt(s[1..], i - 1);
    }
  }

  lemma {:induction false} NoBreaks(s: Text)
    ensures |WithoutBreaks(s)| == |s| <==> forall u :: u in s ==> !IsBreak(u)
    ensures |WithoutBreaks(s)| == |s| ==> WithoutBreaks(s) == s
  {
    if s != [] {
      NoBreaks(s[1..]);
      assert s == [s[0]] + s[1..];
    }
  }

  /** Repaired twice and with its plus signs read, text is as it was only if there was
      nothing to do. */
  lemma Unchanged(s: Text)
    ensures AllPlusToSpace(Repair(Repair(s))) == s <==> Repair(s) == s && PLUS !in s
  {
    var r := Repair(s);
    RepairTwice(s);
    forall i | 0 <= i < |s| ensures AllPlusToSpace(r)[i] == s[i] <==> r[i] == s[i] && s[i] != PLUS {
      RepairAt(s, i);
      AllPlusAt(r, i);
    }
    assert PLUS in s ==> exists i :: 0 <= i < |s| && s[i] == PLUS && AllPlusToSpace(r)[i] != s[i];
  }

  predicate ReadsAsWritten(s: Text) {
    && WellFormed(s) && !HasEscape(s)
    && forall u :: u in s ==> u != PLUS && !IsBreak(u)
  }

  lemma BreaksSurviveRepair(s: Text)
    ensures (forall u :: u in Repair(s) ==> !IsBreak(u)) <==> (forall u :: u in s ==> !IsBreak(u))
  {
    forall i | 0 <= i < |s| ensures IsBreak(s[i]) <==> IsBreak(Repair(s)[i]) {
      RepairAt(s, i);
    }
  }

  /** Text written into a link is read back exactly when it is well formed and holds no
      plus sign, no percent escape, and no tab or line break. */
  lemma ReadIff(s: Text)
    ensures |Read(s)| <= |s|
    ensures Read(s) == s <==> ReadsAsWritten(s)
  {
    var c := WithoutBreaks(Repair(s));
    EscapesAreUndone(c);
    FormLength(c);
    NoBreaks(Repair(s));
    BreaksSurviveRepair(s);
    Unchanged(s);
    RepairedIffIllFormed(s);
  }

  // ---- Every text can be named ----

  lemma {:induction false} TriplesUnits(b: seq<Byte>)
    ensures forall u :: u in Triples(b) ==> u == PERCENT || IsHex(u)
  {
    if b != [] {
      TriplesUnits(b[1..]);
      forall u | u in Triple(b[0]) ensures u == PERCENT || IsHex(u) {
      }
    }
  }

  lemma FormOfTriples(b: seq<Byte>)
    ensures Form(Triples(b)) == LossyText(b)
  {
    TriplesAreRead(b, []);
    assert Triples(b) + [] == Triples(b) && b + [] == b;
  }

  lemma TriplesAreClean(b: seq<Byte>)
    ensures WithoutBreaks(Repair(Triples(b))) == Triples(b)
  {
    TriplesUnits(b);
    NoSurrogates(Triples(b));
    NoBreaks(Triples(b));
  }

  /** With each of its bytes escaped, any text is read as itself, repaired. */
  lemma EscapedTextIsRead(s: Text)
    ensures Read(Triples(EncodeText(s))) == Repair(s)
  {
    var b := EncodeText(s);
    TriplesAreClean(b);
    EscapesAreUndone(Triples(b));
    FormOfTriples(b);
    LossyOfEncoded(s);
  }

  // ---- Separators ----

  predicate IsSeparator(u: Unit) {
    u == AMP || u == EQUALS
  }

  lemma {:induction false} BreaksAppend(a: Text, b: Text)
    ensures WithoutBreaks(a + b) == WithoutBreaks(a) + WithoutBreaks(b)
  {
    if a == [] {
      assert a + b == b;
    } else {
      BreaksAppend(a[1..], b);
      assert (a + b)[1..] == a[1..] + b;
      Regroup(if IsBreak(a[0]) then [] else [a[0]], WithoutBreaks(a[1..]), WithoutBreaks(b));
    }
  }

  lemma EscapedOne(u: Unit, s: Text)
    requires !(IsHigh(u) && s != [] && IsLow(s[0]))
    ensures Escaped([u] + s) == EscapedUnit(u) + Escaped(s)
  {
    assert ([u] + s)[1..] == s;
  }

  lemma EscapedPair(h: Unit, l: Unit, s: Text)
    requires IsHigh(h) && IsLow(l)
    ensures Escaped([h, l] + s) == Triples(EncodePoint(PairOf(h, l))) + Escaped(s)
  {
    assert ([h, l] + s)[2..] == s;
  }

  lemma EscapedPairAppend(h: Unit, l: Unit, x: Text, b: Text)
    requires IsHigh(h) && IsLow(l) && Escaped(x + b) == Escaped(x) + Escaped(b)
    ensures Escaped([h, l] + x + b) == Escaped([h, l] + x) + Escaped(b)
  {
    EscapedPair(h, l, x);
    EscapedPair(h, l, x + b);
    Regroup([h, l], x, b);
    Regroup(Triples(EncodePoint(PairOf(h, l))), Escaped(x), Escaped(b));
  }

  lemma EscapedOneAppend(u: Unit, x: Text, b: Text)
    requires Escaped(x + b) == Escaped(x) + Escaped(b)
    requires b != [] && !IsSurrogate(b[0]) && !(IsHigh(u) && x != [] && IsLow(x[0]))
    ensures Escaped([u] + x + b) == Escaped([u] + x) + Escaped(b)
  {
    EscapedOne(u, x);
    EscapedOne(u, x + b);
    Regroup([u], x, b);
    Regroup(EscapedUnit(u), Escaped(x), Escaped(b));
  }

  lemma {:induction false} EscapedAppend(a: Text, b: Text)
    requires b != [] && !IsSurrogate(b[0])
    ensures Escaped(a + b) == Escaped(a) + Escaped(b)
  {
    if a == [] {
      assert a + b == b;
    } else if Paired(a) {
      EscapedAppend(a[2..], b);
      EscapedPairAppend(a[0], a[1], a[2..], b);
      assert a == [a[0], a[1]] + a[2..];
    } else {
      EscapedAppend(a[1..], b);
      EscapedOneAppend(a[0], a[1..], b);
      assert a == [a[0]] + a[1..];
    }
  }

  /** A separator stays where it is, and what is around it is treated on its own. */
  lemma SearchedAppend(a: Text, c: Unit, b: Text)
    requires IsSeparator(c)
    ensures Searched(a + ([c] + b)) == Searched(a) + ([c] + Searched(b))
  {
    var x, y := Repair(a), Repair(b);
    RepairAppend(a, [c] + b);
    RepairOne(c, b);
    BreaksAppend(x, [c] + y);
    BreaksAppend([c], y);
    assert WithoutBreaks([c]) == [c];
    EscapedAppend(WithoutBreaks(x), [c] + WithoutBreaks(y));
    assert ([c] + WithoutBreaks(y))[1..] == WithoutBreaks(y);
  }

  lemma {:induction false} EscapedLacks(s: Text, c: Unit)
    requires IsSeparator(c) && c !in s
    ensures c !in Escaped(s)
  {
    if s != [] {
      if Paired(s) {
        EscapedLacks(s[2..], c);
        TriplesUnits(EncodePoint(PairOf(s[0], s[1])));
      } else {
        EscapedLacks(s[1..], c);
        TriplesUnits(EncodePoint(Scalar(s[0])));
      }
    }
  }

  lemma {:induction false} BreaksLack(s: Text, c: Unit)
    requires c !in s
    ensures c !in WithoutBreaks(s)
  {
    if s != [] {
      BreaksLack(s[1..], c);
    }
  }

  lemma SearchedLacks(s: Text, c: Unit)
    requires IsSeparator(c) && c !in s
    ensures c !in Searched(s)
  {
    forall i | 0 <= i < |s| ensures Repair(s)[i] != c {
      RepairAt(s, i);
    }
    BreaksLack(Repair(s), c);
    EscapedLacks(WithoutBreaks(Repair(s)), c);
  }

  // ---- What the address shows ----

  predicate IsPrintable(u: Unit) {
    0x21 <= u <= 0x7E && u != 34 && u != 35 && u != 39 && u != 60 && u != 62
  }

  lemma {:induction false} EscapedUnits(s: Text)
    ensures forall u :: u in Escaped(s) ==> IsPrintable(u)
  {
    if s != [] {
      if Paired(s) {
        EscapedUnits(s[2..]);
        TriplesUnits(EncodePoint(PairOf(s[0], s[1])));
      } else {
        EscapedUnits(s[1..]);
        TriplesUnits(EncodePoint(Scalar(s[0])));
      }
    }
  }

  /** A query in an address is printable ASCII without spaces, quotes, `#` and angle
      brackets. */
  lemma SearchedIsPrintable(s: Text)
    ensures forall u :: u in Searched(s) ==> IsPrintable(u)
  {
    EscapedUnits(WithoutBreaks(Repair(s)));
  }
}
