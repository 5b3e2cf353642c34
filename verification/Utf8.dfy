/** UTF-8 as RFC 3629 gives it: the encoder, and the strict decoder that refuses every
    byte sequence the encoder cannot produce. */
module Utf8 {
  import opened Common
  import opened JsText

  type Byte = b: int | 0 <= b < 0x100

  /** A tail byte carries six bits. */
  function Tail(p: nat): Byte { 0x80 + p % 0x40 }

  function EncodePoint(p: Point): seq<Byte>
    requires !IsSurrogate(p)
  {
    var q := p / 0x40;
    var r := q / 0x40;
    if p < 0x80 then [p]
    else if p < 0x800 then [0xC0 + q, Tail(p)]
    else if p < 0x10000 then [0xE0 + r, Tail(q), Tail(p)]
    else [0xF0 + r / 0x40, Tail(r), Tail(q), Tail(p)]
  }

  ghost predicate AreScalars(points: seq<Point>) {
    forall i :: 0 <= i < |points| ==> !IsSurrogate(points[i])
  }

  function Encode(points: seq<Point>): seq<Byte>
    requires AreScalars(points)
  {
    if points == [] then [] else EncodePoint(points[0]) + Encode(points[1..])
  }

  predicate IsTail(b: Byte) { 0x80 <= b < 0xC0 }

  /** The value so far with a tail byte's six bits appended. */
  function More(high: int, tail: Byte): int { high * 0x40 + (tail - 0x80) }

  /** The first code point of a byte sequence and how many bytes it takes, unless the
      bytes are overlong, cut short, a surrogate or beyond U+10FFFF. */
  function DecodePoint(b: seq<Byte>): (r: Option<(Point, nat)>)
    requires b != []
    ensures r.Some? ==> 1 <= r.value.1 <= |b| && !IsSurrogate(r.value.0)
  {
    var lead: int := b[0];
    if lead < 0x80 then Some((lead, 1))
    else if 0xC2 <= lead < 0xE0 then
      if |b| < 2 || !IsTail(b[1]) then None else Some((More(lead - 0xC0, b[1]), 2))
    else if 0xE0 <= lead < 0xF0 then
      if |b| < 3 || !IsTail(b[1]) || !IsTail(b[2]) then None else
      var p := More(More(lead - 0xE0, b[1]), b[2]);
      if p < 0x800 || IsSurrogate(p) then None else Some((p, 3))
    else if 0xF0 <= lead < 0xF5 then
      if |b| < 4 || !IsTail(b[1]) || !IsTail(b[2]) || !IsTail(b[3]) then None else
      var p := More(More(More(lead - 0xF0, b[1]), b[2]), b[3]);
      if p < 0x10000 || p > 0x10FFFF then None else Some((p, 4))
    else None
  }

  function Decode(b: seq<Byte>): Option<seq<Point>> {
    if b == [] then Some([]) else
    var first := DecodePoint(b);
    if first.None? then None else
    var rest := Decode(b[first.value.1..]);
    if rest.None? then None else Some([first.value.0] + rest.value)
  }

  lemma TailRoundTrip(p: nat)
    ensures IsTail(Tail(p)) && More(p / 0x40, Tail(p)) == p
  {
  }

  lemma TailIsLast(high: nat, tail: Byte)
    requires IsTail(tail)
    ensures More(high, tail) >= 0 && More(high, tail) / 0x40 == high && Tail(More(high, tail)) == tail
  {
  }

  lemma ShortRoundTrip(p: Point, rest: seq<Byte>)
    requires p < 0x800
    ensures DecodePoint(EncodePoint(p) + rest) == Some((p, |EncodePoint(p)|))
  {
    TailRoundTrip(p);
    if p >= 0x80 {
      var b := EncodePoint(p) + rest;
      assert b[0] == 0xC0 + p / 0x40 && b[1] == Tail(p);
    }
  }

  lemma MediumRoundTrip(p: Point, rest: seq<Byte>)
    requires 0x800 <= p < 0x10000 && !IsSurrogate(p)
    ensures DecodePoint(EncodePoint(p) + rest) == Some((p, 3))
  {
    var q := p / 0x40;
    var b := EncodePoint(p) + rest;
    TailRoundTrip(p);
    TailRoundTrip(q);
    assert b[0] == 0xE0 + q / 0x40 && b[1] == Tail(q) && b[2] == Tail(p);
  }

  lemma LongRoundTrip(p: Point, rest: seq<Byte>)
    requires 0x10000 <= p
    ensures DecodePoint(EncodePoint(p) + rest) == Some((p, 4))
  {
    var q := p / 0x40;
    var r := q / 0x40;
    var b := EncodePoint(p) + rest;
    TailRoundTrip(p);
    TailRoundTrip(q);
    TailRoundTrip(r);
    assert b[0] == 0xF0 + r / 0x40 && b[1] == Tail(r) && b[2] == Tail(q) && b[3] == Tail(p);
  }

  lemma PointRoundTrip(p: Point, rest: seq<Byte>)
    requires !IsSurrogate(p)
    ensures EncodePoint(p) != [] && DecodePoint(EncodePoint(p) + rest) == Some((p, |EncodePoint(p)|))
  {
    if p < 0x800 {
      ShortRoundTrip(p, rest);
    } else if p < 0x10000 {
      MediumRoundTrip(p, rest);
    } else {
      LongRoundTrip(p, rest);
    }
  }

  /** What the decoder reads is the encoding of what it returns. */
  lemma PointIsEncoded(b: seq<Byte>)
    requires b != [] && DecodePoint(b).Some?
    ensures var r := DecodePoint(b).value; b[..r.1] == EncodePoint(r.0)
  {
    var (p, n) := DecodePoint(b).value;
    if n == 2 {
      TailIsLast(b[0] - 0xC0, b[1]);
    } else if n == 3 {
      TailIsLast(b[0] - 0xE0, b[1]);
      TailIsLast(More(b[0] - 0xE0, b[1]), b[2]);
    } else if n == 4 {
      TailIsLast(b[0] - 0xF0, b[1]);
      TailIsLast(More(b[0] - 0xF0, b[1]), b[2]);
      TailIsLast(More(More(b[0] - 0xF0, b[1]), b[2]), b[3]);
    }
  }

  lemma {:induction false} RoundTrip(points: seq<Point>)
    requires AreScalars(points)
    ensures Decode(Encode(points)) == Some(points)
  {
    if points != [] {
      var b, rest := EncodePoint(points[0]), Encode(points[1..]);
      PointRoundTrip(points[0], rest);
      RoundTrip(points[1..]);
      assert (b + rest)[|b|..] == rest;
      assert points == [points[0]] + points[1..];
    }
  }

  lemma EncodeCons(p: Point, rest: seq<Point>)
    requires !IsSurrogate(p) && AreScalars(rest)
    ensures AreScalars([p] + rest) && Encode([p] + rest) == EncodePoint(p) + Encode(rest)
  {
    assert ([p] + rest)[1..] == rest;
  }

  lemma DecodedFirst(b: seq<Byte>) returns (p: Point, n: nat, rest: seq<Point>)
    requires b != [] && Decode(b).Some?
    ensures DecodePoint(b) == Some((p, n)) && 1 <= n <= |b| && !IsSurrogate(p)
    ensures Decode(b[n..]) == Some(rest) && Decode(b) == Some([p] + rest)
  {
    var first := DecodePoint(b).value;
    p, n := first.0, first.1;
    rest := Decode(b[n..]).value;
  }

  /** The decoder accepts exactly the encoder's outputs, each in one way. */
  lemma {:induction false} AcceptsOnlyEncodings(b: seq<Byte>)
    ensures Decode(b).Some? ==> AreScalars(Decode(b).value) && Encode(Decode(b).value) == b
  {
    if b != [] && Decode(b).Some? {
      var p, n, rest := DecodedFirst(b);
      PointIsEncoded(b);
      AcceptsOnlyEncodings(b[n..]);
      Prepended(b, p, n, rest);
    }
  }

  lemma Prepended(b: seq<Byte>, p: Point, n: nat, rest: seq<Point>)
    requires n <= |b| && !IsSurrogate(p) && AreScalars(rest) && EncodePoint(p) == b[..n] && Encode(rest) == b[n..]
    ensures AreScalars([p] + rest) && Encode([p] + rest) == b
  {
    EncodeCons(p, rest);
    assert b == b[..n] + b[n..];
  }

  lemma {:induction false} AsciiIsItself(points: seq<Point>)
    requires forall i :: 0 <= i < |points| ==> points[i] < 0x80
    ensures AreScalars(points) && Encode(points) == points
  {
    if points != [] {
      AsciiIsItself(points[1..]);
      assert points == [points[0]] + points[1..];
    }
  }

  const MARK: seq<Byte> := [0xEF, 0xBB, 0xBF]

  predicate Marked(b: seq<Byte>) {
    |b| >= 3 && b[..3] == MARK
  }

  /** The strict text decoder: it drops one leading byte order mark. */
  function DecodeText(b: seq<Byte>): Option<Text> {
    var points := Decode(if Marked(b) then b[3..] else b);
    if points.None? then None else Some(Utf16(points.value))
  }

  function EncodeText(s: Text): seq<Byte> {
    Encode(Scalars(Points(s)))
  }

  lemma MarkDecodes(b: seq<Byte>)
    requires Marked(b)
    ensures DecodePoint(b) == Some((0xFEFF, 3))
  {
    assert b[0] == b[..3][0] && b[1] == b[..3][1] && b[2] == b[..3][2];
  }

  lemma FirstIsMark(points: seq<Point>)
    requires AreScalars(points) && points != [] && Marked(Encode(points))
    ensures points[0] == 0xFEFF
  {
    PointRoundTrip(points[0], Encode(points[1..]));
    MarkDecodes(Encode(points));
  }

  lemma MarkIsEncoded(p: Point)
    requires p == 0xFEFF
    ensures EncodePoint(p) == MARK
  {
  }

  lemma FirstBytes(points: seq<Point>)
    requires AreScalars(points) && points != []
    ensures Marked(Encode(points)) <==> points[0] == 0xFEFF
    ensures points[0] == 0xFEFF ==> Encode(points)[3..] == Encode(points[1..])
  {
    if points[0] == 0xFEFF {
      MarkIsEncoded(points[0]);
      assert Encode(points)[..3] == EncodePoint(points[0]);
    } else if Marked(Encode(points)) {
      FirstIsMark(points);
    }
  }

  /** Encoding and strictly decoding a string gives it back repaired and without its
      leading U+FEFF, and never fails. */
  lemma TextRoundTrip(s: Text)
    ensures DecodeText(EncodeText(s)) == Some(Repair(if s != [] && s[0] == BOM then s[1..] else s))
  {
    var points := Scalars(Points(s));
    Utf16OfScalars(s);
    RoundTrip(points);
    if s != [] {
      FirstBytes(points);
      if s[0] == BOM {
        assert Points(s)[1..] == Points(s[1..]) && points[1..] == Scalars(Points(s[1..]));
        Utf16OfScalars(s[1..]);
        RoundTrip(points[1..]);
      } else {
        assert points[0] != 0xFEFF;
      }
    }
  }

  // ---- Lossy decoding ----

  /** A byte that can come second after this lead. */
  predicate IsSecond(lead: Byte, b: Byte) {
    && IsTail(b)
    && (lead == 0xE0 ==> 0xA0 <= b) && (lead == 0xED ==> b < 0xA0)
    && (lead == 0xF0 ==> 0x90 <= b) && (lead == 0xF4 ==> b < 0x90)
  }

  /** How many bytes of a broken sequence share one replacement: the longest start of an
      encoding, or a single byte. */
  function Broken(b: seq<Byte>): (n: nat)
    requires b != []
    ensures 1 <= n <= |b| && forall i :: 1 <= i < n ==> IsTail(b[i])
  {
    if |b| < 2 || !(0xE0 <= b[0] < 0xF5) || !IsSecond(b[0], b[1]) then 1
    else if |b| < 3 || b[0] < 0xF0 || !IsTail(b[2]) then 2
    else 3
  }

  function LossyPoint(b: seq<Byte>): (r: (Point, nat))
    requires b != []
    ensures 1 <= r.1 <= |b|
  {
    var p := DecodePoint(b);
    if p.Some? then p.value else (REPLACEMENT, Broken(b))
  }

  /** The text of any bytes: what the strict decoder refuses becomes U+FFFD. */
  function LossyText(b: seq<Byte>): Text {
    if b == [] then [] else var r := LossyPoint(b); UnitsOf(r.0) + LossyText(b[r.1..])
  }

  lemma LossyCons(p: Point, b: seq<Byte>)
    requires !IsSurrogate(p)
    ensures LossyText(EncodePoint(p) + b) == UnitsOf(p) + LossyText(b)
  {
    PointRoundTrip(p, b);
    assert (EncodePoint(p) + b)[|EncodePoint(p)|..] == b;
  }

  /** It agrees with the strict decoder wherever that succeeds. */
  lemma {:induction false} LossyAgrees(b: seq<Byte>)
    ensures Decode(b).Some? ==> LossyText(b) == Utf16(Decode(b).value)
  {
    if b != [] && Decode(b).Some? {
      var p, n, rest := DecodedFirst(b);
      LossyAgrees(b[n..]);
      assert ([p] + rest)[1..] == rest;
    }
  }

  lemma LossyOfEncoded(s: Text)
    ensures LossyText(EncodeText(s)) == Repair(s)
  {
    RoundTrip(Scalars(Points(s)));
    LossyAgrees(EncodeText(s));
    Utf16OfScalars(s);
  }

  /** Tail bytes in front are lost one by one. */
  lemma {:induction false} TailsAreLost(b: seq<Byte>, k: nat)
    requires k <= |b| && forall i :: 0 <= i < k ==> IsTail(b[i])
    ensures |LossyText(b)| == k + |LossyText(b[k..])|
  {
    if k > 0 {
      TailsAreLost(b[1..], k - 1);
      assert b[1..][k - 1..] == b[k..];
    }
  }

  lemma LeadTakesTails(b: seq<Byte>)
    requires b != []
    ensures var (p, n) := LossyPoint(b);
            && (forall i :: 1 <= i < n ==> IsTail(b[i]))
            && |UnitsOf(p)| <= n && (n > 1 ==> |UnitsOf(p)| < n)
  {
  }

  /** One more byte in front is at most one more unit. */
  lemma OneByteMore(v: Byte, b: seq<Byte>)
    ensures |LossyText([v] + b)| <= 1 + |LossyText(b)|
  {
    var whole := [v] + b;
    var (p, n) := LossyPoint(whole);
    LeadTakesTails(whole);
    forall i | 0 <= i < n - 1 ensures IsTail(b[i]) {
      assert b[i] == whole[i + 1];
    }
    TailsAreLost(b, n - 1);
    assert whole[n..] == b[n - 1..];
  }

  lemma CutEncoding(p: Point, n: nat, rest: seq<Byte>)
    requires !IsSurrogate(p) && 0 < n < |EncodePoint(p)| && (rest == [] || !IsTail(rest[0]))
    ensures var b := EncodePoint(p)[..n] + rest; b != [] && LossyPoint(b) == (REPLACEMENT, n)
  {
    var whole, b := EncodePoint(p), EncodePoint(p)[..n] + rest;
    assert b[0] == whole[0] && (n > 1 ==> b[1] == whole[1]) && (n > 2 ==> b[2] == whole[2]);
    assert n < |b| ==> b[n] == rest[0];
  }

  /** An encoding cut short, by the end or by a byte that is no tail, is one replacement
      character, however much of it is there. */
  lemma CutEncodingIsOneMark(p: Point, n: nat, rest: seq<Byte>)
    requires !IsSurrogate(p) && 0 < n < |EncodePoint(p)| && (rest == [] || !IsTail(rest[0]))
    ensures LossyText(EncodePoint(p)[..n] + rest) == [0xFFFD] + LossyText(rest)
  {
    CutEncoding(p, n, rest);
    assert (EncodePoint(p)[..n] + rest)[n..] == rest;
  }
}
