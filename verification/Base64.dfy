/** Base 64 (section 4 of RFC 4648) as the browser's pair of functions does it, and the
    unpadded URL-safe form (section 5) the saved links use. */
module Base64 {
  import opened Common
  import opened JsText
  import opened Utf8

  type Sextet = v: int | 0 <= v < 64

  const PAD: Unit := 61
  const PLUS: Unit := 43
  const SLASH: Unit := 47
  const MINUS: Unit := 45
  const UNDERSCORE: Unit := 95

  function Symbol(v: Sextet): Unit {
    if v < 26 then 65 + v
    else if v < 52 then 97 + (v - 26)
    else if v < 62 then 48 + (v - 52)
    else if v == 62 then PLUS
    else SLASH
  }

  function SextetOf(u: Unit): Option<Sextet> {
    if 65 <= u <= 90 then Some(u - 65)
    else if 97 <= u <= 122 then Some(u - 97 + 26)
    else if 48 <= u <= 57 then Some(u - 48 + 52)
    else if u == PLUS then Some(62)
    else if u == SLASH then Some(63)
    else None
  }

  /** The symbols of one to three bytes, without padding. */
  function Group(b: seq<Byte>): Text
    requires 1 <= |b| <= 3
  {
    var b1 := if |b| > 1 then b[1] else 0;
    var b2 := if |b| > 2 then b[2] else 0;
    [Symbol(b[0] / 4), Symbol(b[0] % 4 * 16 + b1 / 16)]
    + (if |b| > 1 then [Symbol(b1 % 16 * 4 + b2 / 64)] else [])
    + (if |b| > 2 then [Symbol(b2 % 64)] else [])
  }

  function Unpadded(b: seq<Byte>): Text {
    if b == [] then [] else if |b| <= 3 then Group(b) else Group(b[..3]) + Unpadded(b[3..])
  }

  function Padding(n: nat): Text {
    if n % 3 == 0 then [] else if n % 3 == 1 then [PAD, PAD] else [PAD]
  }

  /** `btoa`. */
  function Btoa(b: seq<Byte>): Text {
    Unpadded(b) + Padding(|b|)
  }

  predicate IsWhitespace(u: Unit) {
    u == 9 || u == 10 || u == 12 || u == 13 || u == 32
  }

  function WithoutWhitespace(s: Text): Text {
    if s == [] then [] else (if IsWhitespace(s[0]) then [] else [s[0]]) + WithoutWhitespace(s[1..])
  }

  function WithoutPadding(s: Text): Text {
    if |s| % 4 != 0 || s == [] || s[|s|-1] != PAD then s
    else if s[|s|-2] != PAD then s[..|s|-1]
    else s[..|s|-2]
  }

  predicate AllSymbols(s: Text) {
    forall i :: 0 <= i < |s| ==> SextetOf(s[i]).Some?
  }

  /** The bytes of two to four symbols; bits left over are dropped. */
  function Ungroup(s: Text): seq<Byte>
    requires 2 <= |s| <= 4 && AllSymbols(s)
  {
    var v0, v1 := SextetOf(s[0]).value, SextetOf(s[1]).value;
    var v2 := if |s| > 2 then SextetOf(s[2]).value else 0;
    [v0 * 4 + v1 / 16]
    + (if |s| > 2 then [v1 % 16 * 16 + v2 / 4] else [])
    + (if |s| > 3 then [v2 % 4 * 64 + SextetOf(s[3]).value] else [])
  }

  function Bytes(s: Text): seq<Byte>
    requires |s| % 4 != 1 && AllSymbols(s)
  {
    if s == [] then [] else if |s| <= 4 then Ungroup(s) else Ungroup(s[..4]) + Bytes(s[4..])
  }

  /** `atob`: ignores whitespace, accepts missing padding, refuses anything else that is
      not a symbol. */
  function Atob(s: Text): Option<seq<Byte>> {
    var t := WithoutPadding(WithoutWhitespace(s));
    if |t| % 4 == 1 || !AllSymbols(t) then None else Some(Bytes(t))
  }

  // ---- The URL-safe form ----

  function Replace(s: Text, from: Unit, to: Unit): (r: Text)
    ensures |r| == |s| && forall i :: 0 <= i < |s| ==> r[i] == if s[i] == from then to else s[i]
  {
    seq(|s|, i requires 0 <= i < |s| => if s[i] == from then to else s[i])
  }

  /** `/=+$/` replaced by nothing. */
  function StripPads(s: Text): Text {
    if s == [] || s[|s|-1] != PAD then s else StripPads(s[..|s|-1])
  }

  function ToUrl(b: seq<Byte>): Text {
    StripPads(Replace(Replace(Btoa(b), PLUS, MINUS), SLASH, UNDERSCORE))
  }

  function FromUrl(s: Text): Option<seq<Byte>> {
    Atob(Replace(Replace(s, MINUS, PLUS), UNDERSCORE, SLASH))
  }

  /** Letters, digits, `-` and `_`: the unreserved characters a query needs no escape for. */
  predicate IsUrlSafe(u: Unit) {
    65 <= u <= 90 || 97 <= u <= 122 || 48 <= u <= 57 || u == MINUS || u == UNDERSCORE
  }

  // ---- The round trip ----

  lemma SymbolRoundTrip(v: Sextet)
    ensures SextetOf(Symbol(v)) == Some(v)
  {
  }

  lemma GroupSymbols(b: seq<Byte>)
    requires 1 <= |b| <= 3
    ensures |Group(b)| == |b| + 1 && AllSymbols(Group(b))
  {
  }

  /** Three bytes as four sextets, and back. */
  lemma SextetsOfBytes(b0: Byte, b1: Byte, b2: Byte)
    ensures var v0, v1, v2, v3 := b0 / 4, b0 % 4 * 16 + b1 / 16, b1 % 16 * 4 + b2 / 64, b2 % 64;
            && v0 < 64 && v1 < 64 && v2 < 64 && v3 < 64
            && v0 * 4 + v1 / 16 == b0 && v1 % 16 * 16 + v2 / 4 == b1 && v2 % 4 * 64 + v3 == b2
  {
  }

  lemma GroupRoundTrip(b: seq<Byte>)
    requires 1 <= |b| <= 3 && |Group(b)| == |b| + 1 && AllSymbols(Group(b))
    ensures Ungroup(Group(b)) == b
  {
    var b1 := if |b| > 1 then b[1] else 0;
    var b2 := if |b| > 2 then b[2] else 0;
    SextetsOfBytes(b[0], b1, b2);
    SymbolRoundTrip(b[0] / 4);
    SymbolRoundTrip(b[0] % 4 * 16 + b1 / 16);
    SymbolRoundTrip(b1 % 16 * 4 + b2 / 64);
    SymbolRoundTrip(b2 % 64);
  }

  /** Four symbols for three bytes, and one more than the bytes left over. */
  lemma {:induction false} UnpaddedSymbols(b: seq<Byte>)
    ensures |Unpadded(b)| == |b| / 3 * 4 + (if |b| % 3 == 0 then 0 else |b| % 3 + 1)
    ensures AllSymbols(Unpadded(b))
  {
    if 1 <= |b| <= 3 {
      GroupSymbols(b);
    } else if |b| > 3 {
      GroupSymbols(b[..3]);
      UnpaddedSymbols(b[3..]);
    }
  }

  lemma {:induction false} UnpaddedRoundTrip(b: seq<Byte>)
    requires AllSymbols(Unpadded(b)) && |Unpadded(b)| % 4 != 1
    ensures Bytes(Unpadded(b)) == b
  {
    if 1 <= |b| <= 3 {
      GroupSymbols(b);
      GroupRoundTrip(b);
    } else if |b| > 3 {
      GroupSymbols(b[..3]);
      GroupRoundTrip(b[..3]);
      UnpaddedSymbols(b[3..]);
      UnpaddedRoundTrip(b[3..]);
      var s := Unpadded(b);
      assert s[..4] == Group(b[..3]) && s[4..] == Unpadded(b[3..]);
      assert b == b[..3] + b[3..];
    }
  }

  lemma {:induction false} NoWhitespace(s: Text)
    requires AllSymbols(s)
    ensures WithoutWhitespace(s) == s
  {
    if s != [] {
      NoWhitespace(s[1..]);
      assert SextetOf(s[0]).Some?;
      assert s == [s[0]] + s[1..];
    }
  }

  function Safe(s: Text): Text {
    Replace(Replace(s, PLUS, MINUS), SLASH, UNDERSCORE)
  }

  lemma SafeSymbols(s: Text)
    requires AllSymbols(s)
    ensures forall i :: 0 <= i < |s| ==> IsUrlSafe(Safe(s)[i])
    ensures Replace(Replace(Safe(s), MINUS, PLUS), UNDERSCORE, SLASH) == s
  {
    forall i | 0 <= i < |s| ensures IsUrlSafe(Safe(s)[i]) {
      assert SextetOf(s[i]).Some?;
    }
    forall i | 0 <= i < |s| ensures Replace(Replace(Safe(s), MINUS, PLUS), UNDERSCORE, SLASH)[i] == s[i] {
      assert SextetOf(s[i]).Some?;
    }
  }

  lemma PadsStripped(s: Text, n: nat)
    requires forall i :: 0 <= i < |s| ==> s[i] != PAD
    ensures StripPads(s + Padding(n)) == s
  {
    var p := Padding(n);
    var t := s + p;
    assert StripPads(s) == s;
    if |p| == 1 {
      assert t[..|t|-1] == s;
    } else if |p| == 2 {
      assert t[..|t|-1] == s + [PAD];
      assert (s + [PAD])[..|s|] == s;
    } else {
      assert t == s;
    }
  }

  /** The URL form is the unpadded one with its two unsafe symbols exchanged. */
  lemma UrlForm(b: seq<Byte>)
    ensures ToUrl(b) == Safe(Unpadded(b))
    ensures forall i :: 0 <= i < |ToUrl(b)| ==> IsUrlSafe(ToUrl(b)[i])
  {
    var s := Unpadded(b);
    UnpaddedSymbols(b);
    SafeSymbols(s);
    assert Safe(s + Padding(|b|)) == Safe(s) + Padding(|b|);
    PadsStripped(Safe(s), |b|);
  }

  lemma AtobOfSymbols(s: Text)
    requires AllSymbols(s) && |s| % 4 != 1
    ensures Atob(s) == Some(Bytes(s))
  {
    NoWhitespace(s);
    NoPadding(s);
  }

  lemma NoPadding(s: Text)
    requires AllSymbols(s)
    ensures WithoutPadding(s) == s
  {
    assert s != [] ==> SextetOf(s[|s|-1]).Some?;
  }

  /** Decoding an encoding gives the bytes back, for every sequence of bytes. */
  lemma UrlRoundTrip(b: seq<Byte>)
    ensures FromUrl(ToUrl(b)) == Some(b)
  {
    var s := Unpadded(b);
    UnpaddedSymbols(b);
    AtobOfSymbols(s);
    UnpaddedRoundTrip(b);
    FromUrlOfSafe(b, s);
  }

  lemma FromUrlOfSafe(b: seq<Byte>, s: Text)
    requires s == Unpadded(b)
    ensures FromUrl(ToUrl(b)) == Atob(s)
  {
    UrlForm(b);
    UnpaddedSymbols(b);
    SafeSymbols(s);
  }

  /** The length of an encoding, which is what the link's cap measures. */
  lemma UrlLength(b: seq<Byte>)
    ensures |ToUrl(b)| == (4 * |b| + 2) / 3
  {
    UrlForm(b);
    UnpaddedSymbols(b);
  }

  // ---- What else is accepted ----

  lemma {:induction false} WhitespaceAppend(a: Text, b: Text)
    ensures WithoutWhitespace(a + b) == WithoutWhitespace(a) + WithoutWhitespace(b)
  {
    if a == [] {
      assert a + b == b;
    } else {
      WhitespaceAppend(a[1..], b);
      assert (a + b)[1..] == a[1..] + b;
      Regroup(if IsWhitespace(a[0]) then [] else [a[0]], WithoutWhitespace(a[1..]), WithoutWhitespace(b));
    }
  }

  /** Tabs, line feeds, form feeds, carriage returns and spaces make no difference. */
  lemma WhitespaceIsIgnored(a: Text, u: Unit, b: Text)
    requires u in {9, 10, 12, 13, 32}
    ensures Atob(a + ([u] + b)) == Atob(a + b)
  {
    WhitespaceAppend(a, [u] + b);
    WhitespaceAppend([u], b);
    WhitespaceAppend(a, b);
    assert WithoutWhitespace([u]) == [];
    assert [] + WithoutWhitespace(b) == WithoutWhitespace(b);
  }

  lemma PadsAreDropped(s: Text, pads: Text)
    requires AllSymbols(s) && (pads == [PAD] || pads == [PAD, PAD]) && (|s| + |pads|) % 4 == 0 && s != []
    ensures WithoutPadding(s + pads) == s
  {
    var t := s + pads;
    assert SextetOf(s[|s|-1]).Some?;
    if |pads| == 1 {
      assert t[|t|-2] == s[|s|-1] && t[..|t|-1] == s;
    } else {
      assert t[|t|-2] == PAD && t[..|t|-2] == s;
    }
  }

  lemma PadsAreNoWhitespace(s: Text, n: nat)
    requires AllSymbols(s)
    ensures WithoutWhitespace(s + Padding(n)) == s + Padding(n)
  {
    NoWhitespace(s);
    WhitespaceAppend(s, Padding(n));
    assert WithoutWhitespace([PAD]) == [PAD];
    assert [PAD, PAD][1..] == [PAD];
  }

  lemma PaddingFills(n: nat, size: nat)
    requires size == n / 3 * 4 + (if n % 3 == 0 then 0 else n % 3 + 1)
    ensures size % 4 != 1 && (n % 3 != 0 ==> size > 0 && (size + |Padding(n)|) % 4 == 0)
  {
    var q := n / 3;
    if n % 3 == 0 {
      assert size == 4 * q;
    } else if n % 3 == 1 {
      assert size + |Padding(n)| == 4 * (q + 1);
    } else {
      assert size + |Padding(n)| == 4 * (q + 1);
    }
  }

  lemma PadsAreUndone(s: Text, n: nat)
    requires AllSymbols(s) && |s| == n / 3 * 4 + (if n % 3 == 0 then 0 else n % 3 + 1)
    ensures WithoutPadding(WithoutWhitespace(s + Padding(n))) == s
  {
    PaddingFills(n, |s|);
    PadsAreNoWhitespace(s, n);
    if n % 3 == 0 {
      assert s + Padding(n) == s;
      NoPadding(s);
    } else {
      PadsAreDropped(s, Padding(n));
    }
  }

  /** Padding is accepted where it fills the last group. */
  lemma PaddedRoundTrip(b: seq<Byte>)
    ensures Atob(Btoa(b)) == Some(b)
  {
    UnpaddedSymbols(b);
    PaddingFills(|b|, |Unpadded(b)|);
    UnpaddedRoundTrip(b);
    PadsAreUndone(Unpadded(b), |b|);
  }
}
