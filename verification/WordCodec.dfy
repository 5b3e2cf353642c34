/** Word lists in links: escape, join, UTF-8, base 64, and all of it backwards. */
module WordCodec {
  import opened Common
  import opened JsText
  import Utf8
  import Base64
  import opened WordEscape

  const MAX_ENCODED_WORDS_BYTES: nat := 8 * 1024

  function EncodeWords(words: seq<Text>): Text {
    Base64.ToUrl(Utf8.EncodeText(TextOf(words)))
  }

  /** Bytes that are no UTF-8 are read one character each, as links made before UTF-8 were
      written. */
  function TextOfBytes(bytes: seq<Utf8.Byte>): Text {
    var strict := Utf8.DecodeText(bytes);
    if strict.Some? then strict.value else bytes
  }

  function DecodeWords(encoded: Text): Option<seq<Text>> {
    if |encoded| > MAX_ENCODED_WORDS_BYTES then None else
    var bytes := Base64.FromUrl(encoded);
    if bytes.None? then None else Some(WordsOf(TextOfBytes(bytes.value)))
  }

  // ---- The loops ----

  method BytesToBase64Url(bytes: array<Utf8.Byte>) returns (r: Text)
    ensures r == Base64.ToUrl(bytes[..])
  {
    var binary: seq<Utf8.Byte> := [];
    for i := 0 to bytes.Length
      invariant binary == bytes[..i]
    {
      binary := binary + [bytes[i]];
    }
    assert bytes[..] == bytes[..bytes.Length];
    r := Base64.StripPads(Base64.Replace(Base64.Replace(Base64.Btoa(binary), Base64.PLUS, Base64.MINUS),
                                         Base64.SLASH, Base64.UNDERSCORE));
  }

  /** No result stands for the exception `atob` throws. */
  method Base64UrlToBytes(encoded: Text) returns (r: Option<seq<Utf8.Byte>>)
    ensures r == Base64.FromUrl(encoded)
  {
    var binary := Base64.Atob(Base64.Replace(Base64.Replace(encoded, Base64.MINUS, Base64.PLUS),
                                             Base64.UNDERSCORE, Base64.SLASH));
    if binary.None? {
      return None;
    }
    var bytes := new Utf8.Byte[|binary.value|](_ => 0);
    for i := 0 to bytes.Length
      invariant bytes[..i] == binary.value[..i]
    {
      bytes[i] := binary.value[i];
    }
    assert bytes[..] == binary.value;
    r := Some(bytes[..]);
  }

  method DecodeWordsFromURL(encoded: Text) returns (r: Option<seq<Text>>)
    ensures r == DecodeWords(encoded)
  {
    if |encoded| > MAX_ENCODED_WORDS_BYTES {
      return None;
    }
    var bytes := Base64UrlToBytes(encoded);
    if bytes.None? {
      return None;
    }
    var strict := Utf8.DecodeText(bytes.value);
    var decoded: Text := [];
    if strict.Some? {
      decoded := strict.value;
    } else {
      for i := 0 to |bytes.value|
        invariant decoded == bytes.value[..i]
      {
        decoded := decoded + [bytes.value[i]];
      }
      assert bytes.value[..|bytes.value|] == bytes.value;
    }
    var parts := Split(decoded);
    r := Some(NonEmpty(UnescapeAll(parts)));
  }

  // ---- What comes back ----

  /** The list starts with U+FEFF, which the decoder takes for a byte order mark. */
  predicate StartsWithMark(words: seq<Text>) {
    words != [] && words[0] != [] && words[0][0] == BOM
  }

  function WithoutMark(words: seq<Text>): seq<Text> {
    if StartsWithMark(words) then [words[0][1..]] + words[1..] else words
  }

  function RepairAll(words: seq<Text>): (r: seq<Text>)
    ensures |r| == |words|
  {
    if words == [] then [] else [Repair(words[0])] + RepairAll(words[1..])
  }

  lemma EscapedNotLow(word: Text)
    ensures Escaped(word) != [] ==> Escaped(word)[0] == word[0] || !IsSurrogate(Escaped(word)[0])
  {
  }

  lemma EscapedPair(h: Unit, l: Unit, word: Text)
    requires IsHigh(h) && IsLow(l)
    ensures Escaped([h, l] + word) == [h, l] + Escaped(word)
  {
    assert ([h, l] + word)[1..] == [l] + word;
    assert ([l] + word)[1..] == word;
  }

  lemma EscapedOne(u: Unit, word: Text)
    ensures Escaped([u] + word) == EscapeUnit(u) + Escaped(word)
  {
    assert ([u] + word)[1..] == word;
  }

  lemma RepairUnit(u: Unit, s: Text)
    requires !(IsHigh(u) && s != [] && IsLow(s[0]))
    ensures Repair(EscapeUnit(u) + s) == EscapeUnit(Scalar(u)) + Repair(s)
  {
    RepairOne(u, s);
    if u == BACKSLASH || u == BAR {
      RepairOne(BACKSLASH, [u] + s);
      assert EscapeUnit(u) + s == [BACKSLASH] + ([u] + s);
    }
  }

  /** Escaping and repairing do not interfere. */
  lemma {:induction false} RepairEscaped(word: Text)
    ensures Repair(Escaped(word)) == Escaped(Repair(word))
  {
    if word != [] {
      if Paired(word) {
        var rest := word[2..];
        RepairEscaped(rest);
        assert word == [word[0], word[1]] + rest;
        EscapedPair(word[0], word[1], rest);
        RepairPair(word[0], word[1], Escaped(rest));
        EscapedPair(word[0], word[1], Repair(rest));
      } else {
        var u, rest := word[0], word[1..];
        RepairEscaped(rest);
        EscapedNotLow(rest);
        assert word == [u] + rest;
        RepairOne(u, rest);
        EscapedOne(Scalar(u), Repair(rest));
        RepairUnit(u, Escaped(rest));
      }
    }
  }

  lemma {:induction false} RepairText(words: seq<Text>)
    ensures Repair(TextOf(words)) == TextOf(RepairAll(words))
  {
    if words != [] {
      var w := words[0];
      EscapeIsOnePass(w);
      EscapeIsOnePass(Repair(w));
      RepairEscaped(w);
      if |words| == 1 {
        assert RepairAll(words) == [Repair(w)];
      } else {
        var tail := TextOf(words[1..]);
        RepairText(words[1..]);
        JoinFirst(words);
        assert RepairAll(words)[1..] == RepairAll(words[1..]);
        JoinFirst(RepairAll(words));
        RepairAppend(Escaped(w), [BAR] + tail);
        RepairOne(BAR, tail);
      }
    }
  }

  lemma MarkInText(words: seq<Text>)
    ensures var text := TextOf(words);
            && (text != [] && text[0] == BOM <==> StartsWithMark(words))
            && TextOf(WithoutMark(words)) == if StartsWithMark(words) then text[1..] else text
  {
    if words != [] {
      var w := words[0];
      EscapeIsOnePass(w);
      if |words| > 1 {
        JoinFirst(words);
      }
      if StartsWithMark(words) {
        EscapeIsOnePass(w[1..]);
        var cut := WithoutMark(words);
        assert cut[1..] == words[1..] && |cut| == |words|;
        if |words| > 1 {
          JoinFirst(cut);
        }
      }
    }
  }

  /** Exactly what decoding an encoded list gives, for every list: nothing beyond the
      cap, else the nonempty words with the mark dropped and surrogates repaired. */
  lemma DecodedEncoding(words: seq<Text>)
    ensures DecodeWords(EncodeWords(words)) ==
            if |EncodeWords(words)| > MAX_ENCODED_WORDS_BYTES then None
            else Some(NonEmpty(RepairAll(WithoutMark(words))))
  {
    var text := TextOf(words);
    Base64.UrlRoundTrip(Utf8.EncodeText(text));
    Utf8.TextRoundTrip(text);
    MarkInText(words);
    RepairText(WithoutMark(words));
    WordEscape.TextRoundTrip(RepairAll(WithoutMark(words)));
  }

  /** The encoder's output is always UTF-8, so the one-byte reading is never taken. */
  lemma FallbackNeverTaken(words: seq<Text>)
    ensures Base64.FromUrl(EncodeWords(words)).Some?
    ensures Utf8.DecodeText(Base64.FromUrl(EncodeWords(words)).value).Some?
  {
    Base64.UrlRoundTrip(Utf8.EncodeText(TextOf(words)));
    Utf8.TextRoundTrip(TextOf(words));
  }

  // ---- When that is the list itself ----

  function Length(words: seq<Text>): nat {
    if words == [] then 0 else |words[0]| + Length(words[1..])
  }

  lemma {:induction false} LengthOfNonEmpty(words: seq<Text>)
    ensures Length(NonEmpty(words)) == Length(words)
  {
    if words != [] {
      LengthOfNonEmpty(words[1..]);
      if words[0] == [] {
        assert NonEmpty(words) == NonEmpty(words[1..]);
      } else {
        assert NonEmpty(words)[1..] == NonEmpty(words[1..]);
      }
    }
  }

  lemma {:induction false} LengthOfRepaired(words: seq<Text>)
    ensures Length(RepairAll(words)) == Length(words)
  {
    if words != [] {
      LengthOfRepaired(words[1..]);
      assert RepairAll(words)[1..] == RepairAll(words[1..]);
    }
  }

  predicate AllWellFormed(words: seq<Text>) {
    forall i :: 0 <= i < |words| ==> WellFormed(words[i])
  }

  lemma NonEmptyCons(w: Text, rest: seq<Text>)
    ensures NonEmpty([w] + rest) == (if w == [] then [] else [w]) + NonEmpty(rest)
  {
    assert ([w] + rest)[1..] == rest;
  }

  lemma {:induction false} RepairedWords(words: seq<Text>)
    ensures NonEmpty(RepairAll(words)) == NonEmpty(words) <==> AllWellFormed(words)
  {
    if words != [] {
      var w, rest := words[0], words[1..];
      RepairedWords(rest);
      RepairedIffIllFormed(w);
      assert words == [w] + rest;
      assert AllWellFormed(words) <==> WellFormed(w) && AllWellFormed(rest);
      NonEmptyCons(w, rest);
      NonEmptyCons(Repair(w), RepairAll(rest));
      SameWords(w, Repair(w), NonEmpty(rest), NonEmpty(RepairAll(rest)));
    }
  }

  lemma SameWords(w: Text, v: Text, ws: seq<Text>, vs: seq<Text>)
    requires |w| == |v|
    ensures var a, b := (if w == [] then [] else [w]) + ws, (if v == [] then [] else [v]) + vs;
            a == b <==> w == v && ws == vs
  {
    if w != [] {
      assert ([w] + ws)[0] == w && ([v] + vs)[0] == v;
      assert ([w] + ws)[1..] == ws && ([v] + vs)[1..] == vs;
    } else {
      assert [] + ws == ws && [] + vs == vs;
    }
  }

  /** A link gives its nonempty words back, in order, exactly when it fits the cap, every
      word is well-formed Unicode, and the list does not start with U+FEFF. */
  lemma RoundTripIff(words: seq<Text>)
    ensures DecodeWords(EncodeWords(words)) == Some(NonEmpty(words)) <==>
            && |EncodeWords(words)| <= MAX_ENCODED_WORDS_BYTES
            && AllWellFormed(words)
            && !StartsWithMark(words)
  {
    DecodedEncoding(words);
    if StartsWithMark(words) {
      var cut := WithoutMark(words);
      LengthOfNonEmpty(words);
      LengthOfNonEmpty(RepairAll(cut));
      LengthOfRepaired(cut);
      assert cut[1..] == words[1..];
    } else {
      RepairedWords(words);
    }
  }

  // ---- Links made before the UTF-8 scheme ----

  predicate IsLatin1(s: Text) {
    forall i :: 0 <= i < |s| ==> s[i] < 0x100
  }

  predicate IsAscii(s: Text) {
    forall i :: 0 <= i < |s| ==> s[i] < 0x80
  }

  /** The old scheme wrote the text's characters as bytes. */
  function EncodeOld(words: seq<Text>): Text
    requires IsLatin1(TextOf(words))
  {
    Base64.ToUrl(TextOf(words))
  }

  lemma {:induction false} AsciiPoints(s: Text)
    requires IsAscii(s)
    ensures Scalars(Points(s)) == s
  {
    if s != [] {
      AsciiPoints(s[1..]);
      assert Points(s)[1..] == Points(s[1..]);
      assert s == [s[0]] + s[1..];
    }
  }

  /** ASCII lists are encoded byte for byte as before. */
  lemma AsciiLinksAreUnchanged(words: seq<Text>)
    requires IsAscii(TextOf(words))
    ensures EncodeWords(words) == EncodeOld(words)
  {
    var text := TextOf(words);
    AsciiPoints(text);
    Utf8.AsciiIsItself(Scalars(Points(text)));
  }

  /** How many units are beyond ASCII. */
  function High(s: Text): nat {
    if s == [] then 0 else (if s[0] < 0x80 then 0 else 1) + High(s[1..])
  }

  function HighAll(words: seq<Text>): nat {
    if words == [] then 0 else High(words[0]) + HighAll(words[1..])
  }

  lemma {:induction false} HighAppend(a: Text, b: Text)
    ensures High(a + b) == High(a) + High(b)
  {
    if a == [] {
      assert a + b == b;
    } else {
      HighAppend(a[1..], b);
      assert (a + b)[1..] == a[1..] + b;
    }
  }

  lemma {:induction false} NoneHigh(s: Text)
    ensures High(s) == 0 <==> IsAscii(s)
  {
    if s != [] {
      NoneHigh(s[1..]);
      assert s == [s[0]] + s[1..];
    }
  }

  lemma {:induction false} HighJoin(parts: seq<Text>)
    ensures High(Join(parts)) == HighAll(parts)
  {
    if |parts| == 1 {
      assert HighAll(parts[1..]) == 0;
    } else if parts != [] {
      HighJoin(parts[1..]);
      HighAppend(parts[0], [BAR] + Join(parts[1..]));
      HighAppend([BAR], Join(parts[1..]));
      Regroup(parts[0], [BAR], Join(parts[1..]));
    }
  }

  lemma {:induction false} HighTokens(s: Text)
    ensures High(ReadTokens(s)) == High(s)
  {
    if |s| >= 2 {
      if s[0] == BACKSLASH && (s[1] == BACKSLASH || s[1] == BAR) {
        HighTokens(s[2..]);
        assert s[1..][1..] == s[2..];
      } else {
        HighTokens(s[1..]);
      }
    }
  }

  lemma {:induction false} HighWords(parts: seq<Text>)
    ensures HighAll(NonEmpty(UnescapeAll(parts))) == HighAll(parts)
  {
    if parts != [] {
      HighWords(parts[1..]);
      UnescapeIsOnePass(parts[0]);
      HighTokens(parts[0]);
      NonEmptyCons(UnescapeWord(parts[0]), UnescapeAll(parts[1..]));
      HighCons(UnescapeWord(parts[0]), NonEmpty(UnescapeAll(parts[1..])));
    }
  }

  lemma HighCons(w: Text, rest: seq<Text>)
    ensures HighAll((if w == [] then [] else [w]) + rest) == High(w) + HighAll(rest)
  {
    if w == [] {
      assert [] + rest == rest;
    } else {
      assert ([w] + rest)[1..] == rest;
    }
  }

  /** Reading a text as words keeps all of them. */
  lemma HighOfWords(text: Text)
    ensures HighAll(WordsOf(text)) == High(text)
  {
    var parts := SplitFrom(text, []);
    SplitLosesNothing(text, []);
    HighJoin(parts);
    HighWords(parts);
    assert [] + text == text;
  }

  lemma HighPoint(p: Point)
    requires !IsSurrogate(p)
    ensures High(UnitsOf(p)) <= High(Utf8.EncodePoint(p))
    ensures p >= 0x80 ==> High(UnitsOf(p)) < High(Utf8.EncodePoint(p))
    ensures p < 0x80 ==> High(Utf8.EncodePoint(p)) == 0
  {
    var b := Utf8.EncodePoint(p);
    if p >= 0x80 {
      assert forall i :: 0 <= i < |b| ==> b[i] >= 0x80;
      AllHigh(b);
      AtMostAll(UnitsOf(p));
    }
  }

  lemma {:induction false} AllHigh(s: Text)
    requires forall i :: 0 <= i < |s| ==> s[i] >= 0x80
    ensures High(s) == |s|
  {
    if s != [] {
      AllHigh(s[1..]);
    }
  }

  lemma {:induction false} AtMostAll(s: Text)
    ensures High(s) <= |s|
  {
    if s != [] {
      AtMostAll(s[1..]);
    }
  }

  /** UTF-8 spends more bytes than units on everything beyond ASCII. */
  lemma {:induction false} HighDecoded(b: seq<Utf8.Byte>)
    requires Utf8.Decode(b).Some?
    ensures High(Utf16(Utf8.Decode(b).value)) <= High(b)
    ensures High(b) > 0 ==> High(Utf16(Utf8.Decode(b).value)) < High(b)
  {
    if b != [] {
      var p, n, rest := Utf8.DecodedFirst(b);
      HighDecoded(b[n..]);
      Utf8.PointIsEncoded(b);
      HighPoint(p);
      HighAppend(b[..n], b[n..]);
      HighAppend(UnitsOf(p), Utf16(rest));
      assert b == b[..n] + b[n..] && ([p] + rest)[1..] == rest;
    }
  }

  lemma HighText(b: seq<Utf8.Byte>)
    requires Utf8.DecodeText(b).Some? && !IsAscii(b)
    ensures High(Utf8.DecodeText(b).value) < High(b)
  {
    NoneHigh(b);
    if Utf8.Marked(b) {
      HighDecoded(b[3..]);
      HighAppend(b[..3], b[3..]);
      assert b == b[..3] + b[3..];
      AllHigh(Utf8.MARK);
    } else {
      HighDecoded(b);
    }
  }

  lemma AsciiDecodes(s: Text)
    requires IsAscii(s)
    ensures Utf8.DecodeText(s) == Some(s)
  {
    AsciiPoints(s);
    Utf8.AsciiIsItself(Scalars(Points(s)));
    Utf8.TextRoundTrip(s);
    NoSurrogates(s);
  }

  /** An old link that fits the cap reads back exactly when its text is ASCII or its bytes
      are not UTF-8. */
  lemma OldLinksReadBack(words: seq<Text>)
    requires IsLatin1(TextOf(words)) && |EncodeOld(words)| <= MAX_ENCODED_WORDS_BYTES
    ensures DecodeWords(EncodeOld(words)) == Some(NonEmpty(words)) <==>
            IsAscii(TextOf(words)) || Utf8.DecodeText(TextOf(words)).None?
  {
    var text := TextOf(words);
    Base64.UrlRoundTrip(text);
    WordEscape.TextRoundTrip(words);
    if IsAscii(text) {
      AsciiDecodes(text);
    } else if Utf8.DecodeText(text).Some? {
      HighText(text);
      HighOfWords(text);
      HighOfWords(Utf8.DecodeText(text).value);
    }
  }
}
