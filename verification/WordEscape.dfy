/** The escape layer of the word list in a link: `\` and `|` inside words, `|` between
    them. */
module WordEscape {
  import opened JsText

  const BACKSLASH: Unit := 92
  const BAR: Unit := 124

  // ---- Escaping, as two replacements ----

  /** Every `c` with a backslash put before it. */
  function Prefixed(s: Text, c: Unit): Text {
    if s == [] then [] else (if s[0] == c then [BACKSLASH, c] else [s[0]]) + Prefixed(s[1..], c)
  }

  function EscapeWord(word: Text): Text {
    Prefixed(Prefixed(word, BACKSLASH), BAR)
  }

  /** The pairs `x``y` replaced by `y`, from the left, without overlap. */
  function Unprefixed(s: Text, y: Unit): Text {
    if |s| < 2 then s
    else if s[0] == BACKSLASH && s[1] == y then [y] + Unprefixed(s[2..], y)
    else [s[0]] + Unprefixed(s[1..], y)
  }

  function UnescapeWord(word: Text): Text {
    Unprefixed(Unprefixed(word, BAR), BACKSLASH)
  }

  // ---- The same, reading tokens once ----

  function EscapeUnit(u: Unit): Text {
    if u == BACKSLASH || u == BAR then [BACKSLASH, u] else [u]
  }

  function Escaped(word: Text): Text {
    if word == [] then [] else EscapeUnit(word[0]) + Escaped(word[1..])
  }

  /** Read one token at a time: `\\` is a backslash, `\|` a bar, anything else itself. */
  function ReadTokens(s: Text): Text {
    if |s| < 2 then s
    else if s[0] == BACKSLASH && (s[1] == BACKSLASH || s[1] == BAR) then [s[1]] + ReadTokens(s[2..])
    else [s[0]] + ReadTokens(s[1..])
  }

  lemma PrefixedCons(u: Unit, s: Text, c: Unit)
    ensures Prefixed([u] + s, c) == (if u == c then [BACKSLASH, c] else [u]) + Prefixed(s, c)
  {
    assert ([u] + s)[1..] == s;
  }

  lemma {:induction false} EscapeIsOnePass(word: Text)
    ensures EscapeWord(word) == Escaped(word)
  {
    if word != [] {
      var u, rest := word[0], Prefixed(word[1..], BACKSLASH);
      EscapeIsOnePass(word[1..]);
      if u == BACKSLASH {
        PrefixedCons(BACKSLASH, rest, BAR);
        PrefixedCons(BACKSLASH, [BACKSLASH] + rest, BAR);
        assert Prefixed(word, BACKSLASH) == [BACKSLASH] + ([BACKSLASH] + rest);
      } else {
        PrefixedCons(u, rest, BAR);
      }
    }
  }

  lemma UnprefixedCons(u: Unit, s: Text, y: Unit)
    requires u != BACKSLASH || s == [] || s[0] != y
    ensures Unprefixed([u] + s, y) == [u] + Unprefixed(s, y)
  {
    assert ([u] + s)[1..] == s;
  }

  lemma UnprefixedPair(s: Text, y: Unit)
    ensures Unprefixed([BACKSLASH, y] + s, y) == [y] + Unprefixed(s, y)
  {
    assert ([BACKSLASH, y] + s)[2..] == s;
  }

  /** What the first pass leaves in front is a bar only where a bar or its pair was. */
  lemma FirstOfPass(s: Text)
    ensures var t := Unprefixed(s, BAR);
            && (t == [] <==> s == [])
            && (s != [] ==> t[0] == if |s| >= 2 && s[0] == BACKSLASH && s[1] == BAR then BAR else s[0])
  {
  }

  /** The two replacements undo exactly what reading tokens once undoes, whatever the
      runs of backslashes: for every string, escaped or not. */
  lemma {:induction false} UnescapeIsOnePass(s: Text)
    ensures UnescapeWord(s) == ReadTokens(s)
    decreases |s|
  {
    if |s| >= 2 {
      var u, v, rest := s[0], s[1], s[2..];
      assert s == [u, v] + rest;
      if u == BACKSLASH && v == BAR {
        UnescapeIsOnePass(rest);
        UnprefixedPair(rest, BAR);
        UnprefixedCons(BAR, Unprefixed(rest, BAR), BACKSLASH);
      } else if u == BACKSLASH && v == BACKSLASH {
        TwoBackslashes(rest);
      } else {
        UnescapeIsOnePass(s[1..]);
        assert s == [u] + s[1..];
        UnprefixedCons(u, s[1..], BAR);
        FirstOfPass(s[1..]);
        UnprefixedCons(u, Unprefixed(s[1..], BAR), BACKSLASH);
      }
    }
  }

  /** The overlap that looks dangerous, `\\|`: the first pass eats the second backslash,
      and the second pass is left with the first one. */
  lemma {:induction false} TwoBackslashes(rest: Text)
    ensures UnescapeWord([BACKSLASH, BACKSLASH] + rest) == [BACKSLASH] + ReadTokens(rest)
    decreases |rest| + 1
  {
    var s := [BACKSLASH, BACKSLASH] + rest;
    var tail := [BACKSLASH] + rest;
    assert s == [BACKSLASH] + tail;
    UnprefixedCons(BACKSLASH, tail, BAR);
    if rest != [] && rest[0] == BAR {
      var r := rest[1..];
      UnescapeIsOnePass(r);
      assert tail == [BACKSLASH, BAR] + r;
      UnprefixedPair(r, BAR);
      var p := Unprefixed(r, BAR);
      UnprefixedCons(BACKSLASH, [BAR] + p, BACKSLASH);
      UnprefixedCons(BAR, p, BACKSLASH);
      assert ReadTokens(rest) == [BAR] + ReadTokens(r);
    } else {
      UnescapeIsOnePass(rest);
      UnprefixedCons(BACKSLASH, rest, BAR);
      var p := Unprefixed(rest, BAR);
      assert [BACKSLASH] + ([BACKSLASH] + p) == [BACKSLASH, BACKSLASH] + p;
      UnprefixedPair(p, BACKSLASH);
    }
  }

  lemma {:induction false} ReadEscaped(word: Text)
    ensures ReadTokens(Escaped(word)) == word
  {
    if word != [] {
      var rest := Escaped(word[1..]);
      ReadEscaped(word[1..]);
      assert (EscapeUnit(word[0]) + rest)[|EscapeUnit(word[0])|..] == rest;
      assert word == [word[0]] + word[1..];
    }
  }

  /** Unescaping undoes escaping for every string. */
  lemma EscapeRoundTrip(word: Text)
    ensures UnescapeWord(EscapeWord(word)) == word
  {
    EscapeIsOnePass(word);
    UnescapeIsOnePass(Escaped(word));
    ReadEscaped(word);
  }

  // ---- Joining and splitting ----

  function Join(parts: seq<Text>): Text {
    if parts == [] then [] else if |parts| == 1 then parts[0] else parts[0] + [BAR] + Join(parts[1..])
  }

  /** The parts of `s` when `current` has been read of the part it starts in. */
  function SplitFrom(s: Text, current: Text): (r: seq<Text>)
    ensures r != []
    decreases |s|
  {
    if s == [] then [current]
    else if s[0] == BACKSLASH && |s| > 1 then SplitFrom(s[2..], current + [s[0], s[1]])
    else if s[0] == BAR then [current] + SplitFrom(s[1..], [])
    else SplitFrom(s[1..], current + [s[0]])
  }

  method Split(decoded: Text) returns (parts: seq<Text>)
    ensures parts == SplitFrom(decoded, [])
  {
    parts := [];
    var current: Text := [];
    var i := 0;
    while i < |decoded|
      invariant 0 <= i <= |decoded|
      invariant parts + SplitFrom(decoded[i..], current) == SplitFrom(decoded, [])
    {
      if decoded[i] == BACKSLASH && i + 1 < |decoded| {
        current := current + [decoded[i], decoded[i + 1]];
        i := i + 2;
      } else if decoded[i] == BAR {
        parts := parts + [current];
        current := [];
        i := i + 1;
      } else {
        current := current + [decoded[i]];
        i := i + 1;
      }
    }
    parts := parts + [current];
  }

  /** Splitting loses nothing: the parts joined again are the text. */
  lemma {:induction false} SplitLosesNothing(s: Text, current: Text)
    ensures Join(SplitFrom(s, current)) == current + s
    decreases |s|
  {
    if s == [] {
    } else if s[0] == BACKSLASH && |s| > 1 {
      SplitLosesNothing(s[2..], current + [s[0], s[1]]);
      assert s == [s[0], s[1]] + s[2..];
    } else if s[0] == BAR {
      SplitLosesNothing(s[1..], []);
      var rest := SplitFrom(s[1..], []);
      assert ([current] + rest)[1..] == rest;
      assert s == [s[0]] + s[1..];
    } else {
      SplitLosesNothing(s[1..], current + [s[0]]);
      assert s == [s[0]] + s[1..];
    }
  }

  /** The splitter passes over an escaped word whole. */
  lemma {:induction false} SplitPassesWord(word: Text, rest: Text, current: Text)
    ensures SplitFrom(Escaped(word) + rest, current) == SplitFrom(rest, current + Escaped(word))
    decreases |word|
  {
    if word == [] {
      assert Escaped(word) + rest == rest;
      assert current + Escaped(word) == current;
    } else {
      var u := EscapeUnit(word[0]);
      var tail := Escaped(word[1..]);
      var s := Escaped(word) + rest;
      SplitPassesWord(word[1..], rest, current + u);
      assert s[|u|..] == tail + rest;
      assert s[..|u|] == u;
      assert current + u + tail == current + Escaped(word);
    }
  }

  function EscapeAll(words: seq<Text>): (r: seq<Text>)
    ensures |r| == |words|
  {
    if words == [] then [] else [EscapeWord(words[0])] + EscapeAll(words[1..])
  }

  function UnescapeAll(parts: seq<Text>): (r: seq<Text>)
    ensures |r| == |parts|
  {
    if parts == [] then [] else [UnescapeWord(parts[0])] + UnescapeAll(parts[1..])
  }

  lemma SplitLast(word: Text)
    ensures SplitFrom(Escaped(word), []) == [Escaped(word)]
  {
    SplitPassesWord(word, [], []);
    assert Escaped(word) + [] == Escaped(word);
    assert [] + Escaped(word) == Escaped(word);
  }

  lemma SplitAtBar(word: Text, tail: Text)
    ensures SplitFrom(Escaped(word) + ([BAR] + tail), []) == [Escaped(word)] + SplitFrom(tail, [])
  {
    SplitPassesWord(word, [BAR] + tail, []);
    assert [] + Escaped(word) == Escaped(word);
    assert ([BAR] + tail)[1..] == tail;
  }

  lemma JoinFirst(words: seq<Text>)
    requires |words| > 1
    ensures Join(EscapeAll(words)) == Escaped(words[0]) + ([BAR] + Join(EscapeAll(words[1..])))
  {
    EscapeIsOnePass(words[0]);
    assert EscapeAll(words)[1..] == EscapeAll(words[1..]);
  }

  lemma {:induction false} SplitUndoesJoin(words: seq<Text>)
    requires words != []
    ensures SplitFrom(Join(EscapeAll(words)), []) == EscapeAll(words)
  {
    EscapeIsOnePass(words[0]);
    if |words| == 1 {
      SplitLast(words[0]);
    } else {
      var tail := Join(EscapeAll(words[1..]));
      SplitUndoesJoin(words[1..]);
      JoinFirst(words);
      SplitAtBar(words[0], tail);
    }
  }

  lemma {:induction false} UnescapeUndoesEscape(words: seq<Text>)
    ensures UnescapeAll(EscapeAll(words)) == words
  {
    if words != [] {
      EscapeRoundTrip(words[0]);
      UnescapeUndoesEscape(words[1..]);
      assert EscapeAll(words)[1..] == EscapeAll(words[1..]);
      assert words == [words[0]] + words[1..];
    }
  }

  function NonEmpty(words: seq<Text>): seq<Text> {
    if words == [] then [] else (if words[0] == [] then [] else [words[0]]) + NonEmpty(words[1..])
  }

  function TextOf(words: seq<Text>): Text {
    Join(EscapeAll(words))
  }

  function WordsOf(text: Text): seq<Text> {
    NonEmpty(UnescapeAll(SplitFrom(text, [])))
  }

  /** The text of a word list reads back as its nonempty words, whatever they hold. */
  lemma TextRoundTrip(words: seq<Text>)
    ensures WordsOf(TextOf(words)) == NonEmpty(words)
  {
    if words == [] {
      assert SplitFrom([], []) == [[]];
      assert UnescapeAll([[]]) == [[]];
      assert NonEmpty([[]]) == [];
    } else {
      SplitUndoesJoin(words);
      UnescapeUndoesEscape(words);
    }
  }
}
