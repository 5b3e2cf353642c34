/** The link a standalone game is saved in: its printer, and how the page reads its
    address back. */
module SavedLink {
  import opened Common
  import opened JsText
  import opened UrlQuery
  import Base64
  import Utf8

  const HASH: Unit := 35

  const GAME: Text := [103, 97, 109, 101]
  const R: Text := [114]
  const T: Text := [116]
  const W: Text := [119]

  /** A parameter's name and value, and the text `name=value`. */
  type Param = (Text, Text)

  function TextOf(p: Param): Text {
    p.0 + ([EQUALS] + p.1)
  }

  /** The parameters with ampersands between them. */
  function Joined(params: seq<Param>): Text {
    if params == [] then []
    else if |params| == 1 then TextOf(params[0])
    else TextOf(params[0]) + ([AMP] + Joined(params[1..]))
  }

  lemma JoinedCons(p: Param, rest: seq<Param>)
    requires rest != []
    ensures Joined([p] + rest) == TextOf(p) + ([AMP] + Joined(rest))
  {
    assert ([p] + rest)[1..] == rest;
  }

  /** What a saved link carries. */
  datatype Saved = Saved(seed: Text, bits: Text, turn: Text, words: Option<Text>)

  function ParamsOf(s: Saved): seq<Param> {
    [(GAME, s.seed), (R, s.bits), (T, s.turn)] + if s.words.None? then [] else [(W, s.words.value)]
  }

  /** The query of the printed link, from after its question mark. */
  function Print(s: Saved): Text {
    Joined(ParamsOf(s))
  }

  // ---- Reading ----

  /** The part before the first `c`. */
  function UpTo(s: Text, c: Unit): (r: Text)
    ensures |r| <= |s|
  {
    if s == [] || s[0] == c then [] else [s[0]] + UpTo(s[1..], c)
  }

  /** The pieces between ampersands. */
  function Pieces(s: Text): seq<Text>
    decreases |s|
  {
    var first := UpTo(s, AMP);
    if |first| == |s| then [first] else [first] + Pieces(s[|first| + 1..])
  }

  function NameOf(piece: Text): Text {
    Form(UpTo(piece, EQUALS))
  }

  function ValueOf(piece: Text): Text {
    var name := UpTo(piece, EQUALS);
    Form(if |name| == |piece| then [] else piece[|name| + 1..])
  }

  /** The value of the first piece of that name. */
  function Get(pieces: seq<Text>, name: Text): Option<Text> {
    if pieces == [] then None
    else if NameOf(pieces[0]) == name then Some(ValueOf(pieces[0]))
    else Get(pieces[1..], name)
  }

  datatype Params = Params(game: Option<Text>, r: Option<Text>, t: Option<Text>, w: Option<Text>)

  /** The parser strips spaces and controls off the end. */
  function Stripped(s: Text): (r: Text)
    ensures |r| <= |s|
  {
    if s == [] || s[|s|-1] > SPACE then s else Stripped(s[..|s|-1])
  }

  /** The query of the address a link leads to; what follows a `#` is no part of it. */
  function QueryOf(link: Text): Text {
    Searched(UpTo(Stripped(link), HASH))
  }

  /** The parameters the page finds there. */
  function Parse(link: Text): Params {
    ParsePieces(Pieces(QueryOf(link)))
  }

  function ParsePieces(pieces: seq<Text>): Params {
    Params(Get(pieces, GAME), Get(pieces, R), Get(pieces, T), Get(pieces, W))
  }

  // ---- Reading what was printed ----

  lemma {:induction false} UpToAll(s: Text, c: Unit)
    requires c !in s
    ensures UpTo(s, c) == s
  {
    if s != [] {
      UpToAll(s[1..], c);
      assert s == [s[0]] + s[1..];
    }
  }

  lemma {:induction false} UpToFirst(a: Text, c: Unit, b: Text)
    requires c !in a
    ensures UpTo(a + ([c] + b), c) == a
  {
    if a == [] {
      assert a + ([c] + b) == [c] + b;
    } else {
      UpToFirst(a[1..], c, b);
      assert (a + ([c] + b))[1..] == a[1..] + ([c] + b);
    }
  }

  lemma {:induction false} UpToPrefixed(a: Text, b: Text, c: Unit)
    requires c !in a
    ensures UpTo(a + b, c) == a + UpTo(b, c)
  {
    if a == [] {
      assert a + b == b;
    } else {
      UpToPrefixed(a[1..], b, c);
      assert (a + b)[1..] == a[1..] + b;
    }
  }

  /** What follows the first `c` does not matter. */
  lemma {:induction false} UpToEarlier(a: Text, b: Text, c: Unit)
    requires c in a
    ensures UpTo(a + b, c) == UpTo(a, c)
  {
    if a[0] != c {
      UpToEarlier(a[1..], b, c);
      assert (a + b)[1..] == a[1..] + b;
    }
  }

  lemma PiecesCons(a: Text, b: Text)
    requires AMP !in a
    ensures Pieces(a + ([AMP] + b)) == [a] + Pieces(b)
  {
    UpToFirst(a, AMP, b);
    assert (a + ([AMP] + b))[|a| + 1..] == b;
  }

  /** Letters, digits, `-` and `_` only. */
  predicate Plain(s: Text) {
    forall i :: 0 <= i < |s| ==> Base64.IsUrlSafe(s[i])
  }

  lemma PlainReads(s: Text)
    requires Plain(s)
    ensures Read(s) == s && Searched(s) == s && !HasEscape(s)
    ensures AMP !in s && HASH !in s && EQUALS !in s
  {
    assert forall i :: 0 <= i < |s| ==> !IsEscape(s[i..]);
    NoSurrogates(s);
    RepairedIffIllFormed(s);
    NoBreaks(s);
    PlainEscapesItself(s);
    ReadIff(s);
  }

  lemma {:induction false} PlainEscapesItself(s: Text)
    requires Plain(s)
    ensures Escaped(s) == s
  {
    if s != [] {
      PlainEscapesItself(s[1..]);
      assert s == [s[0]] + s[1..];
    }
  }

  /** The name is plain, and the value does not end its piece. */
  predicate Holds(p: Param) {
    Plain(p.0) && AMP !in p.1
  }

  lemma PieceReads(p: Param)
    requires Holds(p)
    ensures var piece := Searched(TextOf(p));
            AMP !in piece && NameOf(piece) == p.0 && ValueOf(piece) == Read(p.1)
  {
    PlainReads(p.0);
    SearchedAppend(p.0, EQUALS, p.1);
    SearchedLacks(p.1, AMP);
    UpToFirst(p.0, EQUALS, Searched(p.1));
    assert Searched(TextOf(p))[|p.0| + 1..] == Searched(p.1);
  }

  function Lookup(params: seq<Param>, name: Text): Option<Text> {
    if params == [] then None else if params[0].0 == name then Some(params[0].1) else Lookup(params[1..], name)
  }

  lemma GetCons(piece: Text, rest: seq<Text>, name: Text)
    ensures Get([piece] + rest, name) == if NameOf(piece) == name then Some(ValueOf(piece)) else Get(rest, name)
  {
    assert ([piece] + rest)[1..] == rest;
  }

  function ReadAll(v: Option<Text>): Option<Text> {
    if v.None? then None else Some(Read(v.value))
  }

  /** Parameters read back by name. */
  lemma {:induction false} JoinedReadsBack(params: seq<Param>, name: Text)
    requires (forall i :: 0 <= i < |params| ==> Holds(params[i])) && params != []
    ensures Get(Pieces(Searched(Joined(params))), name) == ReadAll(Lookup(params, name))
  {
    var p := params[0];
    PieceReads(p);
    if |params| == 1 {
      UpToAll(Searched(TextOf(p)), AMP);
      assert Pieces(Searched(TextOf(p))) == [Searched(TextOf(p))];
      GetCons(Searched(TextOf(p)), [], name);
      assert Lookup(params[1..], name) == None;
    } else {
      var rest := Joined(params[1..]);
      JoinedReadsBack(params[1..], name);
      SearchedAppend(TextOf(p), AMP, rest);
      PiecesCons(Searched(TextOf(p)), Searched(rest));
      GetCons(Searched(TextOf(p)), Pieces(Searched(rest)), name);
    }
  }

  predicate PlainPayload(s: Saved) {
    Plain(s.bits) && Plain(s.turn) && (s.words.Some? ==> Plain(s.words.value))
  }

  lemma NamesDiffer()
    ensures GAME != R && GAME != T && GAME != W && R != T && R != W && T != W
  {
    assert |GAME| == 4 && R[0] == 114 && T[0] == 116 && W[0] == 119;
  }

  lemma LookupCons(p: Param, rest: seq<Param>, name: Text)
    ensures Lookup([p] + rest, name) == if p.0 == name then Some(p.1) else Lookup(rest, name)
  {
    assert ([p] + rest)[1..] == rest;
  }

  lemma LookupSaved(s: Saved, name: Text)
    ensures Lookup(ParamsOf(s), name) ==
            if name == GAME then Some(s.seed) else if name == R then Some(s.bits) else if name == T then Some(s.turn)
            else if name == W then s.words else None
  {
    NamesDiffer();
    var last: seq<Param> := if s.words.None? then [] else [(W, s.words.value)];
    if s.words.Some? {
      LookupCons((W, s.words.value), [], name);
      assert [(W, s.words.value)] + [] == last;
    }
    LookupCons((T, s.turn), last, name);
    LookupCons((R, s.bits), [(T, s.turn)] + last, name);
    LookupCons((GAME, s.seed), [(R, s.bits)] + ([(T, s.turn)] + last), name);
    assert ParamsOf(s) == [(GAME, s.seed)] + ([(R, s.bits)] + ([(T, s.turn)] + last));
  }

  /** Neither a `#` nor anything to strip. */
  predicate Whole(s: Text) {
    HASH !in s && s != [] && s[|s|-1] > SPACE
  }

  lemma WholeAppend(a: Text, b: Text)
    requires HASH !in a && Whole(b)
    ensures Whole(a + ([AMP] + b))
  {
  }

  lemma WholeParam(p: Param)
    requires HASH !in p.0 && (p.1 == [] || Whole(p.1))
    ensures Whole(TextOf(p))
  {
  }

  lemma PlainIsWhole(s: Text)
    requires Plain(s)
    ensures HASH !in s && (s == [] || Whole(s))
  {
  }

  lemma {:induction false} JoinedIsWhole(params: seq<Param>)
    requires params != [] && forall i :: 0 <= i < |params| ==> Plain(params[i].0) && Plain(params[i].1)
    ensures Whole(Joined(params))
  {
    PlainIsWhole(params[0].0);
    PlainIsWhole(params[0].1);
    WholeParam(params[0]);
    if |params| > 1 {
      JoinedIsWhole(params[1..]);
      WholeAppend(TextOf(params[0]), Joined(params[1..]));
    }
  }

  /** The seed is all that can be cut short. */
  lemma PrintedSeed(s: Saved)
    requires PlainPayload(s)
    ensures var rest := Joined(ParamsOf(s)[1..]);
            && Print(s) == TextOf((GAME, s.seed)) + ([AMP] + rest) && HASH !in rest && Stripped(Print(s)) == Print(s)
  {
    var params := ParamsOf(s)[1..];
    assert forall i :: 0 <= i < |params| ==> Plain(params[i].0) && Plain(params[i].1);
    JoinedIsWhole(params);
  }

  /** How far the seed gets in its own link. */
  function Cut(seed: Text): (r: Text)
    ensures |r| <= |seed|
  {
    UpTo(UpTo(seed, HASH), AMP)
  }

  lemma CutIff(seed: Text)
    ensures |Cut(seed)| == |seed| <==> HASH !in seed && AMP !in seed
    ensures |Cut(seed)| == |seed| ==> Cut(seed) == seed
  {
    if HASH in seed {
      UpToSplits(seed, HASH);
    } else {
      UpToAll(seed, HASH);
      if AMP in seed {
        UpToSplits(seed, AMP);
      } else {
        UpToAll(seed, AMP);
      }
    }
  }

  lemma {:induction false} UpToLacks(s: Text, c: Unit, d: Unit)
    ensures c !in UpTo(s, c) && (d !in s ==> d !in UpTo(s, c))
  {
    if s != [] && s[0] != c {
      UpToLacks(s[1..], c, d);
    }
  }

  lemma {:induction false} UpToSplits(s: Text, c: Unit)
    requires c in s
    ensures |UpTo(s, c)| < |s| && s == UpTo(s, c) + ([c] + s[|UpTo(s, c)| + 1..])
  {
    if s[0] != c {
      UpToSplits(s[1..], c);
    }
  }

  /** The first piece of a query is what comes before its first ampersand. */
  lemma FirstPiece(s: Text)
    ensures Pieces(Searched(s)) != [] && Pieces(Searched(s))[0] == Searched(UpTo(s, AMP))
  {
    var first := UpTo(s, AMP);
    UpToLacks(s, AMP, AMP);
    SearchedLacks(first, AMP);
    if AMP in s {
      UpToSplits(s, AMP);
      SearchedAppend(first, AMP, s[|first| + 1..]);
      UpToFirst(Searched(first), AMP, Searched(s[|first| + 1..]));
    } else {
      UpToAll(s, AMP);
      UpToAll(Searched(s), AMP);
    }
  }

  lemma CutPiece(seed: Text, rest: Text)
    requires HASH !in rest
    ensures UpTo(UpTo(seed + ([AMP] + rest), HASH), AMP) == Cut(seed)
  {
    if HASH in seed {
      UpToEarlier(seed, [AMP] + rest, HASH);
    } else {
      UpToAll(seed, HASH);
      UpToAll(seed + ([AMP] + rest), HASH);
      if AMP in seed {
        UpToEarlier(seed, [AMP] + rest, AMP);
      } else {
        UpToFirst(seed, AMP, rest);
        UpToAll(seed, AMP);
      }
    }
  }

  lemma NamedCut(name: Text, seed: Text, rest: Text)
    requires Plain(name) && HASH !in rest
    ensures UpTo(UpTo(TextOf((name, seed)) + ([AMP] + rest), HASH), AMP) == TextOf((name, Cut(seed)))
  {
    var head, body := name + [EQUALS], seed + ([AMP] + rest);
    PlainReads(name);
    assert TextOf((name, seed)) + ([AMP] + rest) == head + body;
    UpToPrefixed(head, body, HASH);
    UpToPrefixed(head, UpTo(body, HASH), AMP);
    CutPiece(seed, rest);
    Regroup(name, [EQUALS], Cut(seed));
  }

  lemma SeedPiece(s: Saved)
    requires PlainPayload(s)
    ensures UpTo(UpTo(Print(s), HASH), AMP) == TextOf((GAME, Cut(s.seed)))
  {
    PrintedSeed(s);
    NamedCut(GAME, s.seed, Joined(ParamsOf(s)[1..]));
  }

  /** The seed is printed as it is, so it is read back from before its first `#` or `&`. */
  lemma SeedReadBack(s: Saved)
    requires PlainPayload(s)
    ensures Parse(Print(s)).game == Some(Read(Cut(s.seed)))
  {
    var p: Param := (GAME, Cut(s.seed));
    PrintedSeed(s);
    SeedPiece(s);
    FirstPiece(UpTo(Print(s), HASH));
    UpToLacks(UpTo(s.seed, HASH), AMP, AMP);
    PieceReads(p);
  }

  /** The seed survives its own link. */
  predicate Survives(seed: Text) {
    ReadsAsWritten(seed) && AMP !in seed && HASH !in seed
  }

  /** Every seed comes back from its own link exactly when it is well formed and holds
      none of `&`, `#` and `+`, no tab or line break, and no percent escape. */
  lemma SeedComesBackIff(s: Saved)
    requires PlainPayload(s)
    ensures Parse(Print(s)).game == Some(s.seed) <==> Survives(s.seed)
  {
    SeedReadBack(s);
    CutIff(s.seed);
    ReadIff(Cut(s.seed));
  }

  /** And with such a seed the whole link reads back exactly. */
  lemma ParsePrinted(s: Saved)
    requires PlainPayload(s) && Survives(s.seed)
    ensures Parse(Print(s)) == Params(Some(s.seed), Some(s.bits), Some(s.turn), s.words)
  {
    NamesDiffer();
    PrintedSeed(s);
    UpToAll(Print(s), HASH);
    SeedComesBackIff(s);
    ReadsBack(s, R);
    ReadsBack(s, T);
    ReadsBack(s, W);
  }

  lemma ReadsBack(s: Saved, name: Text)
    requires PlainPayload(s) && AMP !in s.seed && name != GAME
    ensures Get(Pieces(Searched(Print(s))), name) ==
            if name == R then Some(s.bits) else if name == T then Some(s.turn) else if name == W then s.words else None
  {
    forall i | 0 <= i < |ParamsOf(s)| ensures Holds(ParamsOf(s)[i]) {
      if i > 0 {
        PlainReads(ParamsOf(s)[i].1);
      }
    }
    JoinedReadsBack(ParamsOf(s), name);
    LookupSaved(s, name);
    PlainReads(s.bits);
    PlainReads(s.turn);
    if s.words.Some? {
      PlainReads(s.words.value);
    }
  }

  // ---- Every well-formed seed can be asked for ----

  /** The link with each byte of the seed escaped. */
  function EscapedLink(seed: Text): Text {
    TextOf((GAME, Triples(Utf8.EncodeText(seed))))
  }

  lemma EscapedOnly(seed: Text, name: Text)
    ensures Get(Pieces(Searched(EscapedLink(seed))), name) == if name == GAME then Some(Repair(seed)) else None
  {
    var b := Utf8.EncodeText(seed);
    TriplesUnits(b);
    EscapedTextIsRead(seed);
    JoinedReadsBack([(GAME, Triples(b))], name);
    LookupCons((GAME, Triples(b)), [], name);
    assert [(GAME, Triples(b))] + [] == [(GAME, Triples(b))];
  }

  lemma {:induction false} TriplesAreWhole(b: seq<Utf8.Byte>)
    requires b != []
    ensures Whole(Triples(b))
  {
    if |b| > 1 {
      TriplesAreWhole(b[1..]);
    }
  }

  /** So a page can be sent to a game of any well-formed seed. */
  lemma EveryTextIsAskedFor(seed: Text)
    ensures Parse(EscapedLink(seed)) == Params(Some(Repair(seed)), None, None, None)
  {
    var b := Utf8.EncodeText(seed);
    NamesDiffer();
    if b != [] {
      TriplesAreWhole(b);
    }
    WholeParam((GAME, Triples(b)));
    UpToAll(EscapedLink(seed), HASH);
    EscapedOnly(seed, GAME);
    EscapedOnly(seed, R);
    EscapedOnly(seed, T);
    EscapedOnly(seed, W);
  }

  // ---- Links as people write them ----

  /** Trailing spaces and controls are no part of a link. */
  lemma TrailingBlankIsIgnored(link: Text, u: Unit)
    requires u <= SPACE
    ensures Parse(link + [u]) == Parse(link)
  {
    assert (link + [u])[..|link|] == link;
    assert Stripped(link + [u]) == Stripped(link);
  }

  /** What follows a `#` is ignored. */
  lemma FragmentIsIgnored(link: Text, fragment: Text)
    requires HASH !in link && Whole(fragment)
    ensures Parse(link + ([HASH] + fragment)) == ParsePieces(Pieces(Searched(link)))
  {
    var whole := link + ([HASH] + fragment);
    assert whole[|whole|-1] == fragment[|fragment|-1];
    UpToFirst(link, HASH, fragment);
  }

  /** Of two parameters of one name the first counts. */
  lemma FirstNameWins(seed: Text, rest: Text)
    requires AMP !in seed && HASH !in seed && Whole(rest)
    ensures Parse(TextOf((GAME, seed)) + ([AMP] + rest)).game == Some(Read(seed))
  {
    var p: Param := (GAME, seed);
    var link := TextOf(p) + ([AMP] + rest);
    assert link[|link|-1] == rest[|rest|-1];
    UpToAll(link, HASH);
    PieceReads(p);
    SearchedAppend(TextOf(p), AMP, rest);
    PiecesCons(Searched(TextOf(p)), Searched(rest));
  }
}
