/** Published and hand-computed values of the codecs and the hash, which no consistent
    mistake of an encoder and its decoder could meet. */
module KnownAnswers {
  import opened Common
  import opened JsText
  import Utf8
  import Base64
  import WordEscape
  import Seeded
  import SavedLink
  import StandaloneGame
  import UrlQuery

  /** The first and last examples in section 7 of RFC 3629. */
  lemma Utf8Examples()
    ensures Utf8.EncodePoint(0x41) == [0x41] && Utf8.EncodePoint(0x2262) == [0xE2, 0x89, 0xA2]
    ensures Utf8.EncodePoint(0x391) == [0xCE, 0x91] && Utf8.EncodePoint(0x233B4) == [0xF0, 0xA3, 0x8E, 0xB4]
    ensures PairOf(0xD84C, 0xDFB4) == 0x233B4
  {
  }

  lemma GroupExamples()
    ensures Base64.Group([102, 111, 111]) == [90, 109, 57, 118] && Base64.Group([98, 97, 114]) == [89, 109, 70, 121]
    ensures Base64.Group([98]) == [89, 103] && Base64.Group([98, 97]) == [89, 109, 69]
    ensures Base64.Group([251, 255, 191]) == [43, 47, 43, 47]
  {
  }

  lemma OneGroup(b: seq<Utf8.Byte>, group: Text, url: Text)
    requires 1 <= |b| <= 3 && group == Base64.Group(b) && url == Base64.Safe(group)
    ensures Base64.ToUrl(b) == url
  {
    Base64.UrlForm(b);
  }

  lemma TwoGroups(a: seq<Utf8.Byte>, b: seq<Utf8.Byte>, url: Text)
    requires |a| == 3 && 1 <= |b| <= 3 && url == Base64.Safe(Base64.Group(a) + Base64.Group(b))
    ensures Base64.ToUrl(a + b) == url
  {
    Base64.UrlForm(a + b);
    assert (a + b)[..3] == a && (a + b)[3..] == b;
  }

  /** `foob`, `fooba` and `foobar` in section 10 of RFC 4648, without padding. */
  lemma Base64Examples()
    ensures Base64.ToUrl([102, 111, 111] + [98]) == [90, 109, 57, 118] + [89, 103]
    ensures Base64.ToUrl([102, 111, 111] + [98, 97]) == [90, 109, 57, 118] + [89, 109, 69]
    ensures Base64.ToUrl([102, 111, 111] + [98, 97, 114]) == [90, 109, 57, 118] + [89, 109, 70, 121]
  {
    GroupExamples();
    TwoGroups([102, 111, 111], [98], [90, 109, 57, 118] + [89, 103]);
    TwoGroups([102, 111, 111], [98, 97], [90, 109, 57, 118] + [89, 109, 69]);
    TwoGroups([102, 111, 111], [98, 97, 114], [90, 109, 57, 118] + [89, 109, 70, 121]);
  }

  /** Three bytes that show the two symbols of the URL-safe alphabet, section 5. */
  lemma UrlSafeExample()
    ensures Base64.ToUrl([251, 255, 191]) == [45, 95, 45, 95]
  {
    GroupExamples();
    OneGroup([251, 255, 191], [43, 47, 43, 47], [45, 95, 45, 95]);
  }

  /** `a|b` and `c` as one text. */
  lemma EscapeExample()
    ensures WordEscape.TextOf([[97, 124, 98], [99]]) == [97, 92, 124, 98, 124, 99]
  {
    WordEscape.EscapeIsOnePass([97, 124, 98]);
    WordEscape.EscapeIsOnePass([99]);
  }

  lemma HashOfPoints(s: Text, points: seq<Point>, sum: nat)
    requires Points(s) == points && Seeded.Polynomial(points) == sum
    ensures Seeded.Hash(s) == Seeded.Abs(Seeded.ToInt32(sum))
  {
  }

  lemma PolynomialSnoc(points: seq<Point>, p: Point)
    ensures Seeded.Polynomial(points + [p]) == 31 * Seeded.Polynomial(points) + p
  {
    assert (points + [p])[..|points|] == points;
  }

  /** `ab`, and one emoji, which counts as one code point. */
  lemma ShortHashes()
    ensures Seeded.Hash([97, 98]) == 3105 && Seeded.Hash([0xD83D, 0xDE00]) == 128512
  {
    PolynomialSnoc([], 97);
    PolynomialSnoc([97], 98);
    PolynomialSnoc([], 128512);
    assert [97 as Point] + [98] == [97, 98] && [] + [97 as Point] == [97] && [] + [128512 as Point] == [128512];
    assert Points([98]) == [98 as Point] && Points([97, 98]) == [97, 98];
    HashOfPoints([97, 98], [97, 98], 3105);
    HashOfPoints([0xD83D, 0xDE00], [128512], 128512);
  }

  lemma ThreeTimes()
    ensures Seeded.Polynomial([122, 122, 122]) == 121146
  {
    PolynomialSnoc([], 122);
    PolynomialSnoc([122], 122);
    PolynomialSnoc([122, 122], 122);
    assert [] + [122 as Point] == [122] && [122 as Point] + [122] == [122, 122];
    assert [122 as Point, 122] + [122] == [122, 122, 122];
  }

  /** The polynomial of six times `z` wraps round to a negative residue. */
  lemma LongHash(z: seq<Point>)
    requires z == [122, 122, 122]
    ensures Seeded.ToInt32(Seeded.Polynomial(z + z)) == -685785664
    ensures Seeded.Abs(Seeded.ToInt32(Seeded.Polynomial(z + z))) == 685785664
  {
    ThreeTimes();
    Seeded.PolynomialOfConcatenation(z, z);
    assert Seeded.Power31(3) == 31 * (31 * (31 * 1));
  }

  /** A byte as a percent escape, and a link as it is printed. */
  lemma LinkExample()
    ensures UrlQuery.Triple(0xAB) == [37, 65, 66]
    ensures SavedLink.Print(SavedLink.Saved([97], [48, 49], [98], None))
            == [103, 97, 109, 101, 61, 97] + [38, 114, 61, 48, 49] + [38, 116, 61, 98]
    ensures SavedLink.Print(SavedLink.Saved([97], [48, 49], [98], Some([99])))
            == [103, 97, 109, 101, 61, 97] + [38, 114, 61, 48, 49] + [38, 116, 61, 98] + [38, 119, 61, 99]
  {
    StandaloneGame.PrintedInOrder(SavedLink.Saved([97], [48, 49], [98], None));
    StandaloneGame.PrintedInOrder(SavedLink.Saved([97], [48, 49], [98], Some([99])));
  }
}
