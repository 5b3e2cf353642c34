/** Timestamp lists and the in-place compaction the limiter applies to them. */
module SlidingWindow {

  /** The timestamps later than `start`, in order. */
  function KeepAfter(s: seq<int>, start: int): (r: seq<int>)
    ensures |r| <= |s|
  {
    if s == [] then [] else
      KeepAfter(s[..|s|-1], start) + if s[|s|-1] > start then [s[|s|-1]] else []
  }

  /** How many timestamps fall in the window from `start`, excluded, to `end`. */
  function InWindow(s: seq<int>, start: int, end: int): nat {
    if s == [] then 0 else
      InWindow(s[..|s|-1], start, end) + if start < s[|s|-1] <= end then 1 else 0
  }

  method FilterTimestampsInPlace(a: array<int>, windowStart: int) returns (writeIndex: nat)
    modifies a
    ensures writeIndex <= a.Length
    ensures a[..writeIndex] == KeepAfter(old(a[..]), windowStart)
  {
    writeIndex := 0;
    for i := 0 to a.Length
      invariant writeIndex <= i
      invariant a[i..] == old(a[i..])
      invariant a[..writeIndex] == KeepAfter(old(a[..i]), windowStart)
    {
      var ts := a[i];
      assert old(a[..i + 1])[..i] == old(a[..i]);
      assert ts == old(a[i]) by {
        assert a[i..][0] == old(a[i..])[0];
      }
      if ts > windowStart {
        a[writeIndex] := ts;
        writeIndex := writeIndex + 1;
      }
      assert a[i + 1..] == old(a[i + 1..]) by {
        assert old(a[i..])[1..] == old(a[i + 1..]);
      }
    }
    assert old(a[..a.Length]) == old(a[..]);
  }

  /** Compact one list the way the limiter does before counting it. */
  method Compact(timestamps: seq<int>, windowStart: int) returns (r: seq<int>)
    ensures r == KeepAfter(timestamps, windowStart)
  {
    var a := new int[|timestamps|](i requires 0 <= i < |timestamps| => timestamps[i]);
    assert a[..] == timestamps;
    var n := FilterTimestampsInPlace(a, windowStart);
    r := a[..n];
  }

  lemma {:induction false} KeepAfterTwice(s: seq<int>, a: int, b: int)
    requires a <= b
    ensures KeepAfter(KeepAfter(s, a), b) == KeepAfter(s, b)
  {
    if s != [] {
      var pre, x := s[..|s|-1], s[|s|-1];
      KeepAfterTwice(pre, a, b);
      if x > a {
        KeepAfterAppend(KeepAfter(pre, a), x, b);
      } else {
        assert KeepAfter(s, a) == KeepAfter(pre, a);
      }
    }
  }

  lemma KeepAfterAppend(s: seq<int>, x: int, a: int)
    ensures KeepAfter(s + [x], a) == KeepAfter(s, a) + if x > a then [x] else []
  {
    assert (s + [x])[..|s|] == s;
  }

  lemma InWindowAppend(s: seq<int>, x: int, a: int, b: int)
    ensures InWindow(s + [x], a, b) == InWindow(s, a, b) + if a < x <= b then 1 else 0
  {
    assert (s + [x])[..|s|] == s;
  }

  ghost predicate AtMost(s: seq<int>, bound: int) {
    forall i :: 0 <= i < |s| ==> s[i] <= bound
  }

  lemma {:induction false} KeptAreInWindow(s: seq<int>, start: int, end: int)
    requires AtMost(s, end)
    ensures |KeepAfter(s, start)| == InWindow(s, start, end)
  {
    if s != [] {
      KeptAreInWindow(s[..|s|-1], start, end);
    }
  }

  lemma {:induction false} NarrowerWindow(s: seq<int>, a: int, b: int, c: int, d: int)
    requires c <= a && b <= d
    ensures InWindow(s, a, b) <= InWindow(s, c, d)
  {
    if s != [] {
      NarrowerWindow(s[..|s|-1], a, b, c, d);
    }
  }
}
