/** What the clue-debt tracker remembers, stated over the whole sequence of
    snapshots of one game instead of snapshot by snapshot. */
module ClueHistory {
  import opened Common
  import opened GameRules
  import opened Recency
  import opened ClueMemory

  /** Snapshots of one classic or match game: one key card, and a revealed card
      stays revealed. */
  ghost predicate GameRun(h: seq<Game>) {
    && (forall i :: 0 <= i < |h| ==> h[i].mode != Duet && |h[i].revealed| == |h[i].types|)
    && (forall i, j :: 0 <= i <= j < |h| ==> h[i].types == h[j].types && Grows(h[i].revealed, h[j].revealed))
  }

  ghost predicate Grows(a: seq<bool>, b: seq<bool>) {
    |a| <= |b| && forall k :: 0 <= k < |a| && a[k] ==> b[k]
  }

  function TrackerAfter(gameKey: Seed, h: seq<Game>): (r: Tracker)
    requires forall i :: 0 <= i < |h| ==> |h[i].revealed| == |h[i].types|
    ensures r.gameKey == gameKey
  {
    if h == [] then Fresh(gameKey) else Advance(TrackerAfter(gameKey, h[..|h|-1]), h[|h|-1])
  }

  /** The snapshots from `start` up to but not including `end` show one clue. */
  datatype Span = Span(start: nat, end: nat)

  /** A clue that came and went: it is shown from `start` on, was not shown just
      before, and is gone at `end`. */
  ghost predicate Finished(h: seq<Game>, sp: Span) {
    && sp.start < sp.end < |h|
    && h[sp.start].currentClue.Some?
    && (forall k :: sp.start <= k < sp.end ==> h[k].currentClue == h[sp.start].currentClue)
    && (sp.start == 0 || h[sp.start - 1].currentClue != h[sp.start].currentClue)
    && h[sp.end].currentClue != h[sp.start].currentClue
  }

  function BlockStart(h: seq<Game>, k: nat): (r: nat)
    requires k < |h|
    ensures r <= k
    ensures forall i :: r <= i <= k ==> h[i].currentClue == h[k].currentClue
    ensures r == 0 || h[r - 1].currentClue != h[k].currentClue
  {
    if k == 0 || h[k - 1].currentClue != h[k].currentClue then k else BlockStart(h, k - 1)
  }

  /** The span a new last snapshot finishes, if it finishes one. */
  ghost predicate Ends(h: seq<Game>) {
    |h| > 1 && h[|h| - 2].currentClue.Some? && h[|h| - 1].currentClue != h[|h| - 2].currentClue
  }

  function LastBlock(h: seq<Game>): (sp: Span)
    requires |h| > 1
    ensures sp.start < sp.end == |h| - 1
    ensures h[sp.start].currentClue == h[|h| - 2].currentClue
  {
    Span(BlockStart(h[..|h|-1], |h| - 2), |h| - 1)
  }

  /** The finished clues in the order they finished. */
  ghost function Spans(h: seq<Game>): seq<Span> {
    if |h| <= 1 then [] else Spans(h[..|h|-1]) + if Ends(h) then [LastBlock(h)] else []
  }

  lemma FinishedStep(h: seq<Game>, sp: Span)
    requires |h| > 1
    ensures Finished(h, sp) <==> Finished(h[..|h|-1], sp) || (Ends(h) && sp == LastBlock(h))
  {
    if Finished(h, sp) && sp.end == |h| - 1 {
      OneStart(h[..|h|-1], |h| - 2, sp.start);
    }
  }

  lemma {:induction false} SpansEndByBlock(h: seq<Game>, i: nat)
    requires i < |Spans(h)|
    ensures |h| > 0 && Spans(h)[i].end <= BlockStart(h, |h| - 1)
  {
    var pre := h[..|h|-1];
    BlockStartPrefix(h);
    if i < |Spans(pre)| {
      SpansEndByBlock(pre, i);
    }
  }

  /** `Spans` lists exactly the finished clues. */
  lemma {:induction false} SpansAreTheFinishedClues(h: seq<Game>, sp: Span)
    ensures sp in Spans(h) <==> Finished(h, sp)
  {
    if |h| > 1 {
      SpansAreTheFinishedClues(h[..|h|-1], sp);
      FinishedStep(h, sp);
    }
  }

  /** One finished clue is over before the next one in the list is shown. */
  lemma {:induction false} SpansAreInOrder(h: seq<Game>, i: nat, j: nat)
    requires i < j < |Spans(h)|
    ensures Spans(h)[i].end <= Spans(h)[j].start
  {
    var pre := h[..|h|-1];
    if j < |Spans(pre)| {
      SpansAreInOrder(pre, i, j);
    } else {
      SpansEndByBlock(pre, i);
    }
  }

  lemma {:induction false} OneStart(h: seq<Game>, k: nat, s: nat)
    requires s <= k < |h|
    requires forall i :: s <= i <= k ==> h[i].currentClue == h[s].currentClue
    requires s == 0 || h[s - 1].currentClue != h[s].currentClue
    ensures BlockStart(h, k) == s
  {
    if s < k {
      OneStart(h, k - 1, s);
    }
  }

  lemma BlockStartPrefix(h: seq<Game>)
    requires |h| > 1
    ensures var last := |h| - 1;
            BlockStart(h, last) == if h[last].currentClue == h[last - 1].currentClue then BlockStart(h[..last], last - 1) else last
  {
    var last := |h| - 1;
    if h[last].currentClue == h[last - 1].currentClue {
      OneStart(h, last, BlockStart(h[..last], last - 1));
    }
  }

  /** The cards turned over between two boards. */
  ghost function Turned(before: seq<bool>, after: seq<bool>): set<nat>
  {
    set i: nat | i < |after| && after[i] && !(i < |before| && before[i])
  }

  ghost function Own(types: seq<Card>, cards: set<nat>, team: Team): set<nat>
  {
    set i | i in cards && i < |types| && types[i] == Agent(team)
  }

  /** The cards attributed to a finished clue: those turned over between the first
      snapshot that shows it and the first that no longer does. */
  ghost function Attributed(h: seq<Game>, sp: Span): set<nat>
    requires sp.start < sp.end < |h|
  {
    Turned(h[sp.start].revealed, h[sp.end].revealed)
  }

  ghost predicate ShowsClue(h: seq<Game>, sp: Span) {
    sp.start < sp.end < |h| && h[sp.start].currentClue.Some?
  }

  ghost function EntryOf(h: seq<Game>, sp: Span): ClueEntry
    requires ShowsClue(h, sp)
  {
    var clue := h[sp.start].currentClue.value;
    var cards := Attributed(h, sp);
    var own := Own(h[sp.start].types, cards, clue.team);
    ClueEntry(clue.word, clue.number, |own|, own < cards)
  }

  /** The entries of one team's finished clues, none left out. */
  ghost function Entries(h: seq<Game>, spans: seq<Span>, team: Team): seq<ClueEntry>
    requires forall i :: 0 <= i < |spans| ==> ShowsClue(h, spans[i])
  {
    if spans == [] then [] else
      var sp := spans[|spans| - 1];
      assert ShowsClue(h, sp);
      Entries(h, spans[..|spans| - 1], team)
      + if h[sp.start].currentClue.value.team == team then [EntryOf(h, sp)] else []
  }

  ghost function AllEntries(h: seq<Game>, team: Team): seq<ClueEntry>
  {
    SpansShowClues(h);
    Entries(h, Spans(h), team)
  }

  lemma SpansShowClues(h: seq<Game>)
    ensures forall i :: 0 <= i < |Spans(h)| ==> ShowsClue(h, Spans(h)[i])
  {
    forall i | 0 <= i < |Spans(h)| ensures ShowsClue(h, Spans(h)[i]) {
      SpansAreTheFinishedClues(h, Spans(h)[i]);
    }
  }

  lemma {:induction false} EntriesPrefix(h: seq<Game>, pre: seq<Game>, spans: seq<Span>, team: Team)
    requires pre <= h
    requires forall i :: 0 <= i < |spans| ==> ShowsClue(pre, spans[i]) && ShowsClue(h, spans[i])
    ensures Entries(h, spans, team) == Entries(pre, spans, team)
  {
    if spans != [] {
      EntriesPrefix(h, pre, spans[..|spans| - 1], team);
    }
  }

  lemma AllEntriesStep(h: seq<Game>, team: Team)
    requires |h| > 1
    ensures AllEntries(h, team) == AllEntries(h[..|h|-1], team) +
            if Ends(h) && h[LastBlock(h).start].currentClue.value.team == team then [EntryOf(h, LastBlock(h))] else []
  {
    var pre := h[..|h|-1];
    SpansShowClues(h);
    SpansShowClues(pre);
    forall i | 0 <= i < |Spans(pre)| ensures ShowsClue(h, Spans(pre)[i]) {
      assert Spans(h)[i] == Spans(pre)[i];
    }
    EntriesPrefix(h, pre, Spans(pre), team);
    if Ends(h) {
      assert Spans(h) == Spans(pre) + [LastBlock(h)];
      assert Spans(h)[..|Spans(h)| - 1] == Spans(pre);
    } else {
      assert Spans(h) == Spans(pre);
    }
  }

  ghost function LiveAtEnd(h: seq<Game>): Option<Live> {
    if h == [] || h[|h| - 1].currentClue.None? then None
    else Some(Live(h[|h| - 1].currentClue.value, h[BlockStart(h, |h| - 1)].revealed))
  }

  lemma FinishIsEntryOf(h: seq<Game>, sp: Span)
    requires GameRun(h) && ShowsClue(h, sp)
    ensures Finish(Live(h[sp.start].currentClue.value, h[sp.start].revealed), h[sp.end]) == EntryOf(h, sp)
  {
    var team := h[sp.start].currentClue.value.team;
    var game, snapshot, n := h[sp.end], h[sp.start].revealed, |h[sp.end].revealed|;
    var cards := Attributed(h, sp);
    assert game.types == h[sp.start].types;
    assert forall i: nat :: i in cards <==> i < n && ClueMemory.Since(game, snapshot, i);
    assert TakenSet(game, snapshot, team, n) == Own(game.types, cards, team);
    if BouncedBefore(game, snapshot, team, n) {
      var i: nat :| i < n && ClueMemory.Since(game, snapshot, i) && game.types[i] != Agent(team);
      assert i in cards && i !in Own(game.types, cards, team);
    }
  }

  lemma AdvanceStep(h: seq<Game>, t: Tracker)
    requires |h| > 1 && h[|h| - 1].mode != Duet && |h[|h| - 1].revealed| == |h[|h| - 1].types|
    requires t.live == LiveAtEnd(h[..|h|-1])
    ensures Advance(t, h[|h| - 1]) == Tracker(t.gameKey, LiveAtEnd(h),
              if !Ends(h) then t.clues else
                var team := t.live.value.clue.team;
                t.clues.With(team, LastN(MAX_CLUES_PER_TEAM, t.clues.Of(team) + [Finish(t.live.value, h[|h| - 1])])))
  {
    BlockStartPrefix(h);
  }

  /** One more snapshot adds the same entry to the kept list as to the full one. */
  lemma ListStep(h: seq<Game>, t: Tracker, team: Team)
    requires GameRun(h) && |h| > 1 && t.live == LiveAtEnd(h[..|h|-1])
    requires t.clues.Of(team) == LastN(MAX_CLUES_PER_TEAM, AllEntries(h[..|h|-1], team))
    ensures Advance(t, h[|h| - 1]).clues.Of(team) == LastN(MAX_CLUES_PER_TEAM, AllEntries(h, team))
  {
    AdvanceStep(h, t);
    AllEntriesStep(h, team);
    if Ends(h) {
      FinishIsEntryOf(h, LastBlock(h));
      LastNAppend(MAX_CLUES_PER_TEAM, AllEntries(h[..|h|-1], team), EntryOf(h, LastBlock(h)));
    }
  }

  /** After any snapshots of one game, the tracker is the specification over the
      whole history: the clue being guessed with the board as it stood when that
      clue was first seen, and per team the last 64 finished clues with what each
      took. */
  lemma {:induction false} TrackerIsItsHistory(gameKey: Seed, h: seq<Game>)
    requires GameRun(h)
    ensures TrackerAfter(gameKey, h).live == LiveAtEnd(h)
    ensures forall team :: TrackerAfter(gameKey, h).clues.Of(team) == LastN(MAX_CLUES_PER_TEAM, AllEntries(h, team))
  {
    if |h| > 1 {
      var t := TrackerAfter(gameKey, h[..|h|-1]);
      TrackerIsItsHistory(gameKey, h[..|h|-1]);
      AdvanceStep(h, t);
      forall team ensures TrackerAfter(gameKey, h).clues.Of(team) == LastN(MAX_CLUES_PER_TEAM, AllEntries(h, team)) {
        ListStep(h, t, team);
      }
    } else if |h| == 1 {
      assert TrackerAfter(gameKey, h[..0]) == Fresh(gameKey);
    }
  }

  /** No card is attributed to two finished clues. */
  lemma AttributionsAreDisjoint(h: seq<Game>, a: Span, b: Span)
    requires GameRun(h) && Finished(h, a) && Finished(h, b) && a != b
    ensures Attributed(h, a) !! Attributed(h, b)
  {
  }

  function TotalTaken(entries: seq<ClueEntry>): nat {
    if entries == [] then 0 else TotalTaken(entries[..|entries|-1]) + entries[|entries|-1].taken
  }

  lemma TotalTakenAppend(entries: seq<ClueEntry>, e: ClueEntry)
    ensures TotalTaken(entries + [e]) == TotalTaken(entries) + e.taken
  {
    assert (entries + [e])[..|entries|] == entries;
  }

  ghost function RevealedOwn(game: Game, team: Team): set<nat>
  {
    Own(game.types, (set i: nat | i < |game.revealed| && game.revealed[i]), team)
  }

  lemma RevealedOwnGrows(a: Game, b: Game, team: Team)
    requires a.types == b.types && Grows(a.revealed, b.revealed)
    ensures |RevealedOwn(b, team)| == |RevealedOwn(a, team)| + |Own(a.types, Turned(a.revealed, b.revealed), team)|
  {
    var own := Own(a.types, Turned(a.revealed, b.revealed), team);
    assert RevealedOwn(b, team) == RevealedOwn(a, team) + own;
    assert RevealedOwn(a, team) !! own;
  }

  lemma TakenStep(h: seq<Game>, team: Team)
    requires |h| > 1
    ensures var sp := LastBlock(h);
            TotalTaken(AllEntries(h, team)) <= TotalTaken(AllEntries(h[..|h|-1], team)) +
              if Ends(h) then |Own(h[sp.start].types, Attributed(h, sp), team)| else 0
  {
    AllEntriesStep(h, team);
    var sp, before := LastBlock(h), AllEntries(h[..|h|-1], team);
    if Ends(h) && h[sp.start].currentClue.value.team == team {
      TotalTakenAppend(before, EntryOf(h, sp));
      assert EntryOf(h, sp).taken == |Own(h[sp.start].types, Attributed(h, sp), team)|;
    } else {
      assert AllEntries(h, team) == before;
    }
  }

  lemma BlockStep(h: seq<Game>, team: Team)
    requires |h| > 1
    requires var pre := h[..|h|-1];
             TotalTaken(AllEntries(pre, team)) <= |RevealedOwn(pre[BlockStart(pre, |pre| - 1)], team)|
    requires var sp := LastBlock(h);
             h[sp.start].types == h[sp.end].types && Grows(h[sp.start].revealed, h[sp.end].revealed)
    ensures TotalTaken(AllEntries(h, team)) <= |RevealedOwn(h[BlockStart(h, |h| - 1)], team)|
  {
    var sp := LastBlock(h);
    TakenStep(h, team);
    BlockStartPrefix(h);
    RevealedOwnGrows(h[sp.start], h[sp.end], team);
  }

  lemma {:induction false} TakenUpToBlock(h: seq<Game>, team: Team)
    requires GameRun(h) && |h| > 0
    ensures TotalTaken(AllEntries(h, team)) <= |RevealedOwn(h[BlockStart(h, |h| - 1)], team)|
  {
    if |h| == 1 {
      assert AllEntries(h, team) == [];
    } else {
      TakenUpToBlock(h[..|h|-1], team);
      BlockStep(h, team);
    }
  }

  /** Over the whole game a team is never credited with more cards than it has
      revealed. */
  lemma TakenNeverExceedsRevealed(h: seq<Game>, team: Team)
    requires GameRun(h) && |h| > 0
    ensures TotalTaken(AllEntries(h, team)) <= |RevealedOwn(h[|h| - 1], team)|
  {
    TakenUpToBlock(h, team);
    var s, last := BlockStart(h, |h| - 1), |h| - 1;
    assert Grows(h[s].revealed, h[last].revealed);
    SubsetSize(RevealedOwn(h[s], team), RevealedOwn(h[last], team));
  }
}
