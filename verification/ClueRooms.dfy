/** Every room's tracker in one bounded map: which trackers survive a run of
    observations, and what a surviving tracker holds. */
module ClueRooms {
  import opened Common
  import opened GameRules
  import opened InsertionMap
  import opened Recency
  import opened ClueMemory
  import opened ClueHistory

  /** A tick observes a snapshot of a room, or drops the room's memory because its
      game is gone or over. */
  datatype Call = Observed(room: Room, game: Game) | Forgotten(room: Room)

  ghost predicate BoardsMatch(calls: seq<Call>) {
    forall i :: 0 <= i < |calls| && calls[i].Observed? ==> |calls[i].game.revealed| == |calls[i].game.types|
  }

  function RunAll(calls: seq<Call>): Memory
    requires BoardsMatch(calls)
  {
    if calls == [] then Empty() else
      match calls[|calls|-1]
      case Observed(room, game) => Observe(RunAll(calls[..|calls|-1]), room, game)
      case Forgotten(room) => RunAll(calls[..|calls|-1]).Delete(room)
  }

  function KeyOps(calls: seq<Call>): (r: seq<KeyOp<Room>>)
    requires BoardsMatch(calls)
    ensures |r| == |calls|
  {
    if calls == [] then [] else
      var pre := calls[..|calls|-1];
      KeyOps(pre) + [match calls[|calls|-1]
                     case Observed(room, game) => KeyOpOf(RunAll(pre), room, game)
                     case Forgotten(room) => Drop(room)]
  }

  lemma {:induction false} RunAllInvariant(calls: seq<Call>)
    requires BoardsMatch(calls)
    ensures GoodMemory(RunAll(calls))
    ensures RunAll(calls).keys == Keys(KeyOps(calls), MAX_TRACKED_ROOMS)
  {
    if calls != [] {
      var pre := calls[..|calls|-1];
      RunAllInvariant(pre);
      assert KeyOps(calls)[..|calls|-1] == KeyOps(pre);
      match calls[|calls|-1]
      case Observed(room, game) => ObserveKeepsMemory(RunAll(pre), room, game);
      case Forgotten(room) => DeleteValid(RunAll(pre), room);
    }
  }

  /** A room leaves the map without being forgotten only through an observation of
      another room, after 500 distinct others were observed since it was last
      inserted or last continued its game. Starting a new game does not count. */
  lemma TrackerLostOnlyAfterFiveHundredOthers(calls: seq<Call>, call: Call, x: Room)
    requires BoardsMatch(calls + [call])
    requires BoardsMatch(calls)
    requires RunAll(calls).Has(x) && !RunAll(calls + [call]).Has(x) && call != Forgotten(x)
    ensures call.Observed? && call.room != x
    ensures |Recency.Since(KeyOps(calls + [call]), x, MAX_TRACKED_ROOMS)| >= MAX_TRACKED_ROOMS
  {
    RunAllInvariant(calls);
    RunAllInvariant(calls + [call]);
    assert (calls + [call])[..|calls|] == calls;
    var op := KeyOps(calls + [call])[|calls|];
    assert KeyOps(calls + [call]) == KeyOps(calls) + [op];
    EvictedOnlyAfterCapOthers(KeyOps(calls), op, x, MAX_TRACKED_ROOMS);
  }

  /** Exactly: a room has a tracker if and only if it was observed, not forgotten since, and
      never had 500 rooms in line behind it. */
  lemma TrackedIffRecentEnough(calls: seq<Call>, x: Room)
    requires BoardsMatch(calls)
    ensures RunAll(calls).Has(x) <==> Recent(KeyOps(calls), x, MAX_TRACKED_ROOMS)
  {
    RunAllInvariant(calls);
    HeldIffRecentEnough(KeyOps(calls), x, MAX_TRACKED_ROOMS);
  }

  /** The snapshots of the game a room is in, as far as its ticks observed them. */
  function CurrentGame(calls: seq<Call>, x: Room): (r: seq<Game>)
    requires BoardsMatch(calls)
    ensures forall i :: 0 <= i < |r| ==> |r[i].revealed| == |r[i].types|
  {
    if calls == [] then [] else
      var before := CurrentGame(calls[..|calls|-1], x);
      match calls[|calls|-1]
      case Observed(room, game) =>
        if room != x then before
        else if before != [] && GameKey(x, before[|before|-1]) == GameKey(x, game) then before + [game]
        else [game]
      case Forgotten(room) => if room == x then [] else before
  }

  /** No eviction has cost the room its tracker. */
  ghost predicate NeverEvicted(calls: seq<Call>, x: Room)
    requires BoardsMatch(calls)
  {
    forall n :: 0 <= n <= |calls| && CurrentGame(calls[..n], x) != [] ==> RunAll(calls[..n]).Has(x)
  }

  /** The room holds the tracker of its own current game, or none before one. */
  ghost predicate HoldsItsTracker(calls: seq<Call>, x: Room)
    requires BoardsMatch(calls)
  {
    var h := CurrentGame(calls, x);
    RunAll(calls).Get(x) == if h == [] then None else Some(TrackerAfter(GameKey(x, h[|h|-1]), h))
  }

  lemma OwnObservation(calls: seq<Call>, x: Room, game: Game)
    requires BoardsMatch(calls) && |game.revealed| == |game.types|
    requires HoldsItsTracker(calls, x)
    ensures BoardsMatch(calls + [Observed(x, game)])
    ensures HoldsItsTracker(calls + [Observed(x, game)], x)
  {
    var next := calls + [Observed(x, game)];
    assert next[..|calls|] == calls;
    var m, h := RunAll(calls), CurrentGame(calls, x);
    RunAllInvariant(calls);
    ObserveKeepsMemory(m, x, game);
    var key := GameKey(x, game);
    if h != [] && GameKey(x, h[|h|-1]) == key {
      assert Fetch(m, x, game) == TrackerAfter(key, h);
      assert (h + [game])[..|h|] == h;
    } else {
      assert Fetch(m, x, game) == Fresh(key);
      assert [game][..0] == [];
      assert TrackerAfter(key, [game]) == Advance(TrackerAfter(key, []), game);
    }
  }

  lemma OtherCall(calls: seq<Call>, call: Call, x: Room)
    requires BoardsMatch(calls) && BoardsMatch(calls + [call])
    requires HoldsItsTracker(calls, x) && call.room != x
    requires CurrentGame(calls + [call], x) != [] ==> RunAll(calls + [call]).Has(x)
    ensures HoldsItsTracker(calls + [call], x)
  {
    assert (calls + [call])[..|calls|] == calls;
    RunAllInvariant(calls);
    if call.Observed? {
      assert |call.game.revealed| == |call.game.types| by {
        assert (calls + [call])[|calls|] == call;
      }
      ObserveKeepsMemory(RunAll(calls), call.room, call.game);
    }
  }

  /** Whatever other rooms do in between, a room that is not evicted holds the
      tracker of its own current game. */
  lemma {:induction false} TrackerFollowsItsRoom(calls: seq<Call>, x: Room)
    requires BoardsMatch(calls) && NeverEvicted(calls, x)
    ensures HoldsItsTracker(calls, x)
  {
    if calls == [] { return; }
    var pre, call := calls[..|calls|-1], calls[|calls|-1];
    forall n | 0 <= n <= |pre| ensures pre[..n] == calls[..n] {}
    TrackerFollowsItsRoom(pre, x);
    assert calls == pre + [call] && calls[..|calls|] == calls;
    if call.room != x {
      OtherCall(pre, call, x);
    } else if call.Observed? {
      OwnObservation(pre, x, call.game);
    }
  }

  /** Two snapshots of a room in a row with different seeds are of different games: the
      second starts the room's tracker afresh, under its own seed and with no finished clue.
      With the same seed, or none, the tracker goes on. */
  lemma NewSeedStartsAfresh(calls: seq<Call>, room: Room, a: Game, b: Game)
    requires BoardsMatch(calls) && |a.revealed| == |a.types| && |b.revealed| == |b.types|
    ensures var pre := calls + [Observed(room, a)];
            var next := pre + [Observed(room, b)];
            && BoardsMatch(pre) && BoardsMatch(next)
            && RunAll(pre).Has(room) && RunAll(next).Has(room)
            && var before, after := RunAll(pre).vals[room], RunAll(next).vals[room];
               && (a.seed.Some? && b.seed.Some? && a.seed != b.seed ==>
                     && after.gameKey == b.seed.value && after.clues == ClueLists([], [])
                     && after.live == (if b.mode == Duet || b.currentClue.None? then None
                                      else Some(Live(b.currentClue.value, b.revealed))))
               && (a.seed == b.seed ==> after == Advance(before, b))
  {
    Snoc(calls, room, a);
    Snoc(calls + [Observed(room, a)], room, b);
    RunAllInvariant(calls);
    ObserveKeepsMemory(RunAll(calls), room, a);
    ObserveKeepsMemory(RunAll(calls + [Observed(room, a)]), room, b);
  }

  // ---- Which observations refresh ----

  /** An observation leaves its room last in line exactly when the room was absent, goes on
      with the game it was in, or stood last anyway. Starting a new game moves nothing. */
  lemma RefreshesIff(m: Memory, room: Room, game: Game)
    requires GoodMemory(m) && |game.revealed| == |game.types|
    ensures var keys := Observe(m, room, game).keys;
            && keys != []
            && (keys[|keys|-1] == room <==>
                !m.Has(room) || m.vals[room].gameKey == GameKey(room, game) || m.keys[|m.keys|-1] == room)
            && (m.Has(room) && m.vals[room].gameKey != GameKey(room, game) ==> keys == m.keys)
  {
    ObserveKeepsMemory(m, room, game);
    TrimSnoc(m.keys, room, MAX_TRACKED_ROOMS);
  }

  lemma ObserveNewRoom(m: Memory, room: Room, game: Game)
    requires GoodMemory(m) && |game.revealed| == |game.types| && room !in m.keys
    ensures Observe(m, room, game).keys == (if m.Size() < MAX_TRACKED_ROOMS then m.keys else m.keys[1..]) + [room]
  {
    ObserveKeepsMemory(m, room, game);
    TrimSnoc(m.keys, room, MAX_TRACKED_ROOMS);
  }

  lemma Snoc(calls: seq<Call>, room: Room, game: Game)
    requires BoardsMatch(calls) && |game.revealed| == |game.types|
    ensures BoardsMatch(calls + [Observed(room, game)])
    ensures RunAll(calls + [Observed(room, game)]) == Observe(RunAll(calls), room, game)
  {
    assert (calls + [Observed(room, game)])[..|calls|] == calls;
  }

  /** So the order is not least-recently-observed: in any run with the map full, let the
      room in front start a new game and be observed. The next observation of another room
      evicts it exactly when that room is new. */
  lemma NewGameDoesNotRefresh(calls: seq<Call>, room: Room, game: Game, x: Room, other: Game)
    requires BoardsMatch(calls) && |game.revealed| == |game.types| && |other.revealed| == |other.types| && x != room
    requires var m := RunAll(calls); m.Size() == MAX_TRACKED_ROOMS && m.keys[0] == room
    requires var t := RunAll(calls).Get(room); t.Some? && t.value.gameKey != GameKey(room, game)
    ensures var started := calls + [Observed(room, game)];
            var next := started + [Observed(x, other)];
            && BoardsMatch(started) && BoardsMatch(next)
            && RunAll(started).Get(room) == Some(Advance(Fresh(GameKey(room, game)), game))
            && (RunAll(next).Has(room) <==> RunAll(calls).Has(x))
  {
    var m, started := RunAll(calls), calls + [Observed(room, game)];
    RunAllInvariant(calls);
    Snoc(calls, room, game);
    ObserveKeepsMemory(m, room, game);
    RefreshesIff(m, room, game);
    Snoc(started, x, other);
    ObserveKeepsMemory(RunAll(started), x, other);
    if m.Has(x) {
      KeepsTheFront(RunAll(started), room, x, other);
    } else {
      ObserveNewRoom(RunAll(started), x, other);
      assert room !in m.keys[1..];
    }
  }

  lemma KeepsTheFront(m: Memory, room: Room, x: Room, other: Game)
    requires GoodMemory(m) && |other.revealed| == |other.types| && m.Has(room) && m.Has(x) && x != room
    ensures Observe(m, x, other).Has(room)
  {
    ObserveKeepsMemory(m, x, other);
    if m.vals[x].gameKey == GameKey(x, other) {
      WithoutNoDup(m.keys, x);
      TrimSnoc(Without(m.keys, x), x, MAX_TRACKED_ROOMS);
    }
  }

  const FIRST: Game := Game(Some(1), Classic, [], [], None)

  function Rooms(n: nat): (r: seq<Call>)
    ensures |r| == n && BoardsMatch(r)
  {
    seq(n, i requires 0 <= i < n => Observed(i, FIRST))
  }

  /** Such runs exist: observing 500 rooms fills the map, the first one in front. */
  lemma {:induction false} RoomsInOrder(n: nat)
    requires n <= MAX_TRACKED_ROOMS
    ensures var keys := RunAll(Rooms(n)).keys; |keys| == n && forall i :: 0 <= i < n ==> keys[i] == i
  {
    if n > 0 {
      RoomsInOrder(n - 1);
      assert Rooms(n) == Rooms(n - 1) + [Observed(n - 1, FIRST)];
      Snoc(Rooms(n - 1), n - 1, FIRST);
      RunAllInvariant(Rooms(n - 1));
      ObserveNewRoom(RunAll(Rooms(n - 1)), n - 1, FIRST);
    }
  }
}
