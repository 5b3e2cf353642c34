/** The clue-debt tracker: promised-versus-taken per clue, rebuilt from the game
    snapshots a room's ticks happen to observe. */
module ClueMemory {
  import opened Common
  import opened GameRules
  import opened InsertionMap
  import opened Recency

  /** Room codes and game seeds are only ever compared, with each other too. */
  type Room = nat
  type Seed = Room

  datatype Clue = Clue(team: Team, word: string, number: int)

  /** What the tracker reads of a `GameState`. */
  datatype Game = Game(seed: Option<Seed>, mode: Mode, types: seq<Card>, revealed: seq<bool>, currentClue: Option<Clue>)

  datatype ClueEntry = ClueEntry(word: string, number: int, taken: nat, bounced: bool)
  datatype ClueLists = ClueLists(red: seq<ClueEntry>, blue: seq<ClueEntry>) {
    function Of(team: Team): seq<ClueEntry> {
      if team == Red then red else blue
    }

    function With(team: Team, entries: seq<ClueEntry>): ClueLists {
      if team == Red then this.(red := entries) else this.(blue := entries)
    }
  }
  datatype Live = Live(clue: Clue, revealedSnapshot: seq<bool>)
  datatype Tracker = Tracker(gameKey: Seed, live: Option<Live>, clues: ClueLists)

  const MAX_TRACKED_ROOMS: nat := 500
  const MAX_CLUES_PER_TEAM: nat := 64

  function GameKey(room: Room, game: Game): Seed {
    if game.seed.Some? then game.seed.value else room
  }

  function Fresh(gameKey: Seed): Tracker {
    Tracker(gameKey, None, ClueLists([], []))
  }

  /** A card the room has revealed since the clue arrived. */
  predicate Since(game: Game, snapshot: seq<bool>, i: nat) {
    i < |game.revealed| && game.revealed[i] && !(i < |snapshot| && snapshot[i])
  }

  function TakenSet(game: Game, snapshot: seq<bool>, team: Team, upTo: nat): set<nat>
    requires upTo <= |game.revealed| <= |game.types|
  {
    set i: nat | i < upTo && Since(game, snapshot, i) && game.types[i] == Agent(team)
  }

  predicate BouncedBefore(game: Game, snapshot: seq<bool>, team: Team, upTo: nat)
    requires upTo <= |game.revealed| <= |game.types|
  {
    exists i: nat :: i < upTo && Since(game, snapshot, i) && game.types[i] != Agent(team)
  }

  /** Classify every card revealed since the tracked clue arrived. */
  method Classify(game: Game, snapshot: seq<bool>, team: Team) returns (taken: nat, bounced: bool)
    requires |game.revealed| == |game.types|
    ensures taken == |TakenSet(game, snapshot, team, |game.revealed|)|
    ensures bounced == BouncedBefore(game, snapshot, team, |game.revealed|)
  {
    taken, bounced := 0, false;
    for i := 0 to |game.revealed|
      invariant taken == |TakenSet(game, snapshot, team, i)|
      invariant bounced == BouncedBefore(game, snapshot, team, i)
    {
      ghost var before := TakenSet(game, snapshot, team, i);
      ghost var after := TakenSet(game, snapshot, team, i + 1);
      if !game.revealed[i] || (i < |snapshot| && snapshot[i]) {
        assert after == before;
        continue;
      }
      if game.types[i] == Agent(team) {
        assert after == before + {i};
        taken := taken + 1;
      } else {
        assert after == before;
        assert Since(game, snapshot, i);
        bounced := true;
      }
    }
  }

  function Finish(live: Live, game: Game): ClueEntry
    requires |game.revealed| == |game.types|
  {
    var n := |game.revealed|;
    ClueEntry(live.clue.word, live.clue.number,
              |TakenSet(game, live.revealedSnapshot, live.clue.team, n)|,
              BouncedBefore(game, live.revealedSnapshot, live.clue.team, n))
  }

  /** Advance one room's tracker to a snapshot of the game it belongs to. */
  function Advance(t: Tracker, game: Game): (r: Tracker)
    requires |game.revealed| == |game.types|
    ensures r.gameKey == t.gameKey
  {
    if game.mode == Duet then t else
      var ended := t.live.Some? && game.currentClue != Some(t.live.value.clue);
      var t1 := if !ended then t else
        var team := t.live.value.clue.team;
        t.(live := None, clues := t.clues.With(team, LastN(MAX_CLUES_PER_TEAM, t.clues.Of(team) + [Finish(t.live.value, game)])));
      if game.currentClue.Some? && t1.live.None? then t1.(live := Some(Live(game.currentClue.value, game.revealed))) else t1
  }

  type Memory = OrderedMap<Room, Tracker>

  /** The tracker a snapshot is applied to: the stored one if it belongs to this
      game, a fresh one otherwise. */
  function Fetch(m: Memory, room: Room, game: Game): Tracker {
    if m.Has(room) && m.vals[room].gameKey == GameKey(room, game) then m.vals[room] else Fresh(GameKey(room, game))
  }

  /** Where the write puts the room: a continued game deletes and sets, a new game
      only sets, so a room that is already present keeps its old place. */
  function Place(m: Memory, room: Room, game: Game): Memory {
    var t := Fetch(m, room, game);
    var kept := if m.Has(room) && m.vals[room].gameKey == GameKey(room, game) then m.Delete(room) else m;
    kept.Set(room, t).EvictOldest(MAX_TRACKED_ROOMS)
  }

  function Observe(m: Memory, room: Room, game: Game): Memory
    requires |game.revealed| == |game.types|
  {
    var placed := Place(m, room, game);
    if placed.Has(room) then placed.Set(room, Advance(Fetch(m, room, game), game)) else placed
  }

  ghost predicate GoodMemory(m: Memory) {
    m.Valid() && m.Size() <= MAX_TRACKED_ROOMS
  }

  lemma ObserveKeepsMemory(m: Memory, room: Room, game: Game)
    requires GoodMemory(m) && |game.revealed| == |game.types|
    ensures GoodMemory(Observe(m, room, game))
    ensures Observe(m, room, game).Get(room) == Some(Advance(Fetch(m, room, game), game))
    ensures Observe(m, room, game).keys == Step(m.keys, KeyOpOf(m, room, game), MAX_TRACKED_ROOMS)
    ensures forall x :: x != room && Observe(m, room, game).Has(x) ==> Observe(m, room, game).Get(x) == m.Get(x)
  {
    var t := Fetch(m, room, game);
    if m.Has(room) && m.vals[room].gameKey == GameKey(room, game) {
      TouchSpec(m, room, t, MAX_TRACKED_ROOMS);
    } else if m.Has(room) {
      SetValid(m, room, t);
      EvictValid(m.Set(room, t), MAX_TRACKED_ROOMS);
    } else {
      TouchSpec(m, room, t, MAX_TRACKED_ROOMS);
      WithoutNoDup(m.keys, room);
      assert m.Delete(room) == m;
    }
    SetValid(Place(m, room, game), room, Advance(t, game));
  }

  function KeyOpOf(m: Memory, room: Room, game: Game): KeyOp<Room> {
    if m.Has(room) && m.vals[room].gameKey == GameKey(room, game) then Refresh(room) else Put(room)
  }

  /** The module-level map. The tracker handed back is the stored one. */
  class Store {
    var clueMemory: Memory

    constructor ()
      ensures clueMemory == Empty()
    {
      clueMemory := Empty();
    }

    method EvictOldestBeyondCap()
      modifies this
      ensures clueMemory == old(clueMemory).EvictOldest(MAX_TRACKED_ROOMS)
    {
      while clueMemory.Size() > MAX_TRACKED_ROOMS
        invariant clueMemory.EvictOldest(MAX_TRACKED_ROOMS) == old(clueMemory).EvictOldest(MAX_TRACKED_ROOMS)
        decreases clueMemory.Size()
      {
        var oldest := clueMemory.keys[0];
        clueMemory := clueMemory.Delete(oldest);
      }
    }

    method ReconcileClueMemory(room: Room, game: Game) returns (tracker: Tracker)
      requires GoodMemory(clueMemory) && |game.revealed| == |game.types|
      modifies this
      ensures GoodMemory(clueMemory)
      ensures clueMemory == Observe(old(clueMemory), room, game)
      ensures tracker == Advance(Fetch(old(clueMemory), room, game), game)
      ensures clueMemory.Get(room) == Some(tracker)
    {
      ObserveKeepsMemory(clueMemory, room, game);
      PlacedIsHeld(clueMemory, room, game);
      var held := FetchOrPlace(room, game);
      tracker := AdvanceTracker(held, game);
      clueMemory := clueMemory.Set(room, tracker);
    }

    /** The room's tracker, or a fresh one for another game, as the newest entry. */
    method FetchOrPlace(room: Room, game: Game) returns (tracker: Tracker)
      modifies this
      ensures tracker == Fetch(old(clueMemory), room, game) && clueMemory == Place(old(clueMemory), room, game)
    {
      var gameKey := GameKey(room, game);
      if !clueMemory.Has(room) || clueMemory.vals[room].gameKey != gameKey {
        tracker := Fresh(gameKey);
      } else {
        tracker := clueMemory.vals[room];
        clueMemory := clueMemory.Delete(room);
      }
      clueMemory := clueMemory.Set(room, tracker);
      EvictOldestBeyondCap();
    }
  }

  /** A clue that is gone becomes an entry, and a clue that has come becomes live. */
  method AdvanceTracker(before: Tracker, game: Game) returns (tracker: Tracker)
    requires |game.revealed| == |game.types|
    ensures tracker == Advance(before, game)
  {
    tracker := before;
    if game.mode == Duet {
      return;
    }
    var live := game.currentClue;
    if tracker.live.Some? && (live.None? || live.value != tracker.live.value.clue) {
      var ended := tracker.live.value;
      var taken, bounced := Classify(game, ended.revealedSnapshot, ended.clue.team);
      var entries := tracker.clues.Of(ended.clue.team) + [ClueEntry(ended.clue.word, ended.clue.number, taken, bounced)];
      if |entries| > MAX_CLUES_PER_TEAM {
        entries := entries[|entries| - MAX_CLUES_PER_TEAM..];
      }
      tracker := tracker.(clues := tracker.clues.With(ended.clue.team, entries), live := None);
    }
    if live.Some? && tracker.live.None? {
      tracker := tracker.(live := Some(Live(live.value, game.revealed)));
    }
  }

  lemma PlacedIsHeld(m: Memory, room: Room, game: Game)
    requires GoodMemory(m) && |game.revealed| == |game.types|
    ensures Observe(m, room, game) == Place(m, room, game).Set(room, Advance(Fetch(m, room, game), game))
  {
    ObserveKeepsMemory(m, room, game);
  }
}
