/** The botful-room cache: a bounded, recency-ordered, tri-state record of
    whether a room holds a bot. */
module BotRoomCache {
  import opened Common
  import opened InsertionMap
  import opened Recency

  /** A room code. Rooms are only ever compared and used as keys. */
  type Room = nat

  const MAX_TRACKED_ROOMS: nat := 500

  /** One exported call. `noteRoomHasBot` is `Record(room, true)`. */
  datatype Op = Record(room: Room, hasBot: bool) | NoteRemoved(room: Room) | Reset

  function Apply(m: OrderedMap<Room, bool>, op: Op): OrderedMap<Room, bool> {
    match op
    case Record(room, hasBot) => m.Touch(room, hasBot, MAX_TRACKED_ROOMS)
    case NoteRemoved(room) => m.Delete(room)
    case Reset => Empty()
  }

  function Run(h: seq<Op>): OrderedMap<Room, bool> {
    if h == [] then Empty() else Apply(Run(h[..|h|-1]), h[|h|-1])
  }

  function KeyOpOf(op: Op): KeyOp<Room> {
    match op
    case Record(room, _) => Refresh(room)
    case NoteRemoved(room) => Drop(room)
    case Reset => Clear
  }

  function KeyOps(h: seq<Op>): (r: seq<KeyOp<Room>>)
    ensures |r| == |h|
    ensures forall i :: 0 <= i < |h| ==> r[i] == KeyOpOf(h[i])
  {
    seq(|h|, i requires 0 <= i < |h| => KeyOpOf(h[i]))
  }

  /** The value `x` was last recorded with, if nothing has dropped it since. */
  function LastRecorded(h: seq<Op>, x: Room): Option<bool> {
    if h == [] then None else
      match h[|h|-1]
      case Record(room, hasBot) => if room == x then Some(hasBot) else LastRecorded(h[..|h|-1], x)
      case NoteRemoved(room) => if room == x then None else LastRecorded(h[..|h|-1], x)
      case Reset => None
  }

  lemma ApplyFollowsOrder(m: OrderedMap<Room, bool>, op: Op)
    requires m.Valid() && m.Size() <= MAX_TRACKED_ROOMS
    ensures Apply(m, op).Valid() && Apply(m, op).Size() <= MAX_TRACKED_ROOMS
    ensures Apply(m, op).keys == Step(m.keys, KeyOpOf(op), MAX_TRACKED_ROOMS)
    ensures forall x :: Apply(m, op).Has(x) && (op.Reset? || op.room != x) ==> Apply(m, op).Get(x) == m.Get(x)
    ensures op.Record? ==> Apply(m, op).Get(op.room) == Some(op.hasBot)
    ensures op.NoteRemoved? ==> !Apply(m, op).Has(op.room)
  {
    match op
    case Record(room, hasBot) => TouchSpec(m, room, hasBot, MAX_TRACKED_ROOMS);
    case NoteRemoved(room) => DeleteValid(m, room);
    case Reset =>
  }

  /** Whatever is called, the cache keeps within its bound, follows the recency
      order of the calls, and knows a room only by its last recorded value. */
  lemma {:induction false} RunInvariant(h: seq<Op>)
    ensures Run(h).Valid() && Run(h).Size() <= MAX_TRACKED_ROOMS
    ensures Run(h).keys == Keys(KeyOps(h), MAX_TRACKED_ROOMS)
    ensures forall x :: Run(h).Has(x) ==> Run(h).Get(x) == LastRecorded(h, x)
  {
    if h != [] {
      var pre := h[..|h|-1];
      RunInvariant(pre);
      assert KeyOps(h)[..|h|-1] == KeyOps(pre);
      ApplyFollowsOrder(Run(pre), h[|h|-1]);
    }
  }

  /** A room that was just recorded is known by that value: it is never the victim
      of the trim that follows. */
  lemma JustRecordedIsKnown(h: seq<Op>, room: Room, hasBot: bool)
    ensures Run(h + [Record(room, hasBot)]).Get(room) == Some(hasBot)
  {
    RunInvariant(h);
    assert (h + [Record(room, hasBot)])[..|h|] == h;
    TouchSpec(Run(h), room, hasBot, MAX_TRACKED_ROOMS);
  }

  /** If one call makes `x` unknown without naming it, that call recorded another
      room, and 500 distinct other rooms were recorded since `x` last was. */
  lemma ForgottenOnlyAfterFiveHundredOthers(h: seq<Op>, op: Op, x: Room)
    requires Run(h).Has(x) && !Run(h + [op]).Has(x)
    requires op != NoteRemoved(x) && op != Reset
    ensures op.Record? && op.room != x
    ensures |Since(KeyOps(h + [op]), x, MAX_TRACKED_ROOMS)| >= MAX_TRACKED_ROOMS
  {
    RunInvariant(h);
    RunInvariant(h + [op]);
    assert KeyOps(h + [op]) == KeyOps(h) + [KeyOpOf(op)];
    EvictedOnlyAfterCapOthers(KeyOps(h), KeyOpOf(op), x, MAX_TRACKED_ROOMS);
  }

  /** `x` was recorded, not noted removed since, and never had 500 rooms recorded after it
      and still held. */
  ghost predicate StillKnown(h: seq<Op>, x: Room) {
    Recency.Recent(KeyOps(h), x, MAX_TRACKED_ROOMS)
  }

  /** After every run of records, removals and resets a room's tri-state is its last
      recorded answer exactly while it is still known, and unknown otherwise. */
  lemma KnownIffRecentEnough(h: seq<Op>, x: Room)
    ensures Run(h).Get(x) == if StillKnown(h, x) then LastRecorded(h, x) else None
    ensures StillKnown(h, x) ==> LastRecorded(h, x).Some?
  {
    RunInvariant(h);
    HeldIffRecentEnough(KeyOps(h), x, MAX_TRACKED_ROOMS);
    assert Run(h).Has(x) <==> x in Run(h).keys;
  }

  /** The module-level map and its exported calls. */
  class Cache {
    var roomBotful: OrderedMap<Room, bool>

    constructor ()
      ensures roomBotful == Empty()
    {
      roomBotful := Empty();
    }

    method EvictOldest()
      modifies this
      ensures roomBotful == old(roomBotful).EvictOldest(MAX_TRACKED_ROOMS)
    {
      while roomBotful.Size() > MAX_TRACKED_ROOMS
        invariant roomBotful.EvictOldest(MAX_TRACKED_ROOMS) == old(roomBotful).EvictOldest(MAX_TRACKED_ROOMS)
        decreases roomBotful.Size()
      {
        var oldest := roomBotful.keys[0];
        roomBotful := roomBotful.Delete(oldest);
      }
    }

    predicate IsKnownBotless(room: Room)
      reads this
    {
      roomBotful.Get(room) == Some(false)
    }

    predicate IsBotfulnessKnown(room: Room)
      reads this
    {
      roomBotful.Has(room)
    }

    method RecordBotful(room: Room, hasBot: bool)
      modifies this
      ensures roomBotful == Apply(old(roomBotful), Record(room, hasBot))
    {
      roomBotful := roomBotful.Delete(room);
      roomBotful := roomBotful.Set(room, hasBot);
      EvictOldest();
    }

    method NoteRoomHasBot(room: Room)
      modifies this
      ensures roomBotful == Apply(old(roomBotful), Record(room, true))
    {
      RecordBotful(room, true);
    }

    method NoteBotRemoved(room: Room)
      modifies this
      ensures roomBotful == Apply(old(roomBotful), NoteRemoved(room))
    {
      roomBotful := roomBotful.Delete(room);
    }

    method ClearBotRoomCache()
      modifies this
      ensures roomBotful == Apply(old(roomBotful), Reset)
    {
      roomBotful := Empty();
    }
  }
}
