/** How far the botful-room cache can be trusted while bots join, report, leave and
    are noted removed under a running roster read. */
module BotRoster {
  import opened Common
  import opened InsertionMap
  import opened BotRoomCache
  import opened BotDriver

  /** Every bot seated in the room still has its add to report. A room without bots
      qualifies. */
  ghost predicate AllDue(s: State, room: Room) {
    forall seat :: seat in s.bots && seat.room == room ==> seat in s.due
  }

  /** Kept beside a run: the adds that were abandoned; for each roster read that was
      served the adds that reported since; for each room the ones that had when its latest
      bot-less record was written; the reads whose room lost its cache entry since; and the
      rooms whose latest bot-less record such a read wrote. A bot that joins anew starts
      over. */
  datatype Ledger = Ledger(
    abandoned: set<Seat>, missed: set<(TickId, Seat)>, stale: set<Seat>, disturbed: set<TickId>, tainted: set<Room>)

  predicate Drops(s: State, e: Event, room: Room)
    requires Enabled(s, e)
  {
    s.roomBotful.Has(room) && !Effect(s, e).roomBotful.Has(room)
  }

  predicate RecordsBotless(s: State, e: Event) {
    && e.Resume? && e.outcome == Go && e.tick in s.ticks
    && s.ticks[e.tick].phase == ReadRoster(Some(false))
    && !s.roomBotful.Has(s.ticks[e.tick].room)
  }

  /** The tick waits for the answer of a roster read that was served. */
  predicate Waits(ticks: map<TickId, Tick>, t: TickId) {
    t in ticks && ticks[t].phase.ReadRoster? && ticks[t].phase.sampled.Some?
  }

  function NoteMissed(s: State, g: Ledger, e: Event): set<(TickId, Seat)>
    requires Enabled(s, e)
  {
    match e
    case ServeRoster(tick) => set m | m in g.missed && m.0 != tick
    case BotReported(seat) => g.missed + set t | t in s.ticks && Waits(s.ticks, t) && s.ticks[t].room == seat.room :: (t, seat)
    case BotJoined(seat) => set m | m in g.missed && m.1 != seat
    case _ => g.missed
  }

  function NoteStale(s: State, g: Ledger, e: Event): set<Seat>
    requires Enabled(s, e)
  {
    if RecordsBotless(s, e) then
      (set seat | seat in g.stale && seat.room != s.ticks[e.tick].room)
      + (set m | m in g.missed && m.0 == e.tick && m.1.room == s.ticks[e.tick].room :: m.1)
    else if e.BotJoined? then g.stale - {e.seat}
    else g.stale
  }

  function NoteDisturbed(s: State, g: Ledger, e: Event): set<TickId>
    requires Enabled(s, e)
  {
    (if e.ServeRoster? then g.disturbed - {e.tick} else g.disturbed)
    + (set t | t in s.ticks && Waits(s.ticks, t) && Drops(s, e, s.ticks[t].room))
  }

  function NoteTainted(s: State, g: Ledger, e: Event): set<Room>
    requires Enabled(s, e)
  {
    if !RecordsBotless(s, e) then g.tainted
    else if e.tick in g.disturbed then g.tainted + {s.ticks[e.tick].room}
    else g.tainted - {s.ticks[e.tick].room}
  }

  function Note(s: State, g: Ledger, e: Event): Ledger
    requires Enabled(s, e)
  {
    Ledger(
      if e.AddAbandoned? then g.abandoned + {e.seat} else if e.BotJoined? then g.abandoned - {e.seat} else g.abandoned,
      NoteMissed(s, g, e), NoteStale(s, g, e), NoteDisturbed(s, g, e), NoteTainted(s, g, e))
  }

  function LedgerAfter(s: State, es: seq<Event>): Ledger
    requires CanRun(s, es)
  {
    if es == [] then Ledger({}, {}, {}, {}, {}) else
      Note(After(s, es[..|es|-1]), LedgerAfter(s, es[..|es|-1]), es[|es|-1])
  }

  /** A bot that sits without a report to come, for one of the two reasons there are. */
  predicate Stranded(s: State, g: Ledger, seat: Seat) {
    seat in s.bots && (seat in g.abandoned || seat in g.stale)
  }

  /** Abandoned and late-reported adds are no longer due; in a room known bot-less the
      seated bots that are not due are exactly the stranded ones. */
  ghost predicate RecordsTrue(s: State, g: Ledger) {
    && (forall seat :: seat in g.abandoned || seat in g.stale ==> seat !in s.due)
    && (forall seat :: seat in s.bots && KnownBotless(s, seat.room) && seat !in s.due ==> Stranded(s, g, seat))
  }

  /** While the answer of an empty roster is out, the seated bots that are not due were
      abandoned or have reported since. */
  ghost predicate ReadsTrue(s: State, g: Ledger) {
    && (forall m :: m in g.missed ==> m.1 !in s.due)
    && (forall t, seat: Seat ::
          (t in s.ticks && s.ticks[t] == Tick(seat.room, ReadRoster(Some(false))) && seat in s.bots && seat !in s.due)
          ==> seat in g.abandoned || (t, seat) in g.missed)
  }

  /** A report makes its room known until the entry is lost. */
  ghost predicate LossesNoted(s: State, g: Ledger) {
    && (forall m ::
          (m in g.missed && Waits(s.ticks, m.0) && m.1.room == s.ticks[m.0].room && m.0 !in g.disturbed)
          ==> s.roomBotful.Has(m.1.room))
    && (forall seat :: seat in g.stale ==> seat.room in g.tainted)
  }

  /** What a step does to the cache entry of a room, other than dropping it. */
  lemma EntryChanges(s: State, e: Event, room: Room)
    requires Inv(s) && Enabled(s, e) && Effect(s, e).roomBotful.Has(room)
    ensures var v := Effect(s, e).roomBotful.Get(room);
            || v == s.roomBotful.Get(room)
            || (v == Some(true) && e.BotReported? && e.seat.room == room)
            || (e.Resume? && e.outcome == Go && !s.roomBotful.Has(room) && s.ticks[e.tick].room == room
                && s.ticks[e.tick].phase == ReadRoster(v))
  {
    CacheEffect(s, e);
    if e.BotReported? {
      TouchSpec(s.roomBotful, e.seat.room, true, MAX_TRACKED_ROOMS);
    } else if e.Resume? && s.ticks[e.tick].phase.ReadRoster? && s.ticks[e.tick].phase.sampled.Some? {
      TouchSpec(s.roomBotful, s.ticks[e.tick].room, s.ticks[e.tick].phase.sampled.value, MAX_TRACKED_ROOMS);
    }
  }

  lemma FinishCache(s: State, tick: TickId, failed: bool)
    requires tick in s.ticks
    ensures var t := Finish(s, tick, failed);
            t.roomBotful == s.roomBotful && t.bots == s.bots && t.due == s.due && t.ticks == s.ticks - {tick}
  {
  }

  lemma LoopHeadCache(s: State, tick: TickId, i: nat)
    requires tick in s.ticks
    ensures var t := LoopHead(s, tick, i);
            && t.roomBotful == s.roomBotful && t.bots == s.bots && t.due == s.due
            && t.ticks in {s.ticks - {tick}, s.ticks[tick := Tick(s.ticks[tick].room, ReadGame(i))]}
  {
    FinishCache(s, tick, false);
  }

  ghost predicate NoNewReads(before: map<TickId, Tick>, after: map<TickId, Tick>) {
    forall t :: t in after && after[t].phase.ReadRoster? && after[t].phase.sampled.Some? ==>
      t in before && before[t] == after[t]
  }

  /** A resumed tick changes the cache only by its re-check, and no longer waits for
      a roster read. */
  lemma ResumeCache(s: State, tick: TickId, outcome: Outcome)
    requires tick in s.ticks
    ensures var t, phase := ResumeTick(s, tick, outcome), s.ticks[tick].phase;
            && t.roomBotful == (if outcome == Go && phase.ReadRoster? then Recheck(s, s.ticks[tick].room, phase.sampled) else s).roomBotful
            && t.bots == s.bots && t.due == s.due && NoNewReads(s.ticks, t.ticks)
  {
    var room, phase := s.ticks[tick].room, s.ticks[tick].phase;
    FinishCache(s, tick, outcome == Throw);
    if phase.ReadRoster? {
      LoopHeadCache(Recheck(s, room, phase.sampled), tick, 0);
    } else if phase.ApplyAction? {
      LoopHeadCache(ClearReArm(s, room), tick, phase.i + 1);
    }
  }

  lemma EnterCache(s: State, room: Room)
    ensures var t := EnterTick(s, room);
            && t.roomBotful == s.roomBotful && t.bots == s.bots && t.due == s.due
            && NoNewReads(s.ticks, t.ticks)
  {
    LoopHeadCache(StartTick(s, room), s.nextTick, 0);
  }

  lemma CacheEffect(s: State, e: Event)
    requires Enabled(s, e)
    ensures var t := Effect(s, e);
            t.roomBotful == match e
              case BotReported(seat) => s.roomBotful.Touch(seat.room, true, MAX_TRACKED_ROOMS)
              case BotRemovalNoted(room) => s.roomBotful.Delete(room)
              case Resume(tick, outcome) =>
                if outcome == Go && s.ticks[tick].phase.ReadRoster?
                then Recheck(s, s.ticks[tick].room, s.ticks[tick].phase.sampled).roomBotful else s.roomBotful
              case _ => s.roomBotful
  {
    match e
    case Resume(tick, outcome) => ResumeCache(s, tick, outcome);
    case RunMicrotask(room) => EnterCache(s.(queue := s.queue - multiset{room}), room);
    case FireTimer(timer) =>
      var room := s.timers[timer].room;
      EnterCache(s.(timers := s.timers - {timer}, reArmTimers := s.reArmTimers - {room}), room);
    case _ =>
  }

  lemma SeatsEffect(s: State, e: Event)
    requires Enabled(s, e)
    ensures var t := Effect(s, e);
            && t.due == (match e
                 case BotJoined(seat) => s.due + {seat}
                 case BotReported(seat) => s.due - {seat}
                 case BotRolledBack(seat) => s.due - {seat}
                 case AddAbandoned(seat) => s.due - {seat}
                 case _ => s.due)
            && t.bots == match e
                 case BotJoined(seat) => s.bots + {seat}
                 case BotRolledBack(seat) => s.bots - {seat}
                 case BotLeft(seat) => s.bots - {seat}
                 case _ => s.bots
  {
    match e
    case Resume(tick, outcome) => ResumeCache(s, tick, outcome);
    case RunMicrotask(room) => EnterCache(s.(queue := s.queue - multiset{room}), room);
    case FireTimer(timer) =>
      var room := s.timers[timer].room;
      EnterCache(s.(timers := s.timers - {timer}, reArmTimers := s.reArmTimers - {room}), room);
    case _ =>
  }

  /** The roster reads a step leaves waiting were waiting before it, except for one
      it has just served. */
  lemma WaitingReads(s: State, e: Event, t: TickId)
    requires Enabled(s, e)
    requires Waits(Effect(s, e).ticks, t)
    ensures t in s.ticks && s.ticks[t].room == Effect(s, e).ticks[t].room
    ensures s.ticks[t] == Effect(s, e).ticks[t]
            || (e == ServeRoster(t) && Effect(s, e).ticks[t].phase == ReadRoster(Some(HasBot(s, s.ticks[t].room))))
  {
    match e
    case Resume(tick, outcome) => ResumeCache(s, tick, outcome);
    case RunMicrotask(room) => EnterCache(s.(queue := s.queue - multiset{room}), room);
    case FireTimer(timer) =>
      var room := s.timers[timer].room;
      EnterCache(s.(timers := s.timers - {timer}, reArmTimers := s.reArmTimers - {room}), room);
    case _ =>
  }

  lemma KnownByARead(s: State, e: Event, room: Room)
    requires Inv(s) && Enabled(s, e) && KnownBotless(Effect(s, e), room)
    ensures KnownBotless(s, room) || (RecordsBotless(s, e) && s.ticks[e.tick].room == room)
    ensures !(e.BotReported? && e.seat.room == room)
  {
    EntryChanges(s, e, room);
    if e.BotReported? {
      TouchSpec(s.roomBotful, e.seat.room, true, MAX_TRACKED_ROOMS);
    }
  }

  lemma KeepsRecordsTrue(s: State, g: Ledger, e: Event)
    requires Inv(s) && Enabled(s, e) && RecordsTrue(s, g) && ReadsTrue(s, g)
    ensures RecordsTrue(Effect(s, e), Note(s, g, e))
  {
    var t, n := Effect(s, e), Note(s, g, e);
    SeatsEffect(s, e);
    forall seat | seat in n.abandoned || seat in n.stale ensures seat !in t.due {
      if seat in n.stale && seat !in g.stale {
        assert (e.tick, seat) in g.missed;
      }
    }
    forall seat | seat in t.bots && KnownBotless(t, seat.room) && seat !in t.due ensures Stranded(t, n, seat) {
      KnownByARead(s, e, seat.room);
      if RecordsBotless(s, e) && s.ticks[e.tick].room == seat.room {
        assert seat in g.abandoned || (e.tick, seat) in g.missed;
      }
    }
  }

  lemma KeepsReadsTrue(s: State, g: Ledger, e: Event)
    requires Inv(s) && Enabled(s, e) && ReadsTrue(s, g)
    ensures ReadsTrue(Effect(s, e), Note(s, g, e))
  {
    var s', n := Effect(s, e), Note(s, g, e);
    SeatsEffect(s, e);
    forall t, seat: Seat | t in s'.ticks && s'.ticks[t] == Tick(seat.room, ReadRoster(Some(false))) && seat in s'.bots
      && seat !in s'.due ensures seat in n.abandoned || (t, seat) in n.missed
    {
      WaitingReads(s, e, t);
      if e == ServeRoster(t) {
        assert HasBot(s, seat.room);
      }
    }
  }

  lemma KeepsLossesNoted(s: State, g: Ledger, e: Event)
    requires Inv(s) && Enabled(s, e) && LossesNoted(s, g)
    ensures LossesNoted(Effect(s, e), Note(s, g, e))
  {
    var s', n := Effect(s, e), Note(s, g, e);
    forall m | m in n.missed && Waits(s'.ticks, m.0) && m.1.room == s'.ticks[m.0].room && m.0 !in n.disturbed
      ensures s'.roomBotful.Has(m.1.room)
    {
      WaitingReads(s, e, m.0);
      if e.BotReported? {
        TouchSpec(s.roomBotful, e.seat.room, true, MAX_TRACKED_ROOMS);
      }
      assert m in g.missed ==> !Drops(s, e, m.1.room);
    }
  }

  /** In every run a room known bot-less seats a bot without a report to come exactly when
      it seats one that is stranded: whose add was abandoned, or whose report came while
      the answer that the record is from was out. The second takes the loss of the room's
      cache entry in that time. */
  lemma {:induction false} BotlessRecordsAreTrueIff(s: State, es: seq<Event>, room: Room)
    requires Initial(s) && CanRun(s, es)
    ensures var t, g := After(s, es), LedgerAfter(s, es);
            && RecordsTrue(t, g) && ReadsTrue(t, g) && LossesNoted(t, g)
            && (KnownBotless(t, room) ==> (AllDue(t, room) <==> forall seat :: Stranded(t, g, seat) ==> seat.room != room))
  {
    if es != [] {
      var pre, e := es[..|es|-1], es[|es|-1];
      EveryRunKeepsTheProtocol(s, pre);
      BotlessRecordsAreTrueIff(s, pre, room);
      KeepsRecordsTrue(After(s, pre), LedgerAfter(s, pre), e);
      KeepsReadsTrue(After(s, pre), LedgerAfter(s, pre), e);
      KeepsLossesNoted(After(s, pre), LedgerAfter(s, pre), e);
    }
    BotlessIff(After(s, es), LedgerAfter(s, es), room);
  }

  lemma BotlessIff(t: State, g: Ledger, room: Room)
    requires RecordsTrue(t, g)
    ensures KnownBotless(t, room) ==> (AllDue(t, room) <==> forall seat :: Stranded(t, g, seat) ==> seat.room != room)
  {
  }

  /** So while no add is abandoned and no read loses its room's entry, a room known bot-less
      seats no bot without a report to come. */
  lemma BotlessRecordsAreTrue(s: State, es: seq<Event>, room: Room)
    requires Initial(s) && CanRun(s, es)
    requires KnownBotless(After(s, es), room) && room !in LedgerAfter(s, es).tainted
    requires forall seat :: seat in LedgerAfter(s, es).abandoned ==> seat.room != room || seat !in After(s, es).bots
    ensures AllDue(After(s, es), room)
  {
    BotlessRecordsAreTrueIff(s, es, room);
  }

  /** A roster read never overwrites an add that reported itself meanwhile. */
  lemma ReportedAddIsNotOverwritten(s: State, tick: TickId, outcome: Outcome)
    requires Inv(s) && Enabled(s, Resume(tick, outcome)) && s.roomBotful.Has(s.ticks[tick].room)
    ensures Effect(s, Resume(tick, outcome)).roomBotful == s.roomBotful
  {
    ResumeCache(s, tick, outcome);
  }

  // ---- The window the re-check does not close ----

  lemma Next(s: State, es: seq<Event>, e: Event)
    requires CanRun(s, es) && Enabled(After(s, es), e)
    ensures CanRun(s, es + [e]) && After(s, es + [e]) == Effect(After(s, es), e)
  {
    assert (es + [e])[..|es|] == es;
  }

  lemma BotsComeAndGo(s: State, es: seq<Event>, tick: TickId, stays: Seat, leaves: Seat) returns (fs: seq<Event>)
    requires CanRun(s, es) && stays.room == leaves.room && stays != leaves
    requires var t := After(s, es); stays !in t.bots && stays !in t.due && leaves !in t.bots && leaves !in t.due
    ensures es <= fs && CanRun(s, fs)
    ensures var t, u := After(s, es), After(s, fs);
            u.ticks == t.ticks && !u.roomBotful.Has(stays.room) && stays in u.bots && stays !in u.due
  {
    Next(s, es, BotJoined(stays));
    fs := es + [BotJoined(stays)];
    Next(s, fs, BotReported(stays));
    fs := fs + [BotReported(stays)];
    Next(s, fs, BotJoined(leaves));
    fs := fs + [BotJoined(leaves)];
    Next(s, fs, BotReported(leaves));
    fs := fs + [BotReported(leaves)];
    Next(s, fs, BotLeft(leaves));
    fs := fs + [BotLeft(leaves)];
    Next(s, fs, BotRemovalNoted(stays.room));
    fs := fs + [BotRemovalNoted(stays.room)];
  }

  /** Every reachable state with the answer of an empty roster out can go wrong: two bots
      join and report, one leaves and its removal is noted, which forgets the report of the
      other; then the stale answer arrives, and the bot that stayed sits in a room known
      bot-less. */
  lemma StaleReadAfterARemoval(s: State, es: seq<Event>, tick: TickId, stays: Seat, leaves: Seat) returns (fs: seq<Event>)
    requires Initial(s) && CanRun(s, es)
    requires tick in After(s, es).ticks && After(s, es).ticks[tick] == Tick(stays.room, ReadRoster(Some(false)))
    requires stays.room == leaves.room && stays != leaves
    requires var t := After(s, es); stays !in t.bots && stays !in t.due && leaves !in t.bots && leaves !in t.due
    ensures es <= fs && CanRun(s, fs)
    ensures KnownBotless(After(s, fs), stays.room) && stays in After(s, fs).bots && stays !in After(s, fs).due
  {
    fs := BotsComeAndGo(s, es, tick, stays, leaves);
    EveryRunKeepsTheProtocol(s, fs);
    AnswerTheRead(After(s, fs), tick, stays.room);
    Next(s, fs, Resume(tick, Go));
    fs := fs + [Resume(tick, Go)];
  }

  lemma AnswerTheRead(s: State, tick: TickId, room: Room)
    requires Inv(s) && tick in s.ticks && s.ticks[tick] == Tick(room, ReadRoster(Some(false))) && !s.roomBotful.Has(room)
    ensures var t := ResumeTick(s, tick, Go);
            KnownBotless(t, room) && t.bots == s.bots && t.due == s.due
  {
    TouchSpec(s.roomBotful, room, false, MAX_TRACKED_ROOMS);
    ResumeCache(s, tick, Go);
  }

  /** From every reachable state in which a room is known bot-less: a bot joins, its add
      fails, and so does its rollback. The bot sits there, and the room stays skipped. */
  lemma AbandonedAddIsStranded(s: State, es: seq<Event>, seat: Seat)
    requires Initial(s) && CanRun(s, es)
    requires KnownBotless(After(s, es), seat.room) && seat !in After(s, es).bots && seat !in After(s, es).due
    ensures var fs := es + [BotJoined(seat), AddAbandoned(seat)];
            CanRun(s, fs) && KnownBotless(After(s, fs), seat.room) && seat in After(s, fs).bots && seat !in After(s, fs).due
  {
    Next(s, es, BotJoined(seat));
    Next(s, es + [BotJoined(seat)], AddAbandoned(seat));
    assert es + [BotJoined(seat)] + [AddAbandoned(seat)] == es + [BotJoined(seat), AddAbandoned(seat)];
  }

  // ---- What being known bot-less means for a room ----

  /** No add of the room reports and its entry is not lost. */
  ghost predicate LeftAlone(s: State, es: seq<Event>, room: Room)
    requires CanRun(s, es)
  {
    es == [] ||
    (var pre, e := es[..|es|-1], es[|es|-1];
     LeftAlone(s, pre, room) && !(e.BotReported? && e.seat.room == room) && !Drops(After(s, pre), e, room))
  }

  /** Until then no tick of the room starts, whatever notifications and timers come: its
      bots are never driven. */
  lemma {:induction false} BotlessRoomIsSkipped(s: State, es: seq<Event>, room: Room)
    requires Inv(s) && CanRun(s, es) && KnownBotless(s, room) && room !in s.inFlight && LeftAlone(s, es, room)
    ensures var t := After(s, es);
            KnownBotless(t, room) && room !in t.inFlight && Inv(t) && forall k :: k in t.ticks ==> t.ticks[k].room != room
  {
    if es != [] {
      var pre, e := es[..|es|-1], es[|es|-1];
      BotlessRoomIsSkipped(s, pre, room);
      EffectKeeps(After(s, pre), e);
      EntryChanges(After(s, pre), e, room);
      StaysOut(After(s, pre), e, room);
    }
  }

  lemma StaysOut(s: State, e: Event, room: Room)
    requires Inv(s) && Enabled(s, e) && KnownBotless(s, room) && room !in s.inFlight
    ensures room !in Effect(s, e).inFlight
  {
    match e
    case RunMicrotask(other) => EnterStaysOut(s.(queue := s.queue - multiset{other}), other, room);
    case FireTimer(timer) =>
      var other := s.timers[timer].room;
      EnterStaysOut(s.(timers := s.timers - {timer}, reArmTimers := s.reArmTimers - {other}), other, room);
    case Resume(tick, outcome) => ResumeStaysOut(s, tick, outcome, room);
    case _ =>
  }

  lemma FinishStaysOut(s: State, tick: TickId, failed: bool, room: Room)
    requires tick in s.ticks && room !in s.inFlight
    ensures room !in Finish(s, tick, failed).inFlight
  {
  }

  lemma EnterStaysOut(s: State, other: Room, room: Room)
    requires KnownBotless(s, room) && room !in s.inFlight
    ensures room !in EnterTick(s, other).inFlight
  {
    if other != room {
      FinishStaysOut(StartTick(s, other), s.nextTick, false, room);
    }
  }

  lemma ResumeStaysOut(s: State, tick: TickId, outcome: Outcome, room: Room)
    requires tick in s.ticks && room !in s.inFlight
    ensures room !in ResumeTick(s, tick, outcome).inFlight
  {
    var phase := s.ticks[tick].phase;
    FinishStaysOut(s, tick, outcome == Throw, room);
    if phase.ReadRoster? {
      FinishStaysOut(Recheck(s, s.ticks[tick].room, phase.sampled), tick, false, room);
    } else if phase.ApplyAction? {
      FinishStaysOut(ClearReArm(s, s.ticks[tick].room), tick, false, room);
    }
  }
}
