/** When a tick ends, what its end leaves behind, and what a room's failure streak
    counts. */
module BotStreaks {
  import opened Common
  import opened BotRoomCache
  import opened BotDriver
  import opened BotWakeups
  import opened BotBackoff

  // ---- When a tick ends ----

  /** A resumed tick goes on exactly until an await asks it to stop or throws, its room
      turns out bot-less, or its 200 actions are done. */
  lemma TickEndsIff(s: State, tick: TickId, outcome: Outcome)
    requires Inv(s) && Enabled(s, Resume(tick, outcome))
    ensures var phase, t := s.ticks[tick].phase, Effect(s, Resume(tick, outcome));
            tick !in t.ticks <==>
              || outcome != Go
              || (phase.ReadRoster? && KnownBotless(t, s.ticks[tick].room))
              || (phase.ApplyAction? && (phase.i == 199 || KnownBotless(s, s.ticks[tick].room)))
  {
    var room, phase := s.ticks[tick].room, s.ticks[tick].phase;
    ResumeTicks(s, tick, outcome);
    if outcome == Go && phase.ReadRoster? {
      FinishTicks(Recheck(s, room, phase.sampled), tick, false);
    }
  }

  /** The step ends a tick of the room without a failure. */
  predicate EndsCleanly(s: State, e: Event, room: Room)
    requires Enabled(s, e)
  {
    e.Resume? && e.outcome != Throw && s.ticks[e.tick].room == room && e.tick !in Effect(s, e).ticks
  }

  /** The step completes an action of the room's tick. */
  predicate Progresses(s: State, e: Event, room: Room) {
    e.Resume? && CompletesAction(s, e, e.tick) && s.ticks[e.tick].room == room
  }

  /** The room has nothing left to retry: no timer of its own can fire, and its next
      failure is a first one. */
  ghost predicate Settled(s: State, room: Room) {
    && Streak(s, room) == 0 && room !in s.reArmTimers
    && forall id :: id in s.timers ==> s.timers[id].room != room
  }

  lemma NoTimerLeft(s: State, room: Room)
    requires Inv(s) && room !in s.reArmTimers && Streak(s, room) == 0
    ensures Settled(s, room)
  {
  }

  lemma ClearedIsSettled(s: State, room: Room)
    requires Inv(s)
    ensures Settled(ClearReArm(s, room), room)
  {
    ClearReArmKeeps(s, room);
  }

  lemma FinishedCleanly(s: State, tick: TickId)
    requires Inv(s) && tick in s.ticks
    ensures var room, t := s.ticks[tick].room, Finish(s, tick, false);
            && room !in t.inFlight && room !in t.pending
            && if room in s.pending then
                 t.queue == s.queue + multiset{room} && t.failureStreak == s.failureStreak && t.timers == s.timers
               else Settled(t, room) && t.queue == s.queue
  {
    var room := s.ticks[tick].room;
    ReleaseKeeps(s, tick);
    if room !in s.pending {
      ClearedIsSettled(s.(inFlight := s.inFlight - {room}, ticks := s.ticks - {tick}), room);
    }
  }

  /** A tick that ends without a failure leaves its room settled, unless a notification
      came meanwhile: then the room is queued again and keeps its streak and timer. */
  lemma CleanEndSettles(s: State, e: Event, room: Room)
    requires Inv(s) && Enabled(s, e) && EndsCleanly(s, e, room)
    ensures var t := Effect(s, e);
            && room !in t.inFlight && room !in t.pending
            && (room !in s.pending ==> Settled(t, room))
            && (room in s.pending ==> room in t.queue)
            && (room in s.pending && !Progresses(s, e, room) ==> Streak(t, room) == Streak(s, room) && t.timers == s.timers)
  {
    var phase := s.ticks[e.tick].phase;
    TickEndsIff(s, e.tick, e.outcome);
    if e.outcome == Stop {
      FinishedCleanly(s, e.tick);
    } else if phase.ReadRoster? {
      RosterEndSettles(s, e.tick, phase.sampled);
    } else {
      ActionEndSettles(s, e.tick);
    }
  }

  lemma RosterEndSettles(s: State, tick: TickId, sampled: Option<bool>)
    requires Inv(s) && tick in s.ticks
    ensures var room, t := s.ticks[tick].room, Finish(Recheck(s, s.ticks[tick].room, sampled), tick, false);
            && room !in t.inFlight && room !in t.pending
            && if room in s.pending then
                 t.queue == s.queue + multiset{room} && t.failureStreak == s.failureStreak && t.timers == s.timers
               else Settled(t, room)
  {
    RecheckKeeps(s, s.ticks[tick].room, sampled);
    FinishedCleanly(Recheck(s, s.ticks[tick].room, sampled), tick);
  }

  lemma ActionEndSettles(s: State, tick: TickId)
    requires Inv(s) && tick in s.ticks
    ensures var room, t := s.ticks[tick].room, Finish(ClearReArm(s, s.ticks[tick].room), tick, false);
            && room !in t.inFlight && room !in t.pending && Settled(t, room)
            && (room in s.pending ==> t.queue == s.queue + multiset{room})
  {
    var room := s.ticks[tick].room;
    ClearReArmKeeps(s, room);
    ClearedIsSettled(s, room);
    FinishedCleanly(ClearReArm(s, room), tick);
  }

  /** So does every completed action, whether its tick goes on or ends there. */
  lemma ProgressSettles(s: State, e: Event, room: Room)
    requires Inv(s) && Enabled(s, e) && Progresses(s, e, room)
    ensures Settled(Effect(s, e), room)
  {
    var cleared := ClearReArm(s, room);
    ClearReArmKeeps(s, room);
    ClearedIsSettled(s, room);
    FinishedCleanly(cleared, e.tick);
  }

  // ---- What the streak counts ----

  /** A failed tick that no notification supersedes. */
  predicate FailsAlone(s: State, e: Event, room: Room)
    requires Enabled(s, e)
  {
    e.Resume? && e.outcome == Throw && s.ticks[e.tick].room == room && room !in s.pending
  }

  predicate StartsOver(s: State, e: Event, room: Room)
    requires Enabled(s, e)
  {
    Progresses(s, e, room) || (EndsCleanly(s, e, room) && room !in s.pending) || EvictsStreak(s, e, room)
  }

  /** One step of the count: a seventh failure gives up and starts over. */
  function Counted(count: nat, fails: bool, over: bool): nat {
    if over then 0 else if !fails then count else if count == 6 then 0 else count + 1
  }

  /** The failed ticks of a room since it last started over, counted from the events. */
  function FailuresInARow(s: State, es: seq<Event>, room: Room): nat
    requires CanRun(s, es)
  {
    if es == [] then 0 else
      var pre, e := After(s, es[..|es|-1]), es[|es|-1];
      Counted(FailuresInARow(s, es[..|es|-1], room), FailsAlone(pre, e, room), StartsOver(pre, e, room))
  }

  lemma FailureCounts(s: State, e: Event, room: Room)
    requires Inv(s) && Enabled(s, e) && FailsAlone(s, e, room)
    ensures !StartsOver(s, e, room)
    ensures var t := Effect(s, e);
            && Streak(t, room) == (if Streak(s, room) == 6 then 0 else Streak(s, room) + 1)
            && t.giveUps[room] == s.giveUps[room] + (if Streak(s, room) == 6 then 1 else 0)
            && (Streak(s, room) == 6 ==> room !in t.reArmTimers)
            && (Streak(s, room) < 6 ==> room in t.reArmTimers && t.reArmTimers[room] in t.timers)
            && (Streak(s, room) < 6 && room !in s.reArmTimers ==>
                  t.timers[t.reArmTimers[room]] == Timer(room, Delay(Streak(s, room) + 1)))
  {
    FailedTickIsNotStranded(s, e.tick);
  }

  /** A tick that goes on, or ends superseded, leaves the streak as it was. */
  lemma OwnStepKeepsStreak(s: State, e: Event, room: Room)
    requires Inv(s) && Enabled(s, e) && e.Resume? && s.ticks[e.tick].room == room
    requires !FailsAlone(s, e, room) && !StartsOver(s, e, room)
    ensures Streak(Effect(s, e), room) == Streak(s, room) && Effect(s, e).giveUps == s.giveUps
  {
    TickEndsIff(s, e.tick, e.outcome);
    if e.outcome == Throw {
      FailedTickIsNotStranded(s, e.tick);
    }
  }

  lemma OtherStepKeepsStreak(s: State, e: Event, room: Room)
    requires Inv(s) && Enabled(s, e) && !EvictsStreak(s, e, room)
    requires e.Resume? ==> s.ticks[e.tick].room != room
    ensures Streak(Effect(s, e), room) == Streak(s, room) && Effect(s, e).giveUps[room] <= s.giveUps[room]
  {
    if Subject(s, e) != Some(room) {
      OtherRoomsDoNotInterfere(s, e, room);
    }
  }

  lemma StreakStep(s: State, e: Event, room: Room)
    requires Inv(s) && Enabled(s, e)
    ensures Streak(Effect(s, e), room) == Counted(Streak(s, room), FailsAlone(s, e, room), StartsOver(s, e, room))
    ensures Effect(s, e).giveUps[room] > s.giveUps[room] <==> FailsAlone(s, e, room) && Streak(s, room) == 6
  {
    if FailsAlone(s, e, room) {
      FailureCounts(s, e, room);
    } else if EvictsStreak(s, e, room) {
      EvictedStreak(s, e, room);
    } else if e.Resume? && s.ticks[e.tick].room == room {
      OwnResumeStreak(s, e, room);
    } else {
      OtherStepKeepsStreak(s, e, room);
    }
  }

  lemma OwnResumeStreak(s: State, e: Event, room: Room)
    requires Inv(s) && Enabled(s, e) && e.Resume? && s.ticks[e.tick].room == room && !FailsAlone(s, e, room)
    ensures Streak(Effect(s, e), room) == if StartsOver(s, e, room) then 0 else Streak(s, room)
    ensures Effect(s, e).giveUps == s.giveUps
  {
    if Progresses(s, e, room) {
      ProgressSettles(s, e, room);
    } else if EndsCleanly(s, e, room) {
      CleanEndSettles(s, e, room);
    } else {
      OwnStepKeepsStreak(s, e, room);
    }
  }

  lemma EnterGivesUpNothing(s: State, room: Room)
    ensures EnterTick(s, room).giveUps == s.giveUps
  {
  }

  lemma FinishGivesUpItsOwn(s: State, tick: TickId, failed: bool, room: Room)
    requires tick in s.ticks && s.ticks[tick].room != room
    ensures Finish(s, tick, failed).giveUps[room] == s.giveUps[room]
  {
  }

  lemma OthersGiveUpTheirOwn(s: State, e: Event, room: Room)
    requires Enabled(s, e) && Subject(s, e) != Some(room)
    ensures Effect(s, e).giveUps[room] == s.giveUps[room]
  {
    match e
    case RunMicrotask(other) => EnterGivesUpNothing(s.(queue := s.queue - multiset{other}), other);
    case FireTimer(timer) =>
      var other := s.timers[timer].room;
      EnterGivesUpNothing(s.(timers := s.timers - {timer}, reArmTimers := s.reArmTimers - {other}), other);
    case Resume(tick, outcome) =>
      var phase := s.ticks[tick].phase;
      FinishGivesUpItsOwn(s, tick, outcome == Throw, room);
      if phase.ReadRoster? {
        FinishGivesUpItsOwn(Recheck(s, s.ticks[tick].room, phase.sampled), tick, false, room);
      } else if phase.ApplyAction? {
        FinishGivesUpItsOwn(ClearReArm(s, s.ticks[tick].room), tick, false, room);
      }
    case _ =>
  }

  lemma EvictedStreak(s: State, e: Event, room: Room)
    requires Inv(s) && Enabled(s, e) && EvictsStreak(s, e, room)
    ensures Streak(Effect(s, e), room) == 0 && Effect(s, e).giveUps[room] <= s.giveUps[room]
  {
    OthersGiveUpTheirOwn(s, e, room);
  }

  /** In every run a room's streak is the number of its failed ticks in a row: since its
      last completed action, clean end, give-up or eviction. The failure that finds six
      before it is the one that gives up. */
  lemma {:induction false} StreakIsFailuresInARow(s: State, es: seq<Event>, room: Room)
    requires Initial(s) && CanRun(s, es)
    ensures Streak(After(s, es), room) == FailuresInARow(s, es, room) <= 6
    ensures es != [] ==>
              var pre := After(s, es[..|es|-1]);
              After(s, es).giveUps[room] > pre.giveUps[room] <==>
                FailsAlone(pre, es[|es|-1], room) && FailuresInARow(s, es[..|es|-1], room) == 6
  {
    if es != [] {
      var pre, e := es[..|es|-1], es[|es|-1];
      EveryRunKeepsTheProtocol(s, pre);
      StreakIsFailuresInARow(s, pre, room);
      StreakStep(After(s, pre), e, room);
    }
  }
}
