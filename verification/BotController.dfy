/** The controller's own code between awaits, as it changes the module variables,
    proved against the step protocol. */
module BotController {
  import opened Common
  import opened InsertionMap
  import opened BotRoomCache
  import opened BotDriver

  lemma EndOfTick(s: State, tick: TickId, failed: bool)
    requires tick in s.ticks
    ensures var room, t := s.ticks[tick].room, Finish(s, tick, failed);
            && tick !in t.ticks && room !in t.inFlight && room !in t.pending
            && (room in s.pending ==> room in t.queue && t.failureStreak == s.failureStreak && t.timers == s.timers)
            && (room !in s.pending && !failed ==> !t.failureStreak.Has(room) && room !in t.reArmTimers)
  {
  }

  class Controller {
    const cache: Cache
    var inFlight: set<Room>
    var pending: set<Room>
    var failureStreak: OrderedMap<Room, nat>
    var reArmTimers: map<Room, TimerId>

    // What the runtime keeps on the controller's behalf.
    var queue: multiset<Room>
    var ticks: map<TickId, Tick>
    var timers: map<TimerId, Timer>
    var giveUps: multiset<Room>
    var nextTick: TickId
    var nextTimer: TimerId

    ghost var bots: set<Seat>
    ghost var due: set<Seat>

    ghost function Abstract(): State
      reads this, cache
    {
      State(cache.roomBotful, inFlight, pending, failureStreak, reArmTimers, queue, ticks, timers,
            giveUps, nextTick, nextTimer, bots, due)
    }

    constructor (cache: Cache, ghost seated: set<Seat>)
      requires cache.roomBotful == Empty()
      ensures this.cache == cache && Initial(Abstract()) && bots == seated
    {
      this.cache := cache;
      inFlight, pending, failureStreak, reArmTimers := {}, {}, Empty(), map[];
      queue, ticks, timers, giveUps, nextTick, nextTimer := multiset{}, map[], map[], multiset{}, 0, 0;
      bots, due := seated, {};
    }

    /** The notifier's subscription defers the tick to a microtask. */
    method OnGameMutation(room: Room)
      modifies this
      ensures Abstract() == Effect(old(Abstract()), Notify(room))
    {
      queue := queue + multiset{room};
    }

    method ClearReArm(room: Room)
      modifies this
      ensures Abstract() == BotDriver.ClearReArm(old(Abstract()), room)
    {
      failureStreak := failureStreak.Delete(room);
      if room in reArmTimers {
        timers := timers - {reArmTimers[room]};
        reArmTimers := reArmTimers - {room};
      }
    }

    method EvictOldestBeyondCap()
      modifies this
      ensures Abstract() == old(Abstract()).(failureStreak := old(failureStreak).EvictOldest(MAX_TRACKED_ROOMS))
    {
      while failureStreak.Size() > MAX_TRACKED_ROOMS
        invariant Abstract() == old(Abstract()).(failureStreak := failureStreak)
        invariant failureStreak.EvictOldest(MAX_TRACKED_ROOMS) == old(failureStreak).EvictOldest(MAX_TRACKED_ROOMS)
        decreases failureStreak.Size()
      {
        var oldest := failureStreak.keys[0];
        failureStreak := failureStreak.Delete(oldest);
      }
    }

    method ScheduleReArm(room: Room)
      modifies this
      ensures Abstract() == BotDriver.ScheduleReArm(old(Abstract()), room)
    {
      var streak := CountFailure(room);
      if streak > MAX_REARM_ATTEMPTS {
        ClearReArm(room);
        giveUps := giveUps + multiset{room};
        return;
      }
      if room in reArmTimers {
        return;
      }
      var delay := REARM_BASE_DELAY_MS * Pow2(streak - 1);
      if delay > REARM_MAX_DELAY_MS {
        delay := REARM_MAX_DELAY_MS;
      }
      SetTimeout(room, delay);
    }

    /** One more failure in a row, as the newest entry of the bounded map. */
    method CountFailure(room: Room) returns (streak: nat)
      modifies this
      ensures streak == Streak(old(Abstract()), room) + 1
      ensures Abstract() == old(Abstract()).(failureStreak := old(failureStreak).Touch(room, streak, MAX_TRACKED_ROOMS))
    {
      streak := (if failureStreak.Has(room) then failureStreak.vals[room] else 0) + 1;
      failureStreak := failureStreak.Delete(room);
      failureStreak := failureStreak.Set(room, streak);
      EvictOldestBeyondCap();
    }

    method SetTimeout(room: Room, delay: nat)
      modifies this
      ensures Abstract() == Arm(old(Abstract()), room, delay)
    {
      var timer := nextTimer;
      timers, nextTimer := timers[timer := Timer(room, delay)], nextTimer + 1;
      reArmTimers := reArmTimers[room := timer];
    }

    /** From the `finally` block to the end of the tick function. */
    method FinishTick(tick: TickId, actionFailed: bool)
      requires tick in ticks
      modifies this
      ensures Abstract() == Finish(old(Abstract()), tick, actionFailed)
      ensures var room := old(ticks[tick].room);
              && tick !in ticks && room !in inFlight && room !in pending
              && (room in old(pending) ==> room in queue && failureStreak == old(failureStreak) && timers == old(timers))
              && (room !in old(pending) && !actionFailed ==> !failureStreak.Has(room) && room !in reArmTimers)
    {
      var room := ticks[tick].room;
      EndOfTick(Abstract(), tick, actionFailed);
      inFlight := inFlight - {room};
      ticks := ticks - {tick};
      if room in pending {
        pending := pending - {room};
        queue := queue + multiset{room};
        return;
      }
      if actionFailed {
        ScheduleReArm(room);
      } else {
        ClearReArm(room);
      }
    }

    /** The action loop's test, and the first await of its body. */
    method LoopHead(tick: TickId, i: nat)
      requires tick in ticks
      modifies this
      ensures Abstract() == BotDriver.LoopHead(old(Abstract()), tick, i)
    {
      if !cache.IsKnownBotless(ticks[tick].room) && i < MAX_ACTIONS_PER_TICK {
        ticks := ticks[tick := ticks[tick].(phase := ReadGame(i))];
      } else {
        FinishTick(tick, false);
      }
    }

    /** A call of the tick function, up to its first await. */
    method TickRoom(room: Room)
      modifies this
      ensures Abstract() == EnterTick(old(Abstract()), room)
    {
      if cache.IsKnownBotless(room) {
        return;
      }
      if room in inFlight {
        pending := pending + {room};
        return;
      }
      inFlight := inFlight + {room};
      pending := pending - {room};
      var tick := nextTick;
      ticks, nextTick := ticks[tick := Tick(room, ReadRoster(None))], nextTick + 1;
      if cache.IsBotfulnessKnown(room) {
        LoopHead(tick, 0);
      }
    }

    method RunQueued(room: Room)
      requires room in queue
      modifies this
      ensures Abstract() == Effect(old(Abstract()), RunMicrotask(room))
    {
      queue := queue - multiset{room};
      TickRoom(room);
    }

    /** The callback of a re-arm timer. */
    method OnTimer(timer: TimerId)
      requires timer in timers
      modifies this
      ensures Abstract() == Effect(old(Abstract()), FireTimer(timer))
    {
      var room := timers[timer].room;
      timers := timers - {timer};
      reArmTimers := reArmTimers - {room};
      TickRoom(room);
    }

    /** After `await roomHasBot(room)`. */
    method AfterRoster(tick: TickId, hasBot: bool)
      requires tick in ticks && ticks[tick].phase == ReadRoster(Some(hasBot))
      modifies this, cache
      ensures Abstract() == Effect(old(Abstract()), Resume(tick, Go))
    {
      var room := ticks[tick].room;
      if !cache.IsBotfulnessKnown(room) {
        cache.RecordBotful(room, hasBot);
      }
      LoopHead(tick, 0);
    }

    /** After the game read or the members read of one pass of the loop. */
    method AfterRead(tick: TickId)
      requires tick in ticks && (ticks[tick].phase.ReadGame? || ticks[tick].phase.Decide?)
      modifies this
      ensures Abstract() == Effect(old(Abstract()), Resume(tick, Go))
    {
      var i := ticks[tick].phase.i;
      var phase := if ticks[tick].phase.ReadGame? then Decide(i) else ApplyAction(i);
      ticks := ticks[tick := ticks[tick].(phase := phase)];
    }

    /** After an action was applied. */
    method AfterAction(tick: TickId)
      requires tick in ticks && ticks[tick].phase.ApplyAction?
      modifies this
      ensures Abstract() == Effect(old(Abstract()), Resume(tick, Go))
    {
      var i := ticks[tick].phase.i;
      ClearReArm(ticks[tick].room);
      LoopHead(tick, i + 1);
    }

    /** A `break` out of the loop, or an exception from any await. */
    method AfterStop(tick: TickId, outcome: Outcome)
      requires outcome != Go && Enabled(Abstract(), Resume(tick, outcome))
      modifies this
      ensures Abstract() == Effect(old(Abstract()), Resume(tick, outcome))
      ensures outcome == Stop && old(ticks[tick].room !in pending) ==>
                !failureStreak.Has(old(ticks[tick].room)) && old(ticks[tick].room) !in reArmTimers
    {
      FinishTick(tick, outcome == Throw);
    }
  }
}
