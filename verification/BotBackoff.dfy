/** The retry budget: how often a room whose every tick fails is retried, and how
    long that takes, when nothing else wakes it. */
module BotBackoff {
  import opened Common
  import opened InsertionMap
  import opened BotRoomCache
  import opened BotDriver
  import opened BotWakeups

  /** What the driver holds about one room. */
  datatype View = View(
    inFlight: bool, pending: bool, queued: nat, armed: bool, streak: nat, botless: bool, giveUps: nat)

  function ViewOf(s: State, room: Room): View {
    View(room in s.inFlight, room in s.pending, s.queue[room], room in s.reArmTimers,
         Streak(s, room), KnownBotless(s, room), s.giveUps[room])
  }

  /** The room a step works on, if it works on one. */
  function Subject(s: State, e: Event): Option<Room>
    requires Enabled(s, e)
  {
    match e
    case Notify(room) => Some(room)
    case RunMicrotask(room) => Some(room)
    case FireTimer(timer) => Some(s.timers[timer].room)
    case Resume(tick, _) => Some(s.ticks[tick].room)
    case GiveUpEnds(room) => Some(room)
    case _ => None
  }

  predicate EvictsStreak(s: State, e: Event, room: Room)
    requires Enabled(s, e)
  {
    Subject(s, e) != Some(room) && s.failureStreak.Has(room) && !Effect(s, e).failureStreak.Has(room)
  }

  lemma OtherStreak(m: OrderedMap<Room, nat>, other: Room, streak: nat, room: Room)
    requires StreaksBounded(m) && other != room
    ensures var t := m.Touch(other, streak, MAX_TRACKED_ROOMS);
            (t.Has(room) ==> t.Get(room) == m.Get(room))
            && (m.Touch(other, streak, MAX_TRACKED_ROOMS).Delete(other).Has(room) <==> t.Has(room))
  {
    TouchSpec(m, other, streak, MAX_TRACKED_ROOMS);
  }

  lemma OtherScheduleStreak(s: State, other: Room, room: Room)
    requires StreaksBounded(s.failureStreak) && other != room
    requires s.failureStreak.Has(room) ==> ScheduleReArm(s, other).failureStreak.Has(room)
    ensures Streak(ScheduleReArm(s, other), room) == Streak(s, room)
  {
    OtherStreak(s.failureStreak, other, Streak(s, other) + 1, room);
  }

  lemma OtherSchedule(s: State, other: Room, room: Room)
    requires StreaksBounded(s.failureStreak) && other != room
    requires s.failureStreak.Has(room) ==> ScheduleReArm(s, other).failureStreak.Has(room)
    ensures ViewOf(ScheduleReArm(s, other), room) == ViewOf(s, room)
  {
    OtherScheduleStreak(s, other, room);
  }

  lemma OtherClear(s: State, other: Room, room: Room)
    requires other != room
    ensures ViewOf(ClearReArm(s, other), room) == ViewOf(s, room)
  {
  }

  lemma OtherFinish(s: State, tick: TickId, failed: bool, room: Room)
    requires Inv(s) && tick in s.ticks && s.ticks[tick].room != room
    requires s.failureStreak.Has(room) ==> Finish(s, tick, failed).failureStreak.Has(room)
    ensures ViewOf(Finish(s, tick, failed), room) == ViewOf(s, room)
  {
    var other := s.ticks[tick].room;
    if other !in s.pending {
      ReleaseKeeps(s, tick);
      var released := s.(inFlight := s.inFlight - {other}, ticks := s.ticks - {tick});
      if failed {
        OtherSchedule(released, other, room);
      } else {
        OtherClear(released, other, room);
      }
    }
  }

  lemma OtherLoopHead(s: State, tick: TickId, i: nat, room: Room)
    requires Inv(s) && tick in s.ticks && s.ticks[tick].room != room
    ensures ViewOf(LoopHead(s, tick, i), room) == ViewOf(s, room)
  {
    OtherFinish(s, tick, false, room);
  }

  lemma OtherRecheck(s: State, other: Room, sampled: Option<bool>, room: Room)
    requires Inv(s) && other != room
    ensures KnownBotless(Recheck(s, other, sampled), room) ==> KnownBotless(s, room)
  {
    if sampled.Some? {
      TouchSpec(s.roomBotful, other, sampled.value, MAX_TRACKED_ROOMS);
    }
  }

  /** The view is the same, except that the room may no longer be known bot-less. */
  predicate Undisturbed(v: View, w: View) {
    (w.botless ==> v.botless) && w.(botless := v.botless) == v
  }

  lemma OtherEnter(s: State, other: Room, room: Room)
    requires Inv(s) && other != room
    ensures ViewOf(EnterTick(s, other), room) == ViewOf(s, room)
  {
    if !KnownBotless(s, other) && other !in s.inFlight {
      StartTickKeeps(s, other);
      OtherLoopHead(StartTick(s, other), s.nextTick, 0, room);
    }
  }

  lemma OtherContinue(s: State, tick: TickId, room: Room) returns (r: State)
    requires Inv(s) && tick in s.ticks && s.ticks[tick].room != room
    ensures r == ResumeTick(s, tick, Go) && Undisturbed(ViewOf(s, room), ViewOf(r, room))
  {
    var other := s.ticks[tick].room;
    match s.ticks[tick].phase
    case ReadRoster(sampled) =>
      var t := Recheck(s, other, sampled);
      RecheckKeeps(s, other, sampled);
      OtherRecheck(s, other, sampled, room);
      OtherLoopHead(t, tick, 0, room);
      r := LoopHead(t, tick, 0);
    case ReadGame(i) => r := Suspend(s, tick, Decide(i));
    case Decide(i) => r := Suspend(s, tick, ApplyAction(i));
    case ApplyAction(i) =>
      var t := ClearReArm(s, other);
      ClearReArmKeeps(s, other);
      OtherClear(s, other, room);
      OtherLoopHead(t, tick, i + 1, room);
      r := LoopHead(t, tick, i + 1);
  }

  lemma OtherResume(s: State, tick: TickId, outcome: Outcome, room: Room)
    requires Inv(s) && Enabled(s, Resume(tick, outcome)) && s.ticks[tick].room != room
    requires !EvictsStreak(s, Resume(tick, outcome), room)
    ensures Undisturbed(ViewOf(s, room), ViewOf(Effect(s, Resume(tick, outcome)), room))
  {
    if outcome == Go {
      var r := OtherContinue(s, tick, room);
    } else {
      OtherFinish(s, tick, outcome == Throw, room);
    }
  }

  lemma OtherTimer(s: State, timer: TimerId, room: Room)
    requires Inv(s) && timer in s.timers && s.timers[timer].room != room
    ensures ViewOf(Effect(s, FireTimer(timer)), room) == ViewOf(s, room)
  {
    var other := s.timers[timer].room;
    OtherEnter(s.(timers := s.timers - {timer}, reArmTimers := s.reArmTimers - {other}), other, room);
  }

  lemma OtherMicrotask(s: State, other: Room, room: Room)
    requires Inv(s) && other in s.queue && other != room
    ensures ViewOf(Effect(s, RunMicrotask(other)), room) == ViewOf(s, room)
  {
    OtherEnter(s.(queue := s.queue - multiset{other}), other, room);
  }

  /** A step that works on another room, and does not push this room's streak out,
      leaves this room's view alone; at most it forgets that the room is bot-less. */
  lemma OtherRoomsDoNotInterfere(s: State, e: Event, room: Room)
    requires Inv(s) && Enabled(s, e) && Subject(s, e) != Some(room) && !EvictsStreak(s, e, room)
    ensures Undisturbed(ViewOf(s, room), ViewOf(Effect(s, e), room))
  {
    match e
    case RunMicrotask(other) => OtherMicrotask(s, other, room);
    case FireTimer(timer) => OtherTimer(s, timer, room);
    case Resume(tick, outcome) => OtherResume(s, tick, outcome, room);
    case BotReported(seat) => TouchSpec(s.roomBotful, seat.room, true, MAX_TRACKED_ROOMS);
    case _ =>
  }

  /** The room is left to its retries: no notification comes, no eviction resets its
      streak, none of its actions succeeds, and a tick that ends, ends in failure. */
  predicate LeftToRetries(s: State, e: Event, room: Room)
    requires Enabled(s, e)
  {
    && e != Notify(room)
    && !EvictsStreak(s, e, room)
    && (e.Resume? && s.ticks[e.tick].room == room ==>
          && !CompletesAction(s, e, e.tick)
          && (e.tick in Effect(s, e).ticks || e.outcome == Throw))
  }

  predicate Fails(s: State, e: Event, room: Room)
    requires Enabled(s, e)
  {
    e.Resume? && e.outcome == Throw && s.ticks[e.tick].room == room
  }

  /** The delay of the timer the step arms for the room, or 0. */
  function ArmedBy(s: State, e: Event, room: Room): nat
    requires Enabled(s, e)
  {
    var t := Effect(s, e);
    if Fails(s, e, room) && room !in s.reArmTimers && room in t.reArmTimers && t.reArmTimers[room] in t.timers
    then t.timers[t.reArmTimers[room]].delay else 0
  }

  ghost predicate Retrying(s: State, es: seq<Event>, room: Room)
    requires CanRun(s, es)
  {
    es == [] || (Retrying(s, es[..|es|-1], room) && LeftToRetries(After(s, es[..|es|-1]), es[|es|-1], room))
  }

  function Failures(s: State, es: seq<Event>, room: Room): nat
    requires CanRun(s, es)
  {
    if es == [] then 0 else
      Failures(s, es[..|es|-1], room) + if Fails(After(s, es[..|es|-1]), es[|es|-1], room) then 1 else 0
  }

  function TotalDelay(s: State, es: seq<Event>, room: Room): nat
    requires CanRun(s, es)
  {
    if es == [] then 0 else
      TotalDelay(s, es[..|es|-1], room) + ArmedBy(After(s, es[..|es|-1]), es[|es|-1], room)
  }

  function GiveUpsStarted(s: State, es: seq<Event>, room: Room): nat
    requires CanRun(s, es)
  {
    if es == [] then 0 else
      var before, after := After(s, es[..|es|-1]), After(s, es);
      GiveUpsStarted(s, es[..|es|-1], room) + if after.giveUps[room] > before.giveUps[room] then 1 else 0
  }

  /** The backoff schedule added up. */
  function Backoff(failures: nat): nat {
    if failures == 0 then 0 else Backoff(failures - 1) + Delay(failures)
  }

  lemma BackoffTable()
    ensures Delay(1) == 200 && Delay(2) == 400 && Delay(3) == 800 && Delay(4) == 1600
    ensures Delay(5) == 2000 && Delay(6) == 2000 && Backoff(6) == 7000
  {
    assert Pow2(1) == 2 && Pow2(2) == 4 && Pow2(3) == 8 && Pow2(4) == 16 && Pow2(5) == 32;
    assert Backoff(1) == 200 && Backoff(2) == 600 && Backoff(3) == 1400 && Backoff(4) == 3000 && Backoff(5) == 5000;
  }

  lemma {:induction false} RunKeeps(s: State, es: seq<Event>)
    requires Inv(s) && CanRun(s, es)
    ensures Inv(After(s, es))
  {
    if es != [] {
      RunKeeps(s, es[..|es|-1]);
      EffectKeeps(After(s, es[..|es|-1]), es[|es|-1]);
    }
  }

  /** The room after `failures` failed ticks in a row: within the budget exactly one
      of a running tick and an armed timer carries it on; with the budget spent
      everything is released. */
  predicate Carries(v: View, failures: nat) {
    && !v.pending && v.queued == 0 && !v.botless
    && (if failures <= MAX_REARM_ATTEMPTS then
          v.streak == failures && v.inFlight == !v.armed && (failures == 0 ==> v.inFlight)
        else
          failures == MAX_REARM_ATTEMPTS + 1 && !v.inFlight && !v.armed && v.streak == 0)
  }

  lemma CarriesOn(s: State, e: Event, room: Room, failures: nat)
    requires Inv(s) && Enabled(s, e) && LeftToRetries(s, e, room)
    requires Carries(ViewOf(s, room), failures)
    ensures Carries(ViewOf(Effect(s, e), room), failures + if Fails(s, e, room) then 1 else 0)
    ensures ArmedBy(s, e, room) == if Fails(s, e, room) && failures < MAX_REARM_ATTEMPTS then Delay(failures + 1) else 0
    ensures Effect(s, e).giveUps[room] > s.giveUps[room] <==> Fails(s, e, room) && failures == MAX_REARM_ATTEMPTS
  {
    if Subject(s, e) != Some(room) {
      OtherRoomsDoNotInterfere(s, e, room);
    } else if Fails(s, e, room) {
      FailedTickIsNotStranded(s, e.tick);
    } else {
      OwnStepCarriesOn(s, e, room, failures);
    }
  }

  lemma OwnStepCarriesOn(s: State, e: Event, room: Room, failures: nat)
    requires Inv(s) && Enabled(s, e) && LeftToRetries(s, e, room)
    requires Carries(ViewOf(s, room), failures) && Subject(s, e) == Some(room) && !Fails(s, e, room)
    ensures Carries(ViewOf(Effect(s, e), room), failures)
    ensures Effect(s, e).giveUps[room] <= s.giveUps[room]
  {
    if e.Resume? {
      OwnResumeCarriesOn(s, e.tick, e.outcome, room, failures);
    }
  }

  lemma RecheckCarriesOn(s: State, tick: TickId, room: Room, failures: nat)
    requires Inv(s) && tick in s.ticks && s.ticks[tick].phase.ReadRoster? && Enabled(s, Resume(tick, Go))
    requires LeftToRetries(s, Resume(tick, Go), room)
    requires Carries(ViewOf(s, room), failures) && s.ticks[tick].room == room
    ensures Carries(ViewOf(ResumeTick(s, tick, Go), room), failures)
    ensures ResumeTick(s, tick, Go).giveUps[room] <= s.giveUps[room]
  {
    ResumeTicks(s, tick, Go);
    FinishTicks(Recheck(s, room, s.ticks[tick].phase.sampled), tick, false);
  }

  lemma OwnResumeCarriesOn(s: State, tick: TickId, outcome: Outcome, room: Room, failures: nat)
    requires Inv(s) && Enabled(s, Resume(tick, outcome)) && LeftToRetries(s, Resume(tick, outcome), room)
    requires Carries(ViewOf(s, room), failures) && s.ticks[tick].room == room && outcome == Go
    ensures Carries(ViewOf(ResumeTick(s, tick, outcome), room), failures)
    ensures ResumeTick(s, tick, outcome).giveUps[room] <= s.giveUps[room]
  {
    if s.ticks[tick].phase.ReadRoster? {
      RecheckCarriesOn(s, tick, room, failures);
    } else {
      ResumeTicks(s, tick, outcome);
      FinishTicks(s, tick, false);
    }
  }

  function Capped(failures: nat): nat {
    if failures < MAX_REARM_ATTEMPTS then failures else MAX_REARM_ATTEMPTS
  }

  /** The ledger of a retrying room: how many ticks failed, how long the armed timers
      add up to, and whether the give-up run was started. */
  predicate Balanced(v: View, failures: nat, delay: nat, giveUps: nat) {
    && failures <= MAX_REARM_ATTEMPTS + 1
    && Carries(v, failures)
    && delay == Backoff(Capped(failures))
    && giveUps == if failures > MAX_REARM_ATTEMPTS then 1 else 0
  }

  lemma BalanceStep(s: State, e: Event, room: Room, failures: nat, delay: nat, giveUps: nat)
    returns (v: View, failures': nat, delay': nat, giveUps': nat)
    requires Inv(s) && Enabled(s, e) && LeftToRetries(s, e, room)
    requires Balanced(ViewOf(s, room), failures, delay, giveUps)
    ensures Balanced(v, failures', delay', giveUps') && v == ViewOf(Effect(s, e), room)
    ensures failures' == failures + if Fails(s, e, room) then 1 else 0
    ensures delay' == delay + ArmedBy(s, e, room)
    ensures giveUps' == giveUps + if Effect(s, e).giveUps[room] > s.giveUps[room] then 1 else 0
  {
    CarriesOn(s, e, room, failures);
    var fails, armed, gave := Fails(s, e, room), ArmedBy(s, e, room), Effect(s, e).giveUps[room] > s.giveUps[room];
    v := ViewOf(Effect(s, e), room);
    failures' := failures + if fails then 1 else 0;
    delay' := delay + armed;
    giveUps' := giveUps + if gave then 1 else 0;
    Balances(ViewOf(s, room), v, failures, delay, giveUps, fails, armed, gave);
  }

  /** The books of one step. A room that has given up fails no more. */
  lemma Balances(v: View, w: View, failures: nat, delay: nat, giveUps: nat, fails: bool, armed: nat, gave: bool)
    requires Balanced(v, failures, delay, giveUps)
    requires Carries(w, failures + if fails then 1 else 0)
    requires armed == if fails && failures < MAX_REARM_ATTEMPTS then Delay(failures + 1) else 0
    requires gave <==> fails && failures == MAX_REARM_ATTEMPTS
    requires fails ==> failures <= MAX_REARM_ATTEMPTS
    ensures Balanced(w, failures + (if fails then 1 else 0), delay + armed, giveUps + if gave then 1 else 0)
  {
  }

  lemma {:induction false} RetriesBalance(s: State, es: seq<Event>, room: Room)
    returns (v: View, failures: nat, delay: nat, giveUps: nat)
    requires Inv(s) && CanRun(s, es) && Retrying(s, es, room)
    requires Carries(ViewOf(s, room), 0)
    ensures Balanced(v, failures, delay, giveUps)
    ensures v == ViewOf(After(s, es), room) && failures == Failures(s, es, room)
    ensures delay == TotalDelay(s, es, room) && giveUps == GiveUpsStarted(s, es, room)
  {
    if es == [] {
      v, failures, delay, giveUps := ViewOf(s, room), 0, 0, 0;
    } else {
      var pre, e := es[..|es|-1], es[|es|-1];
      v, failures, delay, giveUps := RetriesBalance(s, pre, room);
      RunKeeps(s, pre);
      v, failures, delay, giveUps := BalanceStep(After(s, pre), e, room, failures, delay, giveUps);
    }
  }

  /** From the first failing tick of a room on, while the room is left to its
      retries: at most 7 ticks fail, the timers armed in between add up to the
      backoff schedule and never to more than 7000 ms, the room always has a running
      tick or an armed timer until the 7th failure, and that one starts the give-up
      run. */
  lemma GivesUpAfterSevenFailures(s: State, es: seq<Event>, room: Room)
    requires Inv(s) && CanRun(s, es) && Retrying(s, es, room)
    requires Carries(ViewOf(s, room), 0)
    ensures var f, t := Failures(s, es, room), After(s, es);
            && f <= MAX_REARM_ATTEMPTS + 1
            && TotalDelay(s, es, room) == Backoff(Capped(f)) <= 7000
            && (f <= MAX_REARM_ATTEMPTS <==> room in t.inFlight || room in t.reArmTimers)
            && GiveUpsStarted(s, es, room) == if f <= MAX_REARM_ATTEMPTS then 0 else 1
  {
    var v, f, d, g := RetriesBalance(s, es, room);
    BackoffGrows(Capped(Failures(s, es, room)));
  }

  lemma BackoffGrows(f: nat)
    requires f <= MAX_REARM_ATTEMPTS
    ensures Backoff(f) <= 7000
  {
    BackoffTable();
    assert Backoff(5) == 5000 && Backoff(4) == 3000 && Backoff(3) == 1400 && Backoff(2) == 600 && Backoff(1) == 200;
  }
}
