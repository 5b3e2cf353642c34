/** The live bot driver as a step protocol. JavaScript runs the code between two
    awaits without interruption, so each such stretch is one step here; which
    step comes next, and what an awaited call answers, is up to the environment. */
module BotDriver {
  import opened Common
  import opened InsertionMap

  import opened BotRoomCache

  type TickId = nat
  type TimerId = nat

  const MAX_ACTIONS_PER_TICK: nat := 200
  const MAX_REARM_ATTEMPTS: nat := 6
  const REARM_BASE_DELAY_MS: nat := 200
  const REARM_MAX_DELAY_MS: nat := 2000

  /** Where a running tick is suspended. `sampled` is what the roster read saw, at
      whatever moment it was served. `Decide` stands for every await from the
      team-member read to the last check before the action is applied. */
  datatype Phase =
    | ReadRoster(sampled: Option<bool>)
    | ReadGame(i: nat)
    | Decide(i: nat)
    | ApplyAction(i: nat)

  datatype Tick = Tick(room: Room, phase: Phase)
  datatype Timer = Timer(room: Room, delay: nat)
  datatype Seat = Seat(room: Room, bot: nat)

  /** The controller's module variables, then what the runtime holds for it: queued
      microtasks, suspended ticks, live timers and give-up runs. Last, the bots
      seated in each room, and those whose add has not yet reported itself. */
  datatype State = State(
    roomBotful: OrderedMap<Room, bool>,
    inFlight: set<Room>,
    pending: set<Room>,
    failureStreak: OrderedMap<Room, nat>,
    reArmTimers: map<Room, TimerId>,
    queue: multiset<Room>,
    ticks: map<TickId, Tick>,
    timers: map<TimerId, Timer>,
    giveUps: multiset<Room>,
    nextTick: TickId,
    nextTimer: TimerId,
    bots: set<Seat>,
    due: set<Seat>)

  /** How an await of a tick ends: with what the tick was hoping for, with a reason
      to stop cleanly, or with an exception. */
  datatype Outcome = Go | Stop | Throw

  /** An add that fails rolls its bot back; when the rollback fails too, or the join took
      effect although it threw, the bot stays seated and nothing will be reported. */
  datatype Event =
    | Notify(room: Room)
    | RunMicrotask(room: Room)
    | FireTimer(timer: TimerId)
    | ServeRoster(tick: TickId)
    | Resume(tick: TickId, outcome: Outcome)
    | GiveUpEnds(room: Room)
    | BotJoined(seat: Seat)
    | BotReported(seat: Seat)
    | BotRolledBack(seat: Seat)
    | AddAbandoned(seat: Seat)
    | BotLeft(seat: Seat)
    | BotRemovalNoted(room: Room)

  predicate KnownBotless(s: State, room: Room) {
    s.roomBotful.Get(room) == Some(false)
  }

  function Streak(s: State, room: Room): nat {
    if s.failureStreak.Has(room) then s.failureStreak.vals[room] else 0
  }

  function Pow2(n: nat): nat {
    if n == 0 then 1 else 2 * Pow2(n - 1)
  }

  function Delay(streak: nat): nat
    requires streak > 0
  {
    var d := REARM_BASE_DELAY_MS * Pow2(streak - 1);
    if d < REARM_MAX_DELAY_MS then d else REARM_MAX_DELAY_MS
  }

  function ClearReArm(s: State, room: Room): State {
    s.(failureStreak := s.failureStreak.Delete(room),
       timers := if room in s.reArmTimers then s.timers - {s.reArmTimers[room]} else s.timers,
       reArmTimers := s.reArmTimers - {room})
  }

  function ScheduleReArm(s: State, room: Room): State {
    var streak := Streak(s, room) + 1;
    var s1 := s.(failureStreak := s.failureStreak.Touch(room, streak, MAX_TRACKED_ROOMS));
    if streak > MAX_REARM_ATTEMPTS then ClearReArm(s1, room).(giveUps := s.giveUps + multiset{room})
    else if room in s1.reArmTimers then s1
    else Arm(s1, room, Delay(streak))
  }

  function Arm(s: State, room: Room, delay: nat): State {
    s.(timers := s.timers[s.nextTimer := Timer(room, delay)],
       reArmTimers := s.reArmTimers[room := s.nextTimer],
       nextTimer := s.nextTimer + 1)
  }

  /** The end of a tick: release the room, then re-tick, re-arm or settle. */
  function Finish(s: State, tick: TickId, failed: bool): State
    requires tick in s.ticks
  {
    var room := s.ticks[tick].room;
    var s1 := s.(inFlight := s.inFlight - {room}, ticks := s.ticks - {tick});
    if room in s1.pending then s1.(pending := s1.pending - {room}, queue := s1.queue + multiset{room})
    else if failed then ScheduleReArm(s1, room)
    else ClearReArm(s1, room)
  }

  function Suspend(s: State, tick: TickId, phase: Phase): State
    requires tick in s.ticks
  {
    s.(ticks := s.ticks[tick := s.ticks[tick].(phase := phase)])
  }

  /** The test at the head of the action loop. */
  function LoopHead(s: State, tick: TickId, i: nat): State
    requires tick in s.ticks
  {
    if !KnownBotless(s, s.ticks[tick].room) && i < MAX_ACTIONS_PER_TICK then Suspend(s, tick, ReadGame(i))
    else Finish(s, tick, false)
  }

  /** The state in which a new tick of the room reaches its first test. */
  function StartTick(s: State, room: Room): State {
    s.(inFlight := s.inFlight + {room}, pending := s.pending - {room},
       ticks := s.ticks[s.nextTick := Tick(room, ReadRoster(None))], nextTick := s.nextTick + 1)
  }

  /** A call of the tick function, up to its first await. */
  function EnterTick(s: State, room: Room): State {
    if KnownBotless(s, room) then s
    else if room in s.inFlight then s.(pending := s.pending + {room})
    else
      var s1 := StartTick(s, room);
      if s1.roomBotful.Has(room) then LoopHead(s1, s.nextTick, 0) else s1
  }

  /** Record what the roster read saw, unless the room became known meanwhile. */
  function Recheck(s: State, room: Room, sampled: Option<bool>): State {
    if s.roomBotful.Has(room) || sampled.None? then s
    else s.(roomBotful := s.roomBotful.Touch(room, sampled.value, MAX_TRACKED_ROOMS))
  }

  function ResumeTick(s: State, tick: TickId, outcome: Outcome): State
    requires tick in s.ticks
  {
    var room := s.ticks[tick].room;
    if outcome == Throw then Finish(s, tick, true)
    else if outcome == Stop then Finish(s, tick, false)
    else match s.ticks[tick].phase
      case ReadRoster(sampled) =>
        LoopHead(Recheck(s, room, sampled), tick, 0)
      case ReadGame(i) => Suspend(s, tick, Decide(i))
      case Decide(i) => Suspend(s, tick, ApplyAction(i))
      case ApplyAction(i) => LoopHead(ClearReArm(s, room), tick, i + 1)
  }

  /** A roster read is only answered once it was served, and never asks for a clean
      stop; nor does an applied action. */
  predicate Enabled(s: State, e: Event) {
    match e
    case Notify(_) => true
    case RunMicrotask(room) => room in s.queue
    case FireTimer(timer) => timer in s.timers
    case ServeRoster(tick) => tick in s.ticks && s.ticks[tick].phase == ReadRoster(None)
    case Resume(tick, outcome) =>
      && tick in s.ticks
      && (s.ticks[tick].phase.ReadRoster? ==> outcome == Throw || (outcome == Go && s.ticks[tick].phase.sampled.Some?))
      && (s.ticks[tick].phase.ApplyAction? ==> outcome != Stop)
    case GiveUpEnds(room) => room in s.giveUps
    case BotJoined(seat) => seat !in s.bots && seat !in s.due
    case BotReported(seat) => seat in s.due
    case BotRolledBack(seat) => seat in s.due
    case AddAbandoned(seat) => seat in s.due
    case BotLeft(seat) => seat in s.bots
    case BotRemovalNoted(_) => true
  }

  function Effect(s: State, e: Event): State
    requires Enabled(s, e)
  {
    match e
    case Notify(room) => s.(queue := s.queue + multiset{room})
    case RunMicrotask(room) => EnterTick(s.(queue := s.queue - multiset{room}), room)
    case FireTimer(timer) =>
      var room := s.timers[timer].room;
      EnterTick(s.(timers := s.timers - {timer}, reArmTimers := s.reArmTimers - {room}), room)
    case ServeRoster(tick) =>
      Suspend(s, tick, ReadRoster(Some(HasBot(s, s.ticks[tick].room))))
    case Resume(tick, outcome) => ResumeTick(s, tick, outcome)
    case GiveUpEnds(room) => s.(giveUps := s.giveUps - multiset{room})
    case BotJoined(seat) => s.(bots := s.bots + {seat}, due := s.due + {seat})
    case BotReported(seat) =>
      s.(due := s.due - {seat}, roomBotful := s.roomBotful.Touch(seat.room, true, MAX_TRACKED_ROOMS))
    case BotRolledBack(seat) => s.(bots := s.bots - {seat}, due := s.due - {seat})
    case AddAbandoned(seat) => s.(due := s.due - {seat})
    case BotLeft(seat) => s.(bots := s.bots - {seat})
    case BotRemovalNoted(room) => s.(roomBotful := s.roomBotful.Delete(room))
  }

  predicate HasBot(s: State, room: Room) {
    exists seat :: seat in s.bots && seat.room == room
  }

  /** The process has just started: nothing is cached, queued or running, but bots
      from before the restart may be seated. */
  predicate Initial(s: State) {
    && s.roomBotful == Empty() && s.failureStreak == Empty()
    && s.inFlight == {} && s.pending == {} && s.reArmTimers == map[]
    && s.queue == multiset{} && s.giveUps == multiset{}
    && s.ticks == map[] && s.timers == map[] && s.due == {}
  }

  /** `es` can happen from `s`, one step after another. */
  predicate CanRun(s: State, es: seq<Event>)
    decreases |es|, 0
  {
    es == [] || (CanRun(s, es[..|es|-1]) && Enabled(After(s, es[..|es|-1]), es[|es|-1]))
  }

  function After(s: State, es: seq<Event>): State
    requires CanRun(s, es)
    decreases |es|, 1
  {
    if es == [] then s else Effect(After(s, es[..|es|-1]), es[|es|-1])
  }

  // ---- What every step keeps ----

  ghost predicate Runs(ticks: map<TickId, Tick>, tick: TickId, room: Room) {
    tick in ticks && ticks[tick].room == room
  }

  /** At most one tick of a room is running, and the in-flight mark says when. */
  ghost predicate SingleFlight(ticks: map<TickId, Tick>, inFlight: set<Room>, nextTick: TickId) {
    && (forall t, u :: t in ticks && u in ticks && ticks[t].room == ticks[u].room ==> t == u)
    && (forall t :: t in ticks ==> ticks[t].room in inFlight && t < nextTick)
    && (forall room :: room in inFlight ==> exists t :: Runs(ticks, t, room))
  }

  /** The timers that can still fire are exactly the recorded ones, one a room. */
  ghost predicate OneTimerPerRoom(timers: map<TimerId, Timer>, reArmTimers: map<Room, TimerId>, nextTimer: TimerId) {
    && (forall room :: room in reArmTimers ==>
          var id := reArmTimers[room]; id in timers && timers[id].room == room)
    && (forall id :: id in timers ==>
          && id < nextTimer
          && timers[id].room in reArmTimers && reArmTimers[timers[id].room] == id
          && 0 < timers[id].delay <= REARM_MAX_DELAY_MS)
  }

  /** Between steps a recorded streak is within the retry budget. */
  ghost predicate StreaksBounded(failureStreak: OrderedMap<Room, nat>) {
    && failureStreak.Valid() && failureStreak.Size() <= MAX_TRACKED_ROOMS
    && (forall room :: failureStreak.Has(room) ==> 0 < failureStreak.vals[room] <= MAX_REARM_ATTEMPTS)
  }

  ghost predicate ActionsBounded(ticks: map<TickId, Tick>) {
    forall t :: t in ticks && !ticks[t].phase.ReadRoster? ==> ticks[t].phase.i < MAX_ACTIONS_PER_TICK
  }

  ghost predicate CacheBounded(roomBotful: OrderedMap<Room, bool>) {
    roomBotful.Valid() && roomBotful.Size() <= MAX_TRACKED_ROOMS
  }

  /** A coalesced notification always has a running tick that will see it out:
      `pending` stays within `inFlight`. */
  ghost predicate Inv(s: State) {
    && SingleFlight(s.ticks, s.inFlight, s.nextTick)
    && s.pending <= s.inFlight
    && OneTimerPerRoom(s.timers, s.reArmTimers, s.nextTimer)
    && StreaksBounded(s.failureStreak)
    && ActionsBounded(s.ticks)
    && CacheBounded(s.roomBotful)
  }

  lemma DelayBounds(streak: nat)
    requires 0 < streak
    ensures 0 < Delay(streak) <= REARM_MAX_DELAY_MS
  {
    PowPositive(streak - 1);
  }

  lemma {:induction false} PowPositive(n: nat)
    ensures Pow2(n) > 0
  {
    if n > 0 {
      PowPositive(n - 1);
    }
  }

  lemma ClearReArmKeeps(s: State, room: Room)
    requires Inv(s)
    ensures Inv(ClearReArm(s, room))
  {
    StreakDeleted(s.failureStreak, room);
  }

  lemma StreakDeleted(m: OrderedMap<Room, nat>, room: Room)
    requires StreaksBounded(m)
    ensures StreaksBounded(m.Delete(room))
  {
    DeleteValid(m, room);
  }

  lemma StreakTouched(m: OrderedMap<Room, nat>, room: Room, streak: nat)
    requires StreaksBounded(m) && 0 < streak
    ensures streak <= MAX_REARM_ATTEMPTS ==> StreaksBounded(m.Touch(room, streak, MAX_TRACKED_ROOMS))
    ensures StreaksBounded(m.Touch(room, streak, MAX_TRACKED_ROOMS).Delete(room))
    ensures m.Touch(room, streak, MAX_TRACKED_ROOMS).Get(room) == Some(streak)
  {
    TouchSpec(m, room, streak, MAX_TRACKED_ROOMS);
    var touched := m.Touch(room, streak, MAX_TRACKED_ROOMS);
    forall r | touched.Has(r) && r != room ensures 0 < touched.vals[r] <= MAX_REARM_ATTEMPTS {
      assert touched.Get(r) == m.Get(r);
    }
    DeleteValid(touched, room);
  }

  lemma ArmKeeps(s: State, room: Room, delay: nat)
    requires Inv(s) && room !in s.reArmTimers && 0 < delay <= REARM_MAX_DELAY_MS
    ensures Inv(Arm(s, room, delay))
  {
  }

  lemma GiveUpKeeps(s: State, room: Room, touched: OrderedMap<Room, nat>)
    requires Inv(s) && StreaksBounded(touched.Delete(room))
    ensures Inv(ClearReArm(s.(failureStreak := touched), room))
  {
    ClearReArmKeeps(s, room);
    assert ClearReArm(s.(failureStreak := touched), room) == ClearReArm(s, room).(failureStreak := touched.Delete(room));
  }

  lemma ScheduleReArmKeeps(s: State, room: Room)
    requires Inv(s)
    ensures Inv(ScheduleReArm(s, room))
  {
    var streak := Streak(s, room) + 1;
    var touched := s.failureStreak.Touch(room, streak, MAX_TRACKED_ROOMS);
    StreakTouched(s.failureStreak, room, streak);
    GiveUpKeeps(s, room, touched);
    if streak <= MAX_REARM_ATTEMPTS && room !in s.reArmTimers {
      DelayBounds(streak);
      ArmKeeps(s.(failureStreak := touched), room, Delay(streak));
    }
  }

  lemma ReleaseKeeps(s: State, tick: TickId)
    requires Inv(s) && tick in s.ticks
    ensures var room := s.ticks[tick].room;
            SingleFlight(s.ticks - {tick}, s.inFlight - {room}, s.nextTick) && ActionsBounded(s.ticks - {tick})
  {
    var room, ticks := s.ticks[tick].room, s.ticks - {tick};
    forall r | r in s.inFlight - {room} ensures exists t :: Runs(ticks, t, r) {
      var t :| Runs(s.ticks, t, r);
      assert Runs(ticks, t, r);
    }
  }

  lemma FinishKeeps(s: State, tick: TickId, failed: bool)
    requires Inv(s) && tick in s.ticks
    ensures Inv(Finish(s, tick, failed))
  {
    var room := s.ticks[tick].room;
    ReleaseKeeps(s, tick);
    var s1 := s.(inFlight := s.inFlight - {room}, ticks := s.ticks - {tick});
    if room !in s.pending {
      ScheduleReArmKeeps(s1, room);
      ClearReArmKeeps(s1, room);
    }
  }

  lemma SuspendKeeps(s: State, tick: TickId, phase: Phase)
    requires Inv(s) && tick in s.ticks
    requires !phase.ReadRoster? ==> phase.i < MAX_ACTIONS_PER_TICK
    ensures Inv(Suspend(s, tick, phase))
  {
    var ticks := Suspend(s, tick, phase).ticks;
    forall r | r in s.inFlight ensures exists t :: Runs(ticks, t, r) {
      var t :| Runs(s.ticks, t, r);
      assert Runs(ticks, t, r);
    }
  }

  lemma LoopHeadKeeps(s: State, tick: TickId, i: nat)
    requires Inv(s) && tick in s.ticks
    ensures Inv(LoopHead(s, tick, i))
  {
    if i < MAX_ACTIONS_PER_TICK {
      SuspendKeeps(s, tick, ReadGame(i));
    }
    FinishKeeps(s, tick, false);
  }

  lemma StartTickKeeps(s: State, room: Room)
    requires Inv(s) && room !in s.inFlight
    ensures Inv(StartTick(s, room))
  {
    var ticks := StartTick(s, room).ticks;
    forall r | r in s.inFlight + {room} ensures exists t :: Runs(ticks, t, r) {
      if r == room {
        assert Runs(ticks, s.nextTick, r);
      } else {
        var t :| Runs(s.ticks, t, r);
        assert Runs(ticks, t, r);
      }
    }
  }

  lemma EnterTickKeeps(s: State, room: Room)
    requires Inv(s)
    ensures Inv(EnterTick(s, room))
  {
    if !KnownBotless(s, room) && room !in s.inFlight {
      StartTickKeeps(s, room);
      LoopHeadKeeps(StartTick(s, room), s.nextTick, 0);
    }
  }

  lemma RecheckKeeps(s: State, room: Room, sampled: Option<bool>)
    requires Inv(s)
    ensures Inv(Recheck(s, room, sampled))
  {
    if sampled.Some? {
      TouchSpec(s.roomBotful, room, sampled.value, MAX_TRACKED_ROOMS);
    }
  }

  lemma AppliedKeeps(s: State, tick: TickId, i: nat)
    requires Inv(s) && tick in s.ticks
    ensures Inv(LoopHead(ClearReArm(s, s.ticks[tick].room), tick, i))
  {
    ClearReArmKeeps(s, s.ticks[tick].room);
    LoopHeadKeeps(ClearReArm(s, s.ticks[tick].room), tick, i);
  }

  lemma ContinueKeeps(s: State, tick: TickId) returns (r: State)
    requires Inv(s) && tick in s.ticks
    ensures Inv(r) && r == ResumeTick(s, tick, Go)
  {
    match s.ticks[tick].phase
    case ReadRoster(sampled) =>
      RecheckKeeps(s, s.ticks[tick].room, sampled);
      LoopHeadKeeps(Recheck(s, s.ticks[tick].room, sampled), tick, 0);
      r := LoopHead(Recheck(s, s.ticks[tick].room, sampled), tick, 0);
    case ReadGame(i) =>
      SuspendKeeps(s, tick, Decide(i));
      r := Suspend(s, tick, Decide(i));
    case Decide(i) =>
      SuspendKeeps(s, tick, ApplyAction(i));
      r := Suspend(s, tick, ApplyAction(i));
    case ApplyAction(i) =>
      AppliedKeeps(s, tick, i + 1);
      r := LoopHead(ClearReArm(s, s.ticks[tick].room), tick, i + 1);
  }

  lemma EffectKeeps(s: State, e: Event)
    requires Inv(s) && Enabled(s, e)
    ensures Inv(Effect(s, e))
  {
    match e
    case RunMicrotask(room) => EnterTickKeeps(s.(queue := s.queue - multiset{room}), room);
    case FireTimer(timer) =>
      var room := s.timers[timer].room;
      EnterTickKeeps(s.(timers := s.timers - {timer}, reArmTimers := s.reArmTimers - {room}), room);
    case ServeRoster(tick) => SuspendKeeps(s, tick, ReadRoster(Some(HasBot(s, s.ticks[tick].room))));
    case Resume(tick, outcome) =>
      if outcome == Go {
        var r := ContinueKeeps(s, tick);
      } else {
        FinishKeeps(s, tick, outcome == Throw);
      }
    case BotReported(seat) => TouchSpec(s.roomBotful, seat.room, true, MAX_TRACKED_ROOMS);
    case BotRemovalNoted(room) => DeleteValid(s.roomBotful, room);
    case _ =>
  }

  /** In every interleaving of notifications, ticks, timers and roster changes: one
      tick a room, no pending mark without a tick to clear it, one timer a room,
      streaks within budget, actions within bound. */
  lemma {:induction false} EveryRunKeepsTheProtocol(s: State, es: seq<Event>)
    requires Initial(s) && CanRun(s, es)
    ensures Inv(After(s, es))
  {
    if es != [] {
      EveryRunKeepsTheProtocol(s, es[..|es|-1]);
      EffectKeeps(After(s, es[..|es|-1]), es[|es|-1]);
    }
  }
}
