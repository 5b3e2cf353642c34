/** Nothing the driver is told gets lost, and every tick ends. */
module BotWakeups {
  import opened Common
  import opened BotRoomCache
  import opened BotDriver

  /** The step calls the tick function for the room. */
  predicate Enters(s: State, e: Event, room: Room) {
    e == RunMicrotask(room) || (e.FireTimer? && e.timer in s.timers && s.timers[e.timer].room == room)
  }

  /** The call is answered: a tick starts, or the room is by now confirmed bot-less. */
  predicate Serves(s: State, e: Event, room: Room) {
    Enters(s, e, room) && (KnownBotless(s, room) || room !in s.inFlight)
  }

  /** A call of the tick function is still to come: it is queued, or a running tick
      will queue it. */
  predicate Owed(s: State, room: Room) {
    room in s.queue || room in s.pending
  }

  lemma FinishQueuesPending(s: State, tick: TickId, failed: bool, room: Room)
    requires tick in s.ticks && Owed(s, room)
    ensures Owed(Finish(s, tick, failed), room)
  {
  }

  lemma LoopHeadQueuesPending(s: State, tick: TickId, i: nat, room: Room)
    requires tick in s.ticks && Owed(s, room)
    ensures Owed(LoopHead(s, tick, i), room)
  {
    FinishQueuesPending(s, tick, false, room);
  }

  lemma OwedUntilServed(s: State, e: Event, room: Room)
    requires Enabled(s, e) && Owed(s, room) && !Serves(s, e, room)
    ensures Owed(Effect(s, e), room)
  {
    match e
    case RunMicrotask(other) =>
      if other != room {
        EnterOtherRoom(s.(queue := s.queue - multiset{other}), other, room);
      }
    case FireTimer(timer) =>
      var other := s.timers[timer].room;
      if other != room {
        EnterOtherRoom(s.(timers := s.timers - {timer}, reArmTimers := s.reArmTimers - {other}), other, room);
      }
    case Resume(tick, outcome) =>
      var phase := s.ticks[tick].phase;
      FinishQueuesPending(s, tick, outcome == Throw, room);
      if phase.ReadRoster? {
        LoopHeadQueuesPending(Recheck(s, s.ticks[tick].room, phase.sampled), tick, 0, room);
      } else if phase.ApplyAction? {
        LoopHeadQueuesPending(ClearReArm(s, s.ticks[tick].room), tick, phase.i + 1, room);
      }
    case _ =>
  }

  lemma EnterOtherRoom(s: State, other: Room, room: Room)
    requires other != room && Owed(s, room)
    ensures Owed(EnterTick(s, other), room)
  {
    LoopHeadQueuesPending(StartTick(s, other), s.nextTick, 0, room);
  }

  /** Some step after position `n` serves the room. */
  predicate ServedAfter(s: State, es: seq<Event>, n: nat, room: Room)
    requires CanRun(s, es)
  {
    |es| > n + 1 &&
    (ServedAfter(s, es[..|es|-1], n, room) || Serves(After(s, es[..|es|-1]), es[|es|-1], room))
  }

  /** Once notified, a room stays owed a tick until it is served. */
  lemma {:induction false} NoWakeupIsLost(s: State, es: seq<Event>, n: nat, room: Room)
    requires CanRun(s, es) && n < |es| && es[n] == Notify(room)
    ensures ServedAfter(s, es, n, room) || Owed(After(s, es), room)
  {
    if n < |es| - 1 {
      var pre := es[..|es|-1];
      NoWakeupIsLost(s, pre, n, room);
      if !ServedAfter(s, es, n, room) {
        OwedUntilServed(After(s, pre), es[|es|-1], room);
      }
    }
  }

  /** In every run that has come to rest for the room, each notification was
      followed by a tick that started after it, unless the room was by then
      confirmed bot-less. */
  lemma EveryNotificationIsServed(s: State, es: seq<Event>, n: nat, room: Room)
    requires Initial(s) && CanRun(s, es) && n < |es| && es[n] == Notify(room)
    requires room !in After(s, es).queue && room !in After(s, es).inFlight
    ensures ServedAfter(s, es, n, room)
  {
    EveryRunKeepsTheProtocol(s, es);
    NoWakeupIsLost(s, es, n, room);
  }

  /** A served call that finds the room not confirmed bot-less starts a fresh tick, all of
      whose reads are still to come: the roster's too, unless the room is known. */
  lemma ServingStartsATick(s: State, e: Event, room: Room)
    requires Inv(s) && Enabled(s, e) && Serves(s, e, room) && !KnownBotless(s, room)
    ensures s.nextTick !in s.ticks
    ensures Runs(Effect(s, e).ticks, s.nextTick, room)
    ensures Effect(s, e).ticks[s.nextTick].phase == if s.roomBotful.Has(room) then ReadGame(0) else ReadRoster(None)
    ensures room in Effect(s, e).inFlight && room !in Effect(s, e).pending
  {
  }

  // ---- Every tick ends ----

  /** How many of its own steps a suspended tick can still take. */
  function StepsLeft(phase: Phase): int {
    match phase
    case ReadRoster(None) => 3 * MAX_ACTIONS_PER_TICK + 2
    case ReadRoster(Some(_)) => 3 * MAX_ACTIONS_PER_TICK + 1
    case ReadGame(i) => 3 * (MAX_ACTIONS_PER_TICK - i)
    case Decide(i) => 3 * (MAX_ACTIONS_PER_TICK - i) - 1
    case ApplyAction(i) => 3 * (MAX_ACTIONS_PER_TICK - i) - 2
  }

  function ActionsDone(phase: Phase): nat {
    if phase.ReadRoster? then 0 else phase.i
  }

  predicate OwnStep(e: Event, tick: TickId) {
    e == ServeRoster(tick) || (e.Resume? && e.tick == tick)
  }

  /** The step completes an action of the tick. */
  predicate CompletesAction(s: State, e: Event, tick: TickId) {
    e == Resume(tick, Go) && tick in s.ticks && s.ticks[tick].phase.ApplyAction?
  }

  function NextPhase(phase: Phase): Phase {
    match phase
    case ReadRoster(_) => ReadGame(0)
    case ReadGame(i) => Decide(i)
    case Decide(i) => ApplyAction(i)
    case ApplyAction(i) => ReadGame(i + 1)
  }

  lemma FinishTicks(s: State, tick: TickId, failed: bool)
    requires tick in s.ticks
    ensures Finish(s, tick, failed).ticks == s.ticks - {tick} && Finish(s, tick, failed).nextTick == s.nextTick
  {
  }

  lemma LoopHeadTicks(s: State, tick: TickId, i: nat)
    requires tick in s.ticks
    ensures LoopHead(s, tick, i).nextTick == s.nextTick
    ensures LoopHead(s, tick, i).ticks in {s.ticks - {tick}, s.ticks[tick := Tick(s.ticks[tick].room, ReadGame(i))]}
  {
    FinishTicks(s, tick, false);
  }

  lemma ResumeTicks(s: State, tick: TickId, outcome: Outcome)
    requires tick in s.ticks
    ensures ResumeTick(s, tick, outcome).nextTick == s.nextTick
    ensures var moved := s.ticks[tick := Tick(s.ticks[tick].room, NextPhase(s.ticks[tick].phase))];
            || ResumeTick(s, tick, outcome).ticks == s.ticks - {tick}
            || (outcome == Go && ResumeTick(s, tick, outcome).ticks == moved)
  {
    var room, phase := s.ticks[tick].room, s.ticks[tick].phase;
    FinishTicks(s, tick, outcome == Throw);
    if phase.ReadRoster? {
      LoopHeadTicks(Recheck(s, room, phase.sampled), tick, 0);
    } else if phase.ApplyAction? {
      LoopHeadTicks(ClearReArm(s, room), tick, phase.i + 1);
    }
  }

  lemma EnterTicks(s: State, room: Room)
    ensures var t := EnterTick(s, room);
            || (t.ticks == s.ticks && t.nextTick == s.nextTick)
            || (t.nextTick == s.nextTick + 1 && exists phase ::
                  phase in {ReadRoster(None), ReadGame(0)} && t.ticks == s.ticks[s.nextTick := Tick(room, phase)])
  {
  }

  /** A step of the tick's own either ends it or leaves it fewer steps; any other
      step leaves it exactly where it was. A tick never comes back. */
  lemma StepAdvances(s: State, e: Event, tick: TickId)
    requires Enabled(s, e) && s.nextTick !in s.ticks
    ensures var t := Effect(s, e);
            && s.nextTick <= t.nextTick
            && (tick in s.ticks && tick in t.ticks && OwnStep(e, tick) ==>
                  && StepsLeft(t.ticks[tick].phase) < StepsLeft(s.ticks[tick].phase)
                  && ActionsDone(t.ticks[tick].phase) ==
                       ActionsDone(s.ticks[tick].phase) + if CompletesAction(s, e, tick) then 1 else 0)
            && (tick in s.ticks && !OwnStep(e, tick) ==> tick in t.ticks && t.ticks[tick] == s.ticks[tick])
            && (tick !in s.ticks && tick in t.ticks ==>
                  tick == s.nextTick && t.nextTick == s.nextTick + 1 && ActionsDone(t.ticks[tick].phase) == 0)
  {
    match e
    case Resume(own, outcome) => ResumeTicks(s, own, outcome);
    case RunMicrotask(room) => EnterTicks(s.(queue := s.queue - multiset{room}), room);
    case FireTimer(timer) =>
      var room := s.timers[timer].room;
      EnterTicks(s.(timers := s.timers - {timer}, reArmTimers := s.reArmTimers - {room}), room);
    case _ =>
  }

  function OwnSteps(es: seq<Event>, tick: TickId): nat {
    if es == [] then 0 else OwnSteps(es[..|es|-1], tick) + if OwnStep(es[|es|-1], tick) then 1 else 0
  }

  function Actions(s: State, es: seq<Event>, tick: TickId): nat
    requires CanRun(s, es)
  {
    if es == [] then 0 else
      Actions(s, es[..|es|-1], tick) + if CompletesAction(After(s, es[..|es|-1]), es[|es|-1], tick) then 1 else 0
  }

  /** The books of one tick: before it starts nothing, while it runs its position in the
      action loop, after it at most the bound. */
  predicate Accounted(ticks: map<TickId, Tick>, nextTick: TickId, tick: TickId, actions: nat, steps: nat) {
    && actions <= MAX_ACTIONS_PER_TICK && steps <= 3 * MAX_ACTIONS_PER_TICK + 2
    && (tick in ticks ==>
          && actions == ActionsDone(ticks[tick].phase)
          && steps + StepsLeft(ticks[tick].phase) <= 3 * MAX_ACTIONS_PER_TICK + 2)
    && (tick >= nextTick ==> steps == 0 && actions == 0)
  }

  lemma AccountStep(s: State, e: Event, tick: TickId, actions: nat, steps: nat)
    requires Inv(s) && Enabled(s, e) && Accounted(s.ticks, s.nextTick, tick, actions, steps)
    ensures var t := Effect(s, e);
            Accounted(t.ticks, t.nextTick, tick,
                      actions + (if CompletesAction(s, e, tick) then 1 else 0), steps + if OwnStep(e, tick) then 1 else 0)
  {
    StepAdvances(s, e, tick);
    var t := Effect(s, e);
    KeepAccounts(s.ticks, s.nextTick, t.ticks, t.nextTick, tick, OwnStep(e, tick), CompletesAction(s, e, tick), actions, steps);
  }

  lemma KeepAccounts(ticks: map<TickId, Tick>, next: TickId, ticks': map<TickId, Tick>, next': TickId, tick: TickId,
                     own: bool, completes: bool, actions: nat, steps: nat)
    requires Accounted(ticks, next, tick, actions, steps) && next <= next' && ActionsBounded(ticks)
    requires own ==> tick in ticks
    requires completes ==> own && ActionsDone(ticks[tick].phase) < MAX_ACTIONS_PER_TICK
    requires tick in ticks ==> tick < next
    requires tick in ticks && tick in ticks' && own ==>
               && StepsLeft(ticks'[tick].phase) < StepsLeft(ticks[tick].phase)
               && ActionsDone(ticks'[tick].phase) == ActionsDone(ticks[tick].phase) + if completes then 1 else 0
    requires tick in ticks && !own ==> tick in ticks' && ticks'[tick] == ticks[tick]
    requires tick !in ticks && tick in ticks' ==> tick == next && next' == next + 1 && ActionsDone(ticks'[tick].phase) == 0
    ensures Accounted(ticks', next', tick, actions + (if completes then 1 else 0), steps + if own then 1 else 0)
  {
  }

  /** In every run a tick completes at most 200 actions and takes at most 602 steps
      of its own. */
  lemma {:induction false} EveryTickIsBounded(s: State, es: seq<Event>, tick: TickId)
    requires Initial(s) && CanRun(s, es) && s.nextTick <= tick
    ensures Actions(s, es, tick) <= MAX_ACTIONS_PER_TICK
    ensures OwnSteps(es, tick) <= 3 * MAX_ACTIONS_PER_TICK + 2
    ensures Accounted(After(s, es).ticks, After(s, es).nextTick, tick, Actions(s, es, tick), OwnSteps(es, tick))
  {
    if es != [] {
      var pre, e := es[..|es|-1], es[|es|-1];
      EveryTickIsBounded(s, pre, tick);
      EveryRunKeepsTheProtocol(s, pre);
      AccountStep(After(s, pre), e, tick, Actions(s, pre, tick), OwnSteps(pre, tick));
    }
  }

  // ---- A failed tick never strands its room ----

  /** When a tick ends in failure, exactly one of three things keeps its room going:
      a coalesced notification is queued, a retry timer is armed, or the give-up run
      has started with the budget spent and the backoff reset. */
  lemma FailedTickIsNotStranded(s: State, tick: TickId)
    requires Inv(s) && Enabled(s, Resume(tick, Throw))
    ensures var room, t := s.ticks[tick].room, Effect(s, Resume(tick, Throw));
            room !in t.inFlight &&
            if room in s.pending then
              room in t.queue && t.failureStreak == s.failureStreak && t.timers == s.timers
            else if Streak(s, room) < MAX_REARM_ATTEMPTS then
              && room in t.reArmTimers && t.reArmTimers[room] in t.timers
              && Streak(t, room) == Streak(s, room) + 1
              && (room !in s.reArmTimers ==> t.timers[t.reArmTimers[room]] == Timer(room, Delay(Streak(t, room))))
            else
              t.giveUps == s.giveUps + multiset{room} && room !in t.reArmTimers && Streak(t, room) == 0
  {
    var room := s.ticks[tick].room;
    StreakTouched(s.failureStreak, room, Streak(s, room) + 1);
  }
}
