/** The limiter's verdicts and bounds in the numbers of its configuration, counted over the
    calls of a run. */
module RateNumbers {
  import opened Common
  import opened SlidingWindow
  import opened RateLimit
  import opened RateBounds

  /** The limit of an event: the configured one, or 5 in 5 seconds. */
  function LimitFor(cfg: Config, event: Name): Limit {
    if event in cfg.limits then cfg.limits[event] else Limit(5, 5000)
  }

  /** The call is one of those a slot is about. */
  predicate Concerns(c: Call, slot: Slot) {
    match slot
    case SocketSlot(socket, event) => c.socket == socket && c.event == event
    case SessionSlot(session, event) => c.session == Some(session) && c.event == event
    case IpSlot(ip, event) => c.ip == ip && c.event == event
    case GlobalSlot(ip) => c.ip == ip
  }

  lemma UsesWhatConcerns(c: Call, slot: Slot)
    ensures Uses(c, slot) <==> Concerns(c, slot)
  {
  }

  /** The admitted calls of a run that a slot is about, in the `length` milliseconds up to
      `t`. A socket's calls count from its last cleanup on. */
  function AdmittedCalls(h: seq<Event>, slot: Slot, length: nat, t: int): nat {
    if h == [] then 0 else
      var before := AdmittedCalls(h[..|h|-1], slot, length, t);
      match h[|h|-1]
      case Handled(call, outcome) =>
        before + if outcome == Admitted && Concerns(call, slot) && t - length < call.now <= t then 1 else 0
      case SocketCleaned(socket) => if slot.SocketSlot? && slot.socket == socket then 0 else before
      case _ => before
  }

  lemma AdmittedCall(h: seq<Event>, c: Call, o: Outcome, slot: Slot, length: nat, t: int)
    requires AdmittedCalls(h, slot, length, t) == InWindow(Admissions(h, slot), t - length, t)
    ensures AdmittedCalls(h + [Handled(c, o)], slot, length, t)
            == InWindow(Admissions(h + [Handled(c, o)], slot), t - length, t)
  {
    assert (h + [Handled(c, o)])[..|h|] == h;
    AdmissionCall(h, c, o, slot);
    UsesWhatConcerns(c, slot);
    InWindowAppend(Admissions(h, slot), c.now, t - length, t);
  }

  lemma {:induction false} AdmittedAreCounted(h: seq<Event>, slot: Slot, length: nat, t: int)
    ensures AdmittedCalls(h, slot, length, t) == InWindow(Admissions(h, slot), t - length, t)
  {
    if h != [] {
      var pre, e := h[..|h|-1], h[|h|-1];
      AdmittedAreCounted(pre, slot, length, t);
      assert h == pre + [e];
      if e.Handled? {
        AdmittedCall(pre, e.call, e.outcome, slot, length, t);
      }
    }
  }

  /** In every run of calls, sweeps, cleanups and evictions of other lists, and for
      every window of its length ending at any moment: a socket has at most `max` admitted
      calls of an event, a session twice and an address three times as many, and an
      address the global cap across all events. */
  lemma EveryWindowIsBounded(cfg: Config, h: seq<Event>, slot: Slot, t: int)
    requires IsRun(cfg, h) && NeverEvicted(h, slot) && SweepCovers(cfg, slot)
    ensures slot.GlobalSlot? ==> AdmittedCalls(h, slot, cfg.globalWindow, t) <= cfg.globalMax
    ensures !slot.GlobalSlot? ==>
              var limit := LimitFor(cfg, slot.event);
              var admitted := AdmittedCalls(h, slot, limit.window, t);
              && (slot.SocketSlot? ==> admitted <= limit.max)
              && (slot.SessionSlot? ==> admitted <= 2 * limit.max)
              && (slot.IpSlot? ==> admitted <= 3 * limit.max)
  {
    AdmittedAreCounted(h, slot, WindowOf(cfg, slot), t);
    AdmissionsAreLogged(h, slot, t - WindowOf(cfg, slot), t);
    LogIsBounded(cfg, h, slot, t);
  }

  /** The calls counted against a slot in the `length` milliseconds up to `t`: the admitted
      ones, and for a session also those that only the address layer refused. */
  function CountedCalls(h: seq<Event>, slot: Slot, length: nat, t: int): nat {
    if h == [] then 0 else
      var before := CountedCalls(h[..|h|-1], slot, length, t);
      match h[|h|-1]
      case Handled(call, outcome) =>
        before + if Concerns(call, slot) && t - length < call.now <= t
                    && (outcome == Admitted || (slot.SessionSlot? && outcome == Refused(IpSlot(call.ip, call.event))))
                 then 1 else 0
      case SocketCleaned(socket) => if slot.SocketSlot? && slot.socket == socket then 0 else before
      case _ => before
  }

  lemma CountedCall(h: seq<Event>, c: Call, o: Outcome, slot: Slot, length: nat, t: int)
    requires CountedCalls(h, slot, length, t) == InWindow(Log(h, slot), t - length, t)
    ensures CountedCalls(h + [Handled(c, o)], slot, length, t) == InWindow(Log(h + [Handled(c, o)], slot), t - length, t)
  {
    assert (h + [Handled(c, o)])[..|h|] == h;
    LogCall(h, c, o, slot);
    UsesWhatConcerns(c, slot);
    InWindowAppend(Log(h, slot), c.now, t - length, t);
  }

  lemma {:induction false} CountedAreLogged(h: seq<Event>, slot: Slot, length: nat, t: int)
    ensures CountedCalls(h, slot, length, t) == InWindow(Log(h, slot), t - length, t)
  {
    if h != [] {
      var pre, e := h[..|h|-1], h[|h|-1];
      CountedAreLogged(pre, slot, length, t);
      assert h == pre + [e];
      if e.Handled? {
        CountedCall(pre, e.call, e.outcome, slot, length, t);
      }
    }
  }

  lemma FullInNumbers(cfg: Config, h: seq<Event>, slot: Slot, now: int)
    ensures slot.GlobalSlot? ==> (LogFull(cfg, h, slot, now) <==> CountedCalls(h, slot, cfg.globalWindow, now) >= cfg.globalMax)
    ensures !slot.GlobalSlot? ==>
              var limit := LimitFor(cfg, slot.event);
              var counted := CountedCalls(h, slot, limit.window, now);
              && (slot.SocketSlot? ==> (LogFull(cfg, h, slot, now) <==> counted >= limit.max))
              && (slot.SessionSlot? ==> (LogFull(cfg, h, slot, now) <==> counted >= 2 * limit.max))
              && (slot.IpSlot? ==> (LogFull(cfg, h, slot, now) <==> counted >= 3 * limit.max))
  {
    CountedAreLogged(h, slot, WindowOf(cfg, slot), now);
  }

  lemma VerdictInNumbers(cfg: Config, h: seq<Event>, c: Call)
    ensures var overall, socket := LogFull(cfg, h, GlobalSlot(c.ip), c.now), LogFull(cfg, h, SocketSlot(c.socket, c.event), c.now);
            var session := c.session.Some? && LogFull(cfg, h, SessionSlot(c.session.value, c.event), c.now);
            var address := LogFull(cfg, h, IpSlot(c.ip, c.event), c.now);
            Verdict(cfg, h, c) ==
              if overall then Refused(GlobalSlot(c.ip)) else if socket then Refused(SocketSlot(c.socket, c.event))
              else if session then Refused(SessionSlot(c.session.value, c.event))
              else if address then Refused(IpSlot(c.ip, c.event)) else Admitted
  {
  }

  /** Each layer refuses exactly when the layers before it did not and its calls counted in
      the window have reached its number: the global cap, `max`, twice and three times
      `max`. */
  lemma RefusedIffFull(cfg: Config, h: seq<Event>, c: Call)
    requires IsRun(cfg, h) && By(h, c.now) && Kept(cfg, h, c)
    ensures var limit, o := LimitFor(cfg, c.event), Handle(cfg, After(cfg, h), c).1;
            var overall := CountedCalls(h, GlobalSlot(c.ip), cfg.globalWindow, c.now) >= cfg.globalMax;
            var socket := CountedCalls(h, SocketSlot(c.socket, c.event), limit.window, c.now) >= limit.max;
            var session := c.session.Some?
              && CountedCalls(h, SessionSlot(c.session.value, c.event), limit.window, c.now) >= 2 * limit.max;
            var address := CountedCalls(h, IpSlot(c.ip, c.event), limit.window, c.now) >= 3 * limit.max;
            && (o == Refused(GlobalSlot(c.ip)) <==> overall)
            && (o == Refused(SocketSlot(c.socket, c.event)) <==> !overall && socket)
            && (c.session.Some? ==> (o == Refused(SessionSlot(c.session.value, c.event)) <==> !overall && !socket && session))
            && (o == Refused(IpSlot(c.ip, c.event)) <==> !overall && !socket && !session && address)
            && (o == Admitted <==> !overall && !socket && !session && !address)
  {
    LimiterDecidesByTheLog(cfg, h, c);
    VerdictInNumbers(cfg, h, c);
    FullInNumbers(cfg, h, GlobalSlot(c.ip), c.now);
    FullInNumbers(cfg, h, SocketSlot(c.socket, c.event), c.now);
    FullInNumbers(cfg, h, IpSlot(c.ip, c.event), c.now);
    if c.session.Some? {
      FullInNumbers(cfg, h, SessionSlot(c.session.value, c.event), c.now);
    }
  }
}
