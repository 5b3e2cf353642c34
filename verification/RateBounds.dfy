/** The compacted lists decide as the full log would, and so bound every window. */
module RateBounds {
  import opened SlidingWindow
  import opened RateLimit

  // ---- What one call does to one list ----

  lemma VisitList(cfg: Config, s: State, visited: Slot, now: int, slot: Slot)
    ensures ListOf(Visit(cfg, s, visited, now), slot) ==
            if slot == visited then KeepAfter(ListOf(s, slot), now - WindowOf(cfg, slot)) else ListOf(s, slot)
  {
  }

  lemma PushList(s: State, pushed: Slot, now: int, slot: Slot)
    ensures ListOf(Push(s, pushed, now), slot) == if slot == pushed then ListOf(s, slot) + [now] else ListOf(s, slot)
  {
  }

  /** The slot's list as a call sees it when it gets that far. */
  function Recent(cfg: Config, s: State, slot: Slot, now: int): seq<int> {
    KeepAfter(ListOf(s, slot), now - WindowOf(cfg, slot))
  }

  predicate SeesFull(cfg: Config, s: State, slot: Slot, now: int) {
    |Recent(cfg, s, slot, now)| >= MaxOf(cfg, slot)
  }

  /** From a layer on, a call appends its time to the lists it counts against, and
      compacts the lists of the layers it still visits. */
  predicate Effect(cfg: Config, s: State, t: State, c: Call, slot: Slot, counted: bool, visited: bool) {
    var list, recent := ListOf(s, slot), Recent(cfg, s, slot, c.now);
    if counted then ListOf(t, slot) == (if visited then recent else list) + [c.now]
    else (ListOf(t, slot) == list || (visited && ListOf(t, slot) == recent))
  }

  lemma IpLayer(cfg: Config, s: State, c: Call, slot: Slot)
    ensures var (t, o) := HandleIp(cfg, s, c);
            && o == (if SeesFull(cfg, s, Ip(c), c.now) then Refused(Ip(c)) else Admitted)
            && Effect(cfg, s, t, c, slot, o == Admitted && slot in {Socket(c), Ip(c), Global(c)}, slot == Ip(c))
  {
    VisitList(cfg, s, Ip(c), c.now, slot);
    VisitList(cfg, s, Ip(c), c.now, Ip(c));
    var s4 := Visit(cfg, s, Ip(c), c.now);
    PushList(s4, Socket(c), c.now, slot);
    PushList(Push(s4, Socket(c), c.now), Ip(c), c.now, slot);
    PushList(Push(Push(s4, Socket(c), c.now), Ip(c), c.now), Global(c), c.now, slot);
  }

  predicate FromSession(c: Call, slot: Slot) {
    slot == Ip(c) || (c.session.Some? && slot == Session(c))
  }

  lemma SessionLayer(cfg: Config, s: State, c: Call, slot: Slot)
    ensures var (t, o) := HandleSession(cfg, s, c);
            && o == (if c.session.Some? && SeesFull(cfg, s, Session(c), c.now) then Refused(Session(c)) else
                     if SeesFull(cfg, s, Ip(c), c.now) then Refused(Ip(c)) else Admitted)
            && Effect(cfg, s, t, c, slot, Counts(c, o, slot), FromSession(c, slot))
  {
    if c.session.Some? {
      var s3 := Visit(cfg, s, Session(c), c.now);
      VisitList(cfg, s, Session(c), c.now, slot);
      VisitList(cfg, s, Session(c), c.now, Session(c));
      VisitList(cfg, s, Session(c), c.now, Ip(c));
      PushList(s3, Session(c), c.now, slot);
      PushList(s3, Session(c), c.now, Ip(c));
      IpLayer(cfg, Push(s3, Session(c), c.now), c, slot);
    } else {
      IpLayer(cfg, s, c, slot);
    }
  }

  /** What the layers after the global one decide. */
  function InnerVerdict(cfg: Config, s: State, c: Call): Outcome {
    if SeesFull(cfg, s, Socket(c), c.now) then Refused(Socket(c))
    else if c.session.Some? && SeesFull(cfg, s, Session(c), c.now) then Refused(Session(c))
    else if SeesFull(cfg, s, Ip(c), c.now) then Refused(Ip(c))
    else Admitted
  }

  lemma SocketLayer(cfg: Config, s: State, c: Call, slot: Slot)
    ensures var (t, o) := HandleSocket(cfg, s, c);
            && o == InnerVerdict(cfg, s, c)
            && Effect(cfg, s, t, c, slot, Counts(c, o, slot), slot == Socket(c) || FromSession(c, slot))
  {
    var s2 := Visit(cfg, s, Socket(c), c.now);
    VisitList(cfg, s, Socket(c), c.now, slot);
    VisitList(cfg, s, Socket(c), c.now, Socket(c));
    VisitList(cfg, s, Socket(c), c.now, Ip(c));
    if c.session.Some? {
      VisitList(cfg, s, Socket(c), c.now, Session(c));
    }
    SessionLayer(cfg, s2, c, slot);
  }

  /** The outcome is decided by the four recent lists alone, the first full one
      refusing, and a call appends its time to exactly the lists it counts against;
      any other list it reaches is only compacted. */
  lemma OneCall(cfg: Config, s: State, c: Call, slot: Slot)
    ensures var (t, o) := Handle(cfg, s, c);
            && o == (if SeesFull(cfg, s, Global(c), c.now) then Refused(Global(c)) else InnerVerdict(cfg, s, c))
            && Effect(cfg, s, t, c, slot, Counts(c, o, slot), Uses(c, slot))
  {
    var s1 := Visit(cfg, s, Global(c), c.now);
    VisitList(cfg, s, Global(c), c.now, slot);
    VisitList(cfg, s, Global(c), c.now, Global(c));
    VisitList(cfg, s, Global(c), c.now, Socket(c));
    VisitList(cfg, s, Global(c), c.now, Ip(c));
    if c.session.Some? {
      VisitList(cfg, s, Global(c), c.now, Session(c));
    }
    SocketLayer(cfg, s1, c, slot);
  }

  // ---- The lists agree with the log ----

  lemma {:induction false} LogBy(h: seq<Event>, slot: Slot, t: int)
    requires By(h, t)
    ensures AtMost(Log(h, slot), t)
  {
    if h != [] {
      assert By(h[..|h|-1], t);
      LogBy(h[..|h|-1], slot, t);
      assert h[|h|-1].Handled? ==> TimeOf(h[|h|-1]) <= t;
    }
  }

  /** The list and the log agree on everything after `start`. */
  ghost predicate Agree(s: State, h: seq<Event>, slot: Slot, start: int) {
    KeepAfter(ListOf(s, slot), start) == KeepAfter(Log(h, slot), start)
  }

  lemma LogCall(h: seq<Event>, c: Call, o: Outcome, slot: Slot)
    ensures Log(h + [Handled(c, o)], slot) == if Counts(c, o, slot) then Log(h, slot) + [c.now] else Log(h, slot)
  {
    assert (h + [Handled(c, o)])[..|h|] == h;
  }

  lemma AppendAgrees(list: seq<int>, log: seq<int>, list': seq<int>, a: int, start: int, now: int, counted: bool)
    requires a <= start && KeepAfter(list, start) == KeepAfter(log, start)
    requires if counted then list' == KeepAfter(list, a) + [now] else (list' == list || list' == KeepAfter(list, a))
    ensures KeepAfter(list', start) == KeepAfter(if counted then log + [now] else log, start)
  {
    KeepAfterTwice(list, a, start);
    KeepAfterAppend(KeepAfter(list, a), now, start);
    KeepAfterAppend(log, now, start);
  }

  lemma CallKeepsAgreement(cfg: Config, s: State, s': State, h: seq<Event>, c: Call, o: Outcome, slot: Slot, t: int)
    requires Agree(s, h, slot, t - WindowOf(cfg, slot)) && c.now <= t
    requires Effect(cfg, s, s', c, slot, Counts(c, o, slot), Uses(c, slot))
    ensures Agree(s', h + [Handled(c, o)], slot, t - WindowOf(cfg, slot))
  {
    LogCall(h, c, o, slot);
    AppendAgrees(ListOf(s, slot), Log(h, slot), ListOf(s', slot),
                 c.now - WindowOf(cfg, slot), t - WindowOf(cfg, slot), c.now, Counts(c, o, slot));
  }

  lemma SweepCompacts(cfg: Config, s: State, now: int, w: nat, slot: Slot)
    ensures ListOf(Sweep(cfg, s, now, w), slot) == SweptList(cfg, ListOf(s, slot), slot, now, w)
  {
  }

  lemma SweepKeepsAgreement(cfg: Config, s: State, h: seq<Event>, now: int, w: nat, slot: Slot, t: int)
    requires Agree(s, h, slot, t - WindowOf(cfg, slot))
    requires now <= t && (slot.GlobalSlot? || WindowOf(cfg, slot) <= w)
    ensures Agree(Sweep(cfg, s, now, w), h, slot, t - WindowOf(cfg, slot))
  {
    SweepCompacts(cfg, s, now, w, slot);
    KeepAfterTwice(ListOf(s, slot), now - if slot.GlobalSlot? then cfg.globalWindow else w, t - WindowOf(cfg, slot));
  }

  lemma OtherStepKeepsAgreement(cfg: Config, h: seq<Event>, e: Event, slot: Slot, t: int)
    requires Agree(After(cfg, h), h, slot, t - WindowOf(cfg, slot)) && !e.Handled?
    requires e.Swept? ==> e.now <= t && IsSweepWindow(cfg.limits, e.window) && SweepCovers(cfg, slot)
    requires e.Evicted? ==> slot !in e.slots
    ensures Agree(Step(cfg, After(cfg, h), e), h + [e], slot, t - WindowOf(cfg, slot))
  {
    assert (h + [e])[..|h|] == h;
    match e
    case SocketCleaned(socket) =>
      EveryRunIsIndexed(cfg, h);
      CleanupClears(After(cfg, h), socket, slot);
      assert Log(h + [e], slot) == if BelongsTo(slot, socket) then [] else Log(h, slot);
    case Swept(now, w) => SweepKeepsAgreement(cfg, After(cfg, h), h, now, w, slot, t);
    case Evicted(slots) =>
  }

  /** However the list was compacted and swept in between, within its window it is
      the log. */
  lemma {:induction false} ListIsRecentLog(cfg: Config, h: seq<Event>, slot: Slot, t: int)
    requires IsRun(cfg, h) && NeverEvicted(h, slot) && SweepCovers(cfg, slot) && By(h, t)
    ensures Agree(After(cfg, h), h, slot, t - WindowOf(cfg, slot))
  {
    if h == [] { return; }
    var pre, e := h[..|h|-1], h[|h|-1];
    assert By(pre, t) && NeverEvicted(pre, slot) && (Timed(e) ==> TimeOf(e) <= t);
    ListIsRecentLog(cfg, pre, slot, t);
    assert h == pre + [e];
    if e.Handled? {
      OneCall(cfg, After(cfg, pre), e.call, slot);
      CallKeepsAgreement(cfg, After(cfg, pre), After(cfg, h), pre, e.call, e.outcome, slot, t);
    } else {
      OtherStepKeepsAgreement(cfg, pre, e, slot, t);
    }
  }

  lemma SeesFullIsLogFull(cfg: Config, h: seq<Event>, slot: Slot, t: int)
    requires IsRun(cfg, h) && NeverEvicted(h, slot) && SweepCovers(cfg, slot) && By(h, t)
    ensures SeesFull(cfg, After(cfg, h), slot, t) <==> LogFull(cfg, h, slot, t)
  {
    ListIsRecentLog(cfg, h, slot, t);
    LogBy(h, slot, t);
    AgreeingSeesAlike(cfg, After(cfg, h), h, slot, t);
  }

  lemma AgreeingSeesAlike(cfg: Config, s: State, h: seq<Event>, slot: Slot, t: int)
    requires Agree(s, h, slot, t - WindowOf(cfg, slot)) && AtMost(Log(h, slot), t)
    ensures SeesFull(cfg, s, slot, t) <==> LogFull(cfg, h, slot, t)
  {
    KeptAreInWindow(Log(h, slot), t - WindowOf(cfg, slot), t);
  }

  ghost predicate Kept(cfg: Config, h: seq<Event>, c: Call) {
    forall slot :: Uses(c, slot) ==> NeverEvicted(h, slot) && SweepCovers(cfg, slot)
  }

  /** The limiter is the simple one: after any run, a call none of whose lists was
      evicted gets exactly the verdict of looking all its calls up in the log. */
  lemma LimiterDecidesByTheLog(cfg: Config, h: seq<Event>, c: Call)
    requires IsRun(cfg, h) && By(h, c.now) && Kept(cfg, h, c)
    ensures Handle(cfg, After(cfg, h), c).1 == Verdict(cfg, h, c)
  {
    OneCall(cfg, After(cfg, h), c, Global(c));
    assert Uses(c, Global(c)) && Uses(c, Socket(c)) && Uses(c, Ip(c));
    SeesFullIsLogFull(cfg, h, Global(c), c.now);
    SeesFullIsLogFull(cfg, h, Socket(c), c.now);
    SeesFullIsLogFull(cfg, h, Ip(c), c.now);
    if c.session.Some? {
      assert Uses(c, Session(c));
      SeesFullIsLogFull(cfg, h, Session(c), c.now);
    }
  }

  // ---- The bounds ----

  /** The times of the admitted calls that use a slot. */
  function Admissions(h: seq<Event>, slot: Slot): seq<int> {
    if h == [] then [] else
      var before := Admissions(h[..|h|-1], slot);
      match h[|h|-1]
      case Handled(call, outcome) => before + if outcome == Admitted && Uses(call, slot) then [call.now] else []
      case SocketCleaned(socket) => if BelongsTo(slot, socket) then [] else before
      case _ => before
  }

  lemma AdmissionCall(h: seq<Event>, c: Call, o: Outcome, slot: Slot)
    ensures Admissions(h + [Handled(c, o)], slot) ==
            if o == Admitted && Uses(c, slot) then Admissions(h, slot) + [c.now] else Admissions(h, slot)
  {
    assert (h + [Handled(c, o)])[..|h|] == h;
  }

  lemma {:induction false} AdmissionsAreLogged(h: seq<Event>, slot: Slot, a: int, b: int)
    ensures InWindow(Admissions(h, slot), a, b) <= InWindow(Log(h, slot), a, b)
  {
    if h != [] {
      var pre, e := h[..|h|-1], h[|h|-1];
      assert h == pre + [e];
      AdmissionsAreLogged(pre, slot, a, b);
      if e.Handled? {
        AdmissionCall(pre, e.call, e.outcome, slot);
        LogCall(pre, e.call, e.outcome, slot);
        InWindowAppend(Admissions(pre, slot), e.call.now, a, b);
        InWindowAppend(Log(pre, slot), e.call.now, a, b);
      }
    }
  }

  lemma CountedHadRoom(cfg: Config, h: seq<Event>, c: Call, slot: Slot)
    requires IsRun(cfg, h) && NeverEvicted(h, slot) && SweepCovers(cfg, slot) && By(h, c.now)
    requires Counts(c, Handle(cfg, After(cfg, h), c).1, slot)
    ensures !LogFull(cfg, h, slot, c.now)
  {
    OneCall(cfg, After(cfg, h), c, slot);
    SeesFullIsLogFull(cfg, h, slot, c.now);
  }

  lemma RoomForOneMore(log: seq<int>, now: int, w: nat, max: nat, t: int)
    requires AtMost(log, now) && InWindow(log, now - w, now) < max
    requires InWindow(log, t - w, t) <= max
    ensures InWindow(log + [now], t - w, t) <= max
  {
    InWindowAppend(log, now, t - w, t);
    if t - w < now <= t {
      BeyondNow(log, t - w, now, t);
      NarrowerWindow(log, t - w, now, now - w, now);
    }
  }

  lemma CallKeepsBound(cfg: Config, h: seq<Event>, c: Call, o: Outcome, slot: Slot, t: int)
    requires By(h, c.now) && (Counts(c, o, slot) ==> !LogFull(cfg, h, slot, c.now))
    requires InWindow(Log(h, slot), t - WindowOf(cfg, slot), t) <= MaxOf(cfg, slot)
    ensures InWindow(Log(h + [Handled(c, o)], slot), t - WindowOf(cfg, slot), t) <= MaxOf(cfg, slot)
  {
    LogCall(h, c, o, slot);
    if Counts(c, o, slot) {
      LogBy(h, slot, c.now);
      RoomForOneMore(Log(h, slot), c.now, WindowOf(cfg, slot), MaxOf(cfg, slot), t);
    }
  }

  lemma {:induction false} LogIsBounded(cfg: Config, h: seq<Event>, slot: Slot, t: int)
    requires IsRun(cfg, h) && NeverEvicted(h, slot) && SweepCovers(cfg, slot)
    ensures InWindow(Log(h, slot), t - WindowOf(cfg, slot), t) <= MaxOf(cfg, slot)
  {
    if h == [] { return; }
    var pre, e := h[..|h|-1], h[|h|-1];
    assert NeverEvicted(pre, slot);
    LogIsBounded(cfg, pre, slot, t);
    assert h == pre + [e];
    if e.Handled? {
      if Counts(e.call, e.outcome, slot) {
        CountedHadRoom(cfg, pre, e.call, slot);
      }
      CallKeepsBound(cfg, pre, e.call, e.outcome, slot, t);
    }
  }

  lemma {:induction false} BeyondNow(s: seq<int>, a: int, now: int, t: int)
    requires AtMost(s, now) && now <= t
    ensures InWindow(s, a, t) == InWindow(s, a, now)
  {
    if s != [] {
      BeyondNow(s[..|s|-1], a, now, t);
    }
  }
}
