/** The sweep must cover the window of every event it sweeps: with a shorter sweep
    window a bound can be broken, so the premise of the bound is not slack. */
module RateSweep {
  import opened Common
  import opened SlidingWindow
  import opened RateLimit
  import opened RateBounds

  function Zeros(n: nat): (r: seq<int>)
    ensures |r| == n
  {
    if n == 0 then [] else Zeros(n - 1) + [0]
  }

  lemma {:induction false} ZerosAreAfter(n: nat, start: int, end: int)
    requires start < 0 <= end
    ensures KeepAfter(Zeros(n), start) == Zeros(n) && InWindow(Zeros(n), start, end) == n
  {
    if n > 0 {
      ZerosAreAfter(n - 1, start, end);
      KeepAfterAppend(Zeros(n - 1), 0, start);
      InWindowAppend(Zeros(n - 1), 0, start, end);
    }
  }

  lemma {:induction false} ZerosAreNotAfterZero(n: nat)
    ensures KeepAfter(Zeros(n), 0) == []
  {
    if n > 0 {
      ZerosAreNotAfterZero(n - 1);
      KeepAfterAppend(Zeros(n - 1), 0, 0);
    }
  }

  function CallAt(event: Name, now: int): Call {
    Call(1, None, 1, event, now)
  }

  function Burst(event: Name, n: nat): (r: seq<RateLimit.Event>)
    ensures |r| == n
  {
    if n == 0 then [] else Burst(event, n - 1) + [Handled(CallAt(event, 0), Admitted)]
  }

  /** The lists after `n` calls of one socket at time 0. */
  ghost predicate HoldsBurst(s: State, event: Name, n: nat) {
    && ListOf(s, SocketSlot(1, event)) == Zeros(n) && ListOf(s, IpSlot(1, event)) == Zeros(n)
    && |ListOf(s, GlobalSlot(1))| <= n
  }

  lemma SeesRoom(cfg: Config, s: State, event: Name, n: nat)
    requires n < LimitOf(cfg, event).max < cfg.globalMax && 0 < LimitOf(cfg, event).window && HoldsBurst(s, event, n)
    ensures !SeesFull(cfg, s, GlobalSlot(1), 0) && InnerVerdict(cfg, s, CallAt(event, 0)) == Admitted
    ensures Recent(cfg, s, SocketSlot(1, event), 0) == Zeros(n) && Recent(cfg, s, IpSlot(1, event), 0) == Zeros(n)
  {
    ZerosAreAfter(n, 0 - LimitOf(cfg, event).window as int, 0);
  }

  lemma OneMore(cfg: Config, s: State, event: Name, n: nat) returns (t: State)
    requires n < LimitOf(cfg, event).max < cfg.globalMax && 0 < LimitOf(cfg, event).window && HoldsBurst(s, event, n)
    ensures Handle(cfg, s, CallAt(event, 0)) == (t, Admitted)
    ensures HoldsBurst(t, event, n + 1)
  {
    var c := CallAt(event, 0);
    SeesRoom(cfg, s, event, n);
    OneCall(cfg, s, c, SocketSlot(1, event));
    OneCall(cfg, s, c, IpSlot(1, event));
    OneCall(cfg, s, c, GlobalSlot(1));
    t := Handle(cfg, s, c).0;
    GrowsByOne(cfg, s, t, event, n);
  }

  lemma GrowsByOne(cfg: Config, s: State, t: State, event: Name, n: nat)
    requires HoldsBurst(s, event, n)
    requires Recent(cfg, s, SocketSlot(1, event), 0) == Zeros(n) && Recent(cfg, s, IpSlot(1, event), 0) == Zeros(n)
    requires Effect(cfg, s, t, CallAt(event, 0), SocketSlot(1, event), true, true)
    requires Effect(cfg, s, t, CallAt(event, 0), IpSlot(1, event), true, true)
    requires Effect(cfg, s, t, CallAt(event, 0), GlobalSlot(1), true, true)
    ensures HoldsBurst(t, event, n + 1)
  {
  }

  lemma {:induction false} BurstIsHeld(cfg: Config, event: Name, n: nat)
    requires n <= LimitOf(cfg, event).max < cfg.globalMax && 0 < LimitOf(cfg, event).window
    ensures HoldsBurst(After(cfg, Burst(event, n)), event, n)
  {
    if n > 0 {
      BurstIsHeld(cfg, event, n - 1);
      assert Burst(event, n)[..n - 1] == Burst(event, n - 1);
      var t := OneMore(cfg, After(cfg, Burst(event, n - 1)), event, n - 1);
    }
  }

  lemma CallExtendsRun(cfg: Config, h: seq<RateLimit.Event>, c: Call, o: Outcome)
    requires IsRun(cfg, h) && By(h, c.now) && o == Handle(cfg, After(cfg, h), c).1
    ensures IsRun(cfg, h + [Handled(c, o)]) && By(h + [Handled(c, o)], c.now)
  {
    assert (h + [Handled(c, o)])[..|h|] == h;
  }

  lemma SweepExtendsRun(cfg: Config, h: seq<RateLimit.Event>, now: int, w: nat, slot: Slot)
    requires IsRun(cfg, h) && By(h, now) && IsSweepWindow(cfg.limits, w) && NeverEvicted(h, slot)
    ensures var h' := h + [Swept(now, w)];
            && IsRun(cfg, h') && By(h', now) && NeverEvicted(h', slot)
            && After(cfg, h') == Sweep(cfg, After(cfg, h), now, w) && Admissions(h', slot) == Admissions(h, slot)
  {
    assert (h + [Swept(now, w)])[..|h|] == h;
  }

  lemma {:induction false} BurstIsRun(cfg: Config, event: Name, n: nat)
    requires n <= LimitOf(cfg, event).max < cfg.globalMax && 0 < LimitOf(cfg, event).window
    ensures IsRun(cfg, Burst(event, n)) && By(Burst(event, n), 0)
  {
    if n > 0 {
      var h := Burst(event, n - 1);
      BurstIsRun(cfg, event, n - 1);
      BurstIsHeld(cfg, event, n - 1);
      var t := OneMore(cfg, After(cfg, h), event, n - 1);
      CallExtendsRun(cfg, h, CallAt(event, 0), Admitted);
    }
  }

  lemma {:induction false} BurstIsCounted(event: Name, n: nat)
    ensures Admissions(Burst(event, n), SocketSlot(1, event)) == Zeros(n)
    ensures NeverEvicted(Burst(event, n), SocketSlot(1, event))
  {
    if n > 0 {
      BurstIsCounted(event, n - 1);
      AdmissionCall(Burst(event, n - 1), CallAt(event, 0), Admitted, SocketSlot(1, event));
    }
  }

  lemma SweepForgetsTheBurst(cfg: Config, s: State, event: Name, w: nat)
    requires HoldsBurst(s, event, LimitOf(cfg, event).max)
    ensures var t := Sweep(cfg, s, w, w);
            ListOf(t, SocketSlot(1, event)) == [] && ListOf(t, IpSlot(1, event)) == []
            && |ListOf(t, GlobalSlot(1))| <= LimitOf(cfg, event).max
  {
    ZerosAreNotAfterZero(LimitOf(cfg, event).max);
    SweepCompacts(cfg, s, w, w, SocketSlot(1, event));
    SweepCompacts(cfg, s, w, w, IpSlot(1, event));
    SweepCompacts(cfg, s, w, w, GlobalSlot(1));
  }

  lemma EmptyListsAdmit(cfg: Config, s: State, c: Call)
    requires c.session == None && ListOf(s, Socket(c)) == [] && ListOf(s, Ip(c)) == []
    requires 0 < LimitOf(cfg, c.event).max && |ListOf(s, Global(c))| < cfg.globalMax
    ensures Handle(cfg, s, c).1 == Admitted
  {
    OneCall(cfg, s, c, Socket(c));
  }

  /** When an event's window is longer than what the sweep keeps, a burst up to its
      limit, one sweep and one more call put `max + 1` admitted calls of one socket
      into one window. */
  lemma ShortSweepBreaksTheBound(cfg: Config, event: Name) returns (h: seq<RateLimit.Event>, t: int)
    requires !SweepCovers(cfg, SocketSlot(1, event))
    requires 0 < LimitOf(cfg, event).max < cfg.globalMax
    ensures IsRun(cfg, h) && NeverEvicted(h, SocketSlot(1, event))
    ensures InWindow(Admissions(h, SocketSlot(1, event)), t - WindowOf(cfg, SocketSlot(1, event)), t)
            == MaxOf(cfg, SocketSlot(1, event)) + 1
  {
    var slot, max := SocketSlot(1, event), LimitOf(cfg, event).max;
    var w: nat :| IsSweepWindow(cfg.limits, w) && w < WindowOf(cfg, slot);
    t := w;
    var swept := BurstThenSweep(cfg, event, w);
    h := OneMoreCall(cfg, event, w, swept);
    OneTooMany(max, w, WindowOf(cfg, slot));
  }

  lemma OneTooMany(max: nat, w: nat, window: nat)
    requires w < window
    ensures InWindow(Zeros(max) + [w], w - window, w) == max + 1
  {
    ZerosAreAfter(max, w - window, w);
    InWindowAppend(Zeros(max), w, w - window, w);
  }

  lemma OneMoreCall(cfg: Config, event: Name, w: nat, swept: seq<RateLimit.Event>) returns (h: seq<RateLimit.Event>)
    requires IsRun(cfg, swept) && By(swept, w) && NeverEvicted(swept, SocketSlot(1, event))
    requires 0 < LimitOf(cfg, event).max < cfg.globalMax
    requires var s := After(cfg, swept);
             ListOf(s, SocketSlot(1, event)) == [] && ListOf(s, IpSlot(1, event)) == []
             && |ListOf(s, GlobalSlot(1))| <= LimitOf(cfg, event).max
    ensures IsRun(cfg, h) && NeverEvicted(h, SocketSlot(1, event))
    ensures Admissions(h, SocketSlot(1, event)) == Admissions(swept, SocketSlot(1, event)) + [w]
  {
    var c := CallAt(event, w);
    EmptyListsAdmit(cfg, After(cfg, swept), c);
    CallExtendsRun(cfg, swept, c, Admitted);
    h := swept + [Handled(c, Admitted)];
    AdmissionCall(swept, c, Admitted, SocketSlot(1, event));
  }

  lemma BurstThenSweep(cfg: Config, event: Name, w: nat) returns (h: seq<RateLimit.Event>)
    requires IsSweepWindow(cfg.limits, w)
    requires LimitOf(cfg, event).max < cfg.globalMax && 0 < LimitOf(cfg, event).window
    ensures IsRun(cfg, h) && By(h, w) && NeverEvicted(h, SocketSlot(1, event))
    ensures var s := After(cfg, h);
            ListOf(s, SocketSlot(1, event)) == [] && ListOf(s, IpSlot(1, event)) == []
            && |ListOf(s, GlobalSlot(1))| <= LimitOf(cfg, event).max
    ensures Admissions(h, SocketSlot(1, event)) == Zeros(LimitOf(cfg, event).max)
  {
    var max := LimitOf(cfg, event).max;
    var burst := Burst(event, max);
    BurstIsRun(cfg, event, max);
    assert By(burst, w);
    BurstIsCounted(event, max);
    BurstIsHeld(cfg, event, max);
    h := burst + [Swept(w, w)];
    SweepExtendsRun(cfg, burst, w, w, SocketSlot(1, event));
    SweepForgetsTheBurst(cfg, After(cfg, burst), event, w);
  }
}
