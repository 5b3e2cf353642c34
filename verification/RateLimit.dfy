/** The socket rate limiter as a state machine over its calls, sweeps, socket
    cleanups and evictions. */
module RateLimit {
  import opened Common
  import opened SlidingWindow

  datatype Limit = Limit(max: nat, window: nat)

  /** Socket ids, sessions, addresses and event names are only compared. */
  type Name = nat

  /** A key of one of the four maps. */
  datatype Slot =
    | SocketSlot(socket: Name, event: Name)
    | SessionSlot(session: Name, event: Name)
    | IpSlot(ip: Name, event: Name)
    | GlobalSlot(ip: Name)

  datatype Config = Config(limits: map<Name, Limit>, globalMax: nat, globalWindow: nat, maxEntries: nat)

  const DEFAULT_RATE_LIMIT: Limit := Limit(5, 5000)
  const SESSION_RATE_LIMIT_MULTIPLIER: nat := 2
  const IP_RATE_LIMIT_MULTIPLIER: nat := 3
  const FALLBACK_SWEEP_WINDOW: nat := 60000

  datatype Call = Call(socket: Name, session: Option<Name>, ip: Name, event: Name, now: int)

  datatype Outcome = Admitted | Refused(slot: Slot)

  function LimitOf(cfg: Config, event: Name): Limit {
    if event in cfg.limits then cfg.limits[event] else DEFAULT_RATE_LIMIT
  }

  function WindowOf(cfg: Config, slot: Slot): nat {
    if slot.GlobalSlot? then cfg.globalWindow else LimitOf(cfg, slot.event).window
  }

  function MaxOf(cfg: Config, slot: Slot): nat {
    match slot
    case SocketSlot(_, event) => LimitOf(cfg, event).max
    case SessionSlot(_, event) => LimitOf(cfg, event).max * SESSION_RATE_LIMIT_MULTIPLIER
    case IpSlot(_, event) => LimitOf(cfg, event).max * IP_RATE_LIMIT_MULTIPLIER
    case GlobalSlot(_) => cfg.globalMax
  }

  /** The four maps as one, and the index of each socket's keys. */
  datatype State = State(lists: map<Slot, seq<int>>, index: map<Name, set<Slot>>)

  const EMPTY: State := State(map[], map[])

  function ListOf(s: State, slot: Slot): seq<int> {
    if slot in s.lists then s.lists[slot] else []
  }

  /** Look a list up, creating it if need be, and compact it to its window. */
  function Visit(cfg: Config, s: State, slot: Slot, now: int): State {
    var index := if !slot.SocketSlot? || slot in s.lists then s.index
                 else s.index[slot.socket := KeysOf(s.index, slot.socket) + {slot}];
    State(s.lists[slot := KeepAfter(ListOf(s, slot), now - WindowOf(cfg, slot))], index)
  }

  function KeysOf(index: map<Name, set<Slot>>, socket: Name): set<Slot> {
    if socket in index then index[socket] else {}
  }

  predicate Full(cfg: Config, s: State, slot: Slot) {
    |ListOf(s, slot)| >= MaxOf(cfg, slot)
  }

  function Push(s: State, slot: Slot, now: int): State {
    s.(lists := s.lists[slot := ListOf(s, slot) + [now]])
  }

  function Global(c: Call): Slot { GlobalSlot(c.ip) }
  function Socket(c: Call): Slot { SocketSlot(c.socket, c.event) }
  function Ip(c: Call): Slot { IpSlot(c.ip, c.event) }
  function Session(c: Call): Slot
    requires c.session.Some?
  {
    SessionSlot(c.session.value, c.event)
  }

  /** One call through the four layers: global address, socket, session, address. */
  function Handle(cfg: Config, s: State, c: Call): (State, Outcome) {
    var s1 := Visit(cfg, s, Global(c), c.now);
    if Full(cfg, s1, Global(c)) then (s1, Refused(Global(c))) else HandleSocket(cfg, s1, c)
  }

  function HandleSocket(cfg: Config, s: State, c: Call): (State, Outcome) {
    var s2 := Visit(cfg, s, Socket(c), c.now);
    if Full(cfg, s2, Socket(c)) then (s2, Refused(Socket(c))) else HandleSession(cfg, s2, c)
  }

  /** The session layer records the call before the address layer may refuse it. */
  function HandleSession(cfg: Config, s: State, c: Call): (State, Outcome) {
    if c.session.None? then HandleIp(cfg, s, c) else
    var s3 := Visit(cfg, s, Session(c), c.now);
    if Full(cfg, s3, Session(c)) then (s3, Refused(Session(c))) else
    HandleIp(cfg, Push(s3, Session(c), c.now), c)
  }

  function HandleIp(cfg: Config, s: State, c: Call): (State, Outcome) {
    var s4 := Visit(cfg, s, Ip(c), c.now);
    if Full(cfg, s4, Ip(c)) then (s4, Refused(Ip(c)))
    else (Push(Push(Push(s4, Socket(c), c.now), Ip(c), c.now), Global(c), c.now), Admitted)
  }

  function CleanupSocket(s: State, socket: Name): State {
    var keys := KeysOf(s.index, socket);
    if keys == {} then s else State(s.lists - keys, s.index - {socket})
  }

  /** The window the periodic sweep keeps for the per-event lists: the largest
      configured one, or a minute when none is configured. */
  ghost predicate IsSweepWindow(limits: map<Name, Limit>, w: nat) {
    if exists e :: e in limits && limits[e].window > 0 then
      (exists e :: e in limits && limits[e].window == w) && (forall e :: e in limits ==> limits[e].window <= w)
    else
      w == FALLBACK_SWEEP_WINDOW
  }

  function SweptList(cfg: Config, list: seq<int>, slot: Slot, now: int, w: nat): seq<int> {
    KeepAfter(list, now - if slot.GlobalSlot? then cfg.globalWindow else w)
  }

  function SweptAway(cfg: Config, s: State, now: int, w: nat): set<Slot> {
    set slot | slot in s.lists && SweptList(cfg, s.lists[slot], slot, now, w) == []
  }

  function Sweep(cfg: Config, s: State, now: int, w: nat): State {
    var gone := SweptAway(cfg, s, now, w);
    State(map slot | slot in s.lists && slot !in gone :: SweptList(cfg, s.lists[slot], slot, now, w),
          map id | id in s.index && s.index[id] - gone != {} :: s.index[id] - gone)
  }

  /** Eviction removes lists only; the index keeps their keys. */
  function Evict(s: State, slots: set<Slot>): State {
    s.(lists := s.lists - slots)
  }

  // ---- Runs ----

  datatype Event =
    | Handled(call: Call, outcome: Outcome)
    | SocketCleaned(socket: Name)
    | Swept(now: int, window: nat)
    | Evicted(slots: set<Slot>)

  function Step(cfg: Config, s: State, e: Event): State {
    match e
    case Handled(call, _) => Handle(cfg, s, call).0
    case SocketCleaned(socket) => CleanupSocket(s, socket)
    case Swept(now, w) => Sweep(cfg, s, now, w)
    case Evicted(slots) => Evict(s, slots)
  }

  function After(cfg: Config, h: seq<Event>): State {
    if h == [] then EMPTY else Step(cfg, After(cfg, h[..|h|-1]), h[|h|-1])
  }

  predicate Timed(e: Event) {
    e.Handled? || e.Swept?
  }

  function TimeOf(e: Event): int
    requires Timed(e)
  {
    if e.Handled? then e.call.now else e.now
  }

  /** Nothing in the run is later than `t`. */
  ghost predicate By(h: seq<Event>, t: int) {
    forall i :: 0 <= i < |h| && Timed(h[i]) ==> TimeOf(h[i]) <= t
  }

  /** The clock does not run backwards, each outcome is the limiter's, and each sweep
      keeps the window the limits ask for. */
  ghost predicate IsRun(cfg: Config, h: seq<Event>) {
    h == [] ||
    (var pre, e := h[..|h|-1], h[|h|-1];
     && IsRun(cfg, pre)
     && (Timed(e) ==> By(pre, TimeOf(e)))
     && (e.Handled? ==> e.outcome == Handle(cfg, After(cfg, pre), e.call).1)
     && (e.Swept? ==> IsSweepWindow(cfg.limits, e.window)))
  }

  // ---- The simple limiter: look it all up in the log ----

  predicate Uses(c: Call, slot: Slot) {
    slot in {Global(c), Socket(c), Ip(c)} || (c.session.Some? && slot == Session(c))
  }

  /** The call is counted against the slot: it was admitted, or it is a session slot
      and only the address layer refused it. */
  predicate Counts(c: Call, o: Outcome, slot: Slot) {
    Uses(c, slot) && (o == Admitted || (slot.SessionSlot? && o == Refused(Ip(c))))
  }

  /** The times of all calls counted against a slot so far. A socket's calls are
      forgotten when the socket is cleaned up. */
  function Log(h: seq<Event>, slot: Slot): seq<int> {
    if h == [] then [] else
      var before := Log(h[..|h|-1], slot);
      match h[|h|-1]
      case Handled(call, outcome) => before + if Counts(call, outcome, slot) then [call.now] else []
      case SocketCleaned(socket) => if slot.SocketSlot? && slot.socket == socket then [] else before
      case _ => before
  }

  /** The call finds the slot's window full in the log. */
  predicate LogFull(cfg: Config, h: seq<Event>, slot: Slot, now: int) {
    InWindow(Log(h, slot), now - WindowOf(cfg, slot), now) >= MaxOf(cfg, slot)
  }

  function Verdict(cfg: Config, h: seq<Event>, c: Call): Outcome {
    if LogFull(cfg, h, Global(c), c.now) then Refused(Global(c))
    else if LogFull(cfg, h, Socket(c), c.now) then Refused(Socket(c))
    else if c.session.Some? && LogFull(cfg, h, Session(c), c.now) then Refused(Session(c))
    else if LogFull(cfg, h, Ip(c), c.now) then Refused(Ip(c))
    else Admitted
  }

  /** The sweep keeps at least the slot's own window. */
  ghost predicate SweepCovers(cfg: Config, slot: Slot) {
    slot.GlobalSlot? || forall w :: IsSweepWindow(cfg.limits, w) ==> WindowOf(cfg, slot) <= w
  }

  ghost predicate NeverEvicted(h: seq<Event>, slot: Slot) {
    forall i :: 0 <= i < |h| && h[i].Evicted? ==> slot !in h[i].slots
  }

  // ---- The index ----

  /** Every socket list is registered under its socket, and only there. */
  ghost predicate Indexed(s: State) {
    && (forall slot :: slot in s.lists && slot.SocketSlot? ==> slot.socket in s.index && slot in s.index[slot.socket])
    && (forall id, slot :: id in s.index && slot in s.index[id] ==> slot.SocketSlot? && slot.socket == id)
    && (forall id :: id in s.index ==> s.index[id] != {})
  }

  lemma VisitIndexed(cfg: Config, s: State, slot: Slot, now: int)
    requires Indexed(s)
    ensures Indexed(Visit(cfg, s, slot, now))
  {
  }

  lemma PushIndexed(s: State, slot: Slot, now: int)
    requires Indexed(s) && slot in s.lists
    ensures Indexed(Push(s, slot, now))
  {
  }

  lemma HandleIndexed(cfg: Config, s: State, c: Call)
    requires Indexed(s)
    ensures Indexed(Handle(cfg, s, c).0)
  {
    VisitIndexed(cfg, s, Global(c), c.now);
    HandleSocketIndexed(cfg, Visit(cfg, s, Global(c), c.now), c);
  }

  lemma HandleSocketIndexed(cfg: Config, s: State, c: Call)
    requires Indexed(s) && Global(c) in s.lists
    ensures Indexed(HandleSocket(cfg, s, c).0)
  {
    VisitIndexed(cfg, s, Socket(c), c.now);
    var s2 := Visit(cfg, s, Socket(c), c.now);
    if c.session.Some? {
      VisitIndexed(cfg, s2, Session(c), c.now);
      var s3 := Visit(cfg, s2, Session(c), c.now);
      PushIndexed(s3, Session(c), c.now);
      HandleIpIndexed(cfg, Push(s3, Session(c), c.now), c);
    } else {
      HandleIpIndexed(cfg, s2, c);
    }
  }

  lemma HandleIpIndexed(cfg: Config, s: State, c: Call)
    requires Indexed(s) && Socket(c) in s.lists && Global(c) in s.lists
    ensures Indexed(HandleIp(cfg, s, c).0)
  {
    VisitIndexed(cfg, s, Ip(c), c.now);
    var s4 := Visit(cfg, s, Ip(c), c.now);
    PushIndexed(s4, Socket(c), c.now);
    PushIndexed(Push(s4, Socket(c), c.now), Ip(c), c.now);
    PushIndexed(Push(Push(s4, Socket(c), c.now), Ip(c), c.now), Global(c), c.now);
  }

  lemma SweepIndexed(cfg: Config, s: State, now: int, w: nat)
    requires Indexed(s)
    ensures Indexed(Sweep(cfg, s, now, w))
  {
    var gone, t := SweptAway(cfg, s, now, w), Sweep(cfg, s, now, w);
    forall slot | slot in t.lists && slot.SocketSlot? ensures slot.socket in t.index && slot in t.index[slot.socket] {
      assert slot in s.index[slot.socket] - gone;
    }
  }

  lemma CleanupIndexed(s: State, socket: Name)
    requires Indexed(s)
    ensures Indexed(CleanupSocket(s, socket))
  {
  }

  /** In every run each live socket list is in its socket's index, through calls,
      sweeps, cleanups and evictions alike. */
  lemma {:induction false} EveryRunIsIndexed(cfg: Config, h: seq<Event>)
    ensures Indexed(After(cfg, h))
  {
    if h != [] {
      var s := After(cfg, h[..|h|-1]);
      EveryRunIsIndexed(cfg, h[..|h|-1]);
      match h[|h|-1]
      case Handled(call, _) => HandleIndexed(cfg, s, call);
      case SocketCleaned(socket) => CleanupIndexed(s, socket);
      case Swept(now, w) => SweepIndexed(cfg, s, now, w);
      case Evicted(slots) =>
    }
  }

  predicate BelongsTo(slot: Slot, socket: Name) {
    slot.SocketSlot? && slot.socket == socket
  }

  lemma CleanupClears(s: State, socket: Name, slot: Slot)
    requires Indexed(s)
    ensures var t := CleanupSocket(s, socket);
            && (BelongsTo(slot, socket) ==> slot !in t.lists)
            && (!BelongsTo(slot, socket) ==> ListOf(t, slot) == ListOf(s, slot))
            && socket !in t.index
  {
    var keys := KeysOf(s.index, socket);
    assert BelongsTo(slot, socket) && slot in s.lists ==> slot in keys;
    assert !BelongsTo(slot, socket) ==> slot !in keys;
  }

  /** So after any run, cleaning up a socket leaves none of its lists behind, and no
      other list is touched. */
  lemma CleanupLeavesNothing(cfg: Config, h: seq<Event>, socket: Name, slot: Slot)
    ensures var t := After(cfg, h + [SocketCleaned(socket)]);
            && (BelongsTo(slot, socket) ==> slot !in t.lists)
            && (!BelongsTo(slot, socket) ==> ListOf(t, slot) == ListOf(After(cfg, h), slot))
            && socket !in t.index
  {
    assert (h + [SocketCleaned(socket)])[..|h|] == h;
    EveryRunIsIndexed(cfg, h);
    CleanupClears(After(cfg, h), socket, slot);
  }
}
