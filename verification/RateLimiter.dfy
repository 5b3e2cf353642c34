/** The limiter's closure: four maps of timestamp lists and the socket key index,
    changed in place by its operations. */
module RateLimiter {
  import opened Common
  import opened SlidingWindow
  import opened RateLimit
  import opened RateMaps

  /** A tenth, rounded up. */
  function TenthOf(total: nat): (r: nat)
    ensures 10 * r - 10 < total <= 10 * r
  {
    (total + 9) / 10
  }

  /** How many of so many lists an eviction removes. */
  function Excess(cfg: Config, total: nat): nat {
    if total <= cfg.maxEntries then 0 else TenthOf(total)
  }

  class Limiter {
    const cfg: Config
    var socketRequests: Lists
    var sessionRequests: Lists
    var ipRequests: Lists
    var globalIPRequests: Lists
    var socketKeyIndex: map<Name, set<Slot>>

    ghost predicate Valid()
      reads this
    {
      Kinds(socketRequests, sessionRequests, ipRequests, globalIPRequests) && Registered(socketRequests, socketKeyIndex)
    }

    ghost function Abstract(): State
      reads this
    {
      State(Joined(socketRequests, sessionRequests, ipRequests, globalIPRequests), socketKeyIndex)
    }

    constructor (cfg: Config)
      ensures Valid() && this.cfg == cfg && Abstract() == EMPTY
    {
      this.cfg := cfg;
      socketRequests, sessionRequests, ipRequests, globalIPRequests := map[], map[], map[], map[];
      socketKeyIndex := map[];
    }

    method VisitGlobal(c: Call) returns (count: nat)
      requires Valid()
      modifies this`globalIPRequests
      ensures Valid() && Abstract() == Visit(cfg, old(Abstract()), Global(c), c.now)
      ensures count == |ListOf(Abstract(), Global(c))|
    {
      JoinedLookup(socketRequests, sessionRequests, ipRequests, globalIPRequests, Global(c));
      var timestamps := Compact(Lookup(globalIPRequests, Global(c)), c.now - cfg.globalWindow);
      GlobalUpdate(socketRequests, sessionRequests, ipRequests, globalIPRequests, Global(c), timestamps);
      globalIPRequests := globalIPRequests[Global(c) := timestamps];
      count := |timestamps|;
    }

    method VisitSocket(c: Call, limit: Limit) returns (count: nat)
      requires Valid() && limit == LimitOf(cfg, c.event)
      modifies this`socketRequests, this`socketKeyIndex
      ensures Valid() && Abstract() == Visit(cfg, old(Abstract()), Socket(c), c.now)
      ensures count == |ListOf(Abstract(), Socket(c))|
    {
      ghost var a, b, p, g, index := socketRequests, sessionRequests, ipRequests, globalIPRequests, socketKeyIndex;
      var timestamps := Compact(Lookup(socketRequests, Socket(c)), c.now - limit.window);
      IndexAndPut(c, timestamps);
      ghost var a', index' := socketRequests, socketKeyIndex;
      SocketVisited(cfg, a, b, p, g, index, c, timestamps, a', index');
      count := |timestamps|;
    }

    /** Store a socket's list, registering a new key under its socket. */
    method IndexAndPut(c: Call, timestamps: seq<int>)
      modifies this`socketRequests, this`socketKeyIndex
      ensures socketRequests == old(socketRequests)[Socket(c) := timestamps]
      ensures socketKeyIndex == Indexing(old(socketRequests), old(socketKeyIndex), Socket(c))
    {
      if Socket(c) !in socketRequests {
        if c.socket !in socketKeyIndex {
          socketKeyIndex := socketKeyIndex[c.socket := {}];
        }
        socketKeyIndex := socketKeyIndex[c.socket := socketKeyIndex[c.socket] + {Socket(c)}];
      }
      socketRequests := socketRequests[Socket(c) := timestamps];
    }

    method VisitSession(c: Call, limit: Limit) returns (count: nat)
      requires Valid() && limit == LimitOf(cfg, c.event) && c.session.Some?
      modifies this`sessionRequests
      ensures Valid() && Abstract() == Visit(cfg, old(Abstract()), Session(c), c.now)
      ensures count == |ListOf(Abstract(), Session(c))|
    {
      JoinedLookup(socketRequests, sessionRequests, ipRequests, globalIPRequests, Session(c));
      var timestamps := Compact(Lookup(sessionRequests, Session(c)), c.now - limit.window);
      SessionUpdate(socketRequests, sessionRequests, ipRequests, globalIPRequests, Session(c), timestamps);
      sessionRequests := sessionRequests[Session(c) := timestamps];
      count := |timestamps|;
    }

    method VisitIp(c: Call, limit: Limit) returns (count: nat)
      requires Valid() && limit == LimitOf(cfg, c.event)
      modifies this`ipRequests
      ensures Valid() && Abstract() == Visit(cfg, old(Abstract()), Ip(c), c.now)
      ensures count == |ListOf(Abstract(), Ip(c))|
    {
      JoinedLookup(socketRequests, sessionRequests, ipRequests, globalIPRequests, Ip(c));
      var timestamps := Compact(Lookup(ipRequests, Ip(c)), c.now - limit.window);
      IpUpdate(socketRequests, sessionRequests, ipRequests, globalIPRequests, Ip(c), timestamps);
      ipRequests := ipRequests[Ip(c) := timestamps];
      count := |timestamps|;
    }

    /** Append the call's time to one list that the call has visited. */
    method Record(slot: Slot, now: int)
      requires Valid() && slot in Abstract().lists
      modifies this`socketRequests, this`sessionRequests, this`ipRequests, this`globalIPRequests
      ensures Valid() && Abstract() == Push(old(Abstract()), slot, now)
    {
      ghost var a, b, p, g := socketRequests, sessionRequests, ipRequests, globalIPRequests;
      JoinedLookup(a, b, p, g, slot);
      match slot {
        case SocketSlot(_, _) => socketRequests := socketRequests[slot := socketRequests[slot] + [now]];
        case SessionSlot(_, _) => sessionRequests := sessionRequests[slot := sessionRequests[slot] + [now]];
        case IpSlot(_, _) => ipRequests := ipRequests[slot := ipRequests[slot] + [now]];
        case GlobalSlot(_) => globalIPRequests := globalIPRequests[slot := globalIPRequests[slot] + [now]];
      }
      ghost var a', b', p', g' := socketRequests, sessionRequests, ipRequests, globalIPRequests;
      Written(a, b, p, g, socketKeyIndex, slot, Lookup(Joined(a, b, p, g), slot) + [now], a', b', p', g');
    }

    /** The middleware for one call of one event. */
    method Check(c: Call) returns (o: Outcome)
      requires Valid()
      modifies this
      ensures Valid()
      ensures (Abstract(), o) == Handle(cfg, old(Abstract()), c)
    {
      var limit := LimitOf(cfg, c.event);
      var globalCount := VisitGlobal(c);
      if globalCount >= cfg.globalMax {
        return Refused(Global(c));
      }
      o := CheckSocket(c, limit);
    }

    method CheckSocket(c: Call, limit: Limit) returns (o: Outcome)
      requires Valid() && limit == LimitOf(cfg, c.event) && Global(c) in Abstract().lists
      modifies this
      ensures Valid()
      ensures (Abstract(), o) == HandleSocket(cfg, old(Abstract()), c)
    {
      var socketCount := VisitSocket(c, limit);
      if socketCount >= limit.max {
        return Refused(Socket(c));
      }
      o := CheckSession(c, limit);
    }

    method CheckSession(c: Call, limit: Limit) returns (o: Outcome)
      requires Valid() && limit == LimitOf(cfg, c.event)
      requires Global(c) in Abstract().lists && Socket(c) in Abstract().lists
      modifies this
      ensures Valid()
      ensures (Abstract(), o) == HandleSession(cfg, old(Abstract()), c)
    {
      if c.session.Some? {
        var sessionLimit := limit.max * SESSION_RATE_LIMIT_MULTIPLIER;
        var sessionCount := VisitSession(c, limit);
        if sessionCount >= sessionLimit {
          return Refused(Session(c));
        }
        Record(Session(c), c.now);
      }
      o := CheckIp(c, limit);
    }

    /** The address layer, and the bookkeeping of an admitted call. */
    method CheckIp(c: Call, limit: Limit) returns (o: Outcome)
      requires Valid() && limit == LimitOf(cfg, c.event)
      requires Global(c) in Abstract().lists && Socket(c) in Abstract().lists
      modifies this
      ensures Valid()
      ensures (Abstract(), o) == HandleIp(cfg, old(Abstract()), c)
    {
      var ipLimit := limit.max * IP_RATE_LIMIT_MULTIPLIER;
      var ipCount := VisitIp(c, limit);
      if ipCount >= ipLimit {
        return Refused(Ip(c));
      }
      Record(Socket(c), c.now);
      Record(Ip(c), c.now);
      Record(Global(c), c.now);
      o := Admitted;
    }

    method CleanupSocket(socketId: Name)
      requires Valid()
      modifies this
      ensures Valid()
      ensures Abstract() == RateLimit.CleanupSocket(old(Abstract()), socketId)
    {
      if socketId in socketKeyIndex && |socketKeyIndex[socketId]| > 0 {
        var keys := socketKeyIndex[socketId];
        KeysDeleted(socketRequests, sessionRequests, ipRequests, globalIPRequests, socketKeyIndex, socketId);
        DeleteSocketKeys(keys);
        socketKeyIndex := socketKeyIndex - {socketId};
      }
    }

    method DeleteSocketKeys(keys: set<Slot>)
      modifies this`socketRequests
      ensures socketRequests == old(socketRequests) - keys
    {
      var todo := keys;
      while todo != {}
        invariant todo <= keys
        invariant socketRequests == old(socketRequests) - (keys - todo)
        decreases todo
      {
        var key :| key in todo;
        socketRequests := socketRequests - {key};
        todo := todo - {key};
      }
    }

    /** The largest configured window, or a minute. */
    method SweepWindow() returns (w: nat)
      ensures IsSweepWindow(cfg.limits, w)
    {
      var todo := cfg.limits.Keys;
      w := 0;
      while todo != {}
        invariant todo <= cfg.limits.Keys
        invariant forall e :: e in cfg.limits && e !in todo ==> cfg.limits[e].window <= w
        invariant w > 0 ==> exists e :: e in cfg.limits && cfg.limits[e].window == w
        decreases todo
      {
        var e :| e in todo;
        if cfg.limits[e].window > w {
          w := cfg.limits[e].window;
        }
        todo := todo - {e};
      }
      if w == 0 {
        w := FALLBACK_SWEEP_WINDOW;
      }
    }

    /** The periodic sweep, up to the eviction it ends with. */
    method SweepStale(now: int) returns (ghost maxWindow: nat)
      requires Valid()
      modifies this
      ensures Valid()
      ensures IsSweepWindow(cfg.limits, maxWindow)
      ensures Abstract() == Sweep(cfg, old(Abstract()), now, maxWindow)
    {
      var window := SweepWindow();
      maxWindow := window;
      SweepAll(now, window);
    }

    method SweepAll(now: int, window: nat)
      requires Valid()
      modifies this
      ensures Valid() && Abstract() == Sweep(cfg, old(Abstract()), now, window)
    {
      ghost var a, b, c, d, index := socketRequests, sessionRequests, ipRequests, globalIPRequests, socketKeyIndex;
      SweepMaps(now - window, now - cfg.globalWindow);
      ghost var a', b', c', d', index' := socketRequests, sessionRequests, ipRequests, globalIPRequests, socketKeyIndex;
      SweptWhole(cfg, a, b, c, d, index, a', b', c', d', index', now, window);
      assert Abstract() == State(Joined(a', b', c', d'), index');
    }

    method SweepMaps(windowStart: int, globalWindowStart: int)
      requires Valid()
      modifies this
      ensures socketRequests == Compacted(old(socketRequests), windowStart)
      ensures sessionRequests == Compacted(old(sessionRequests), windowStart)
      ensures ipRequests == Compacted(old(ipRequests), windowStart)
      ensures globalIPRequests == Compacted(old(globalIPRequests), globalWindowStart)
      ensures socketKeyIndex == Pruned(old(socketKeyIndex), SweptFrom(old(socketRequests), windowStart))
    {
      SweepSockets(windowStart);
      sessionRequests := SweepMap(sessionRequests, windowStart);
      ipRequests := SweepMap(ipRequests, windowStart);
      globalIPRequests := SweepMap(globalIPRequests, globalWindowStart);
    }

    /** The socket map's part of the sweep also keeps the index in step. */
    method SweepSockets(windowStart: int)
      requires IndexOf(socketKeyIndex) && forall k :: k in socketRequests ==> k.SocketSlot?
      modifies this`socketRequests, this`socketKeyIndex
      ensures socketRequests == Compacted(old(socketRequests), windowStart)
      ensures socketKeyIndex == Pruned(old(socketKeyIndex), SweptFrom(old(socketRequests), windowStart))
    {
      var todo := socketRequests.Keys;
      ghost var m, index := socketRequests, socketKeyIndex;
      ghost var gone: set<Slot> := {};
      PrunedNothing(index);
      while todo != {}
        invariant todo <= m.Keys
        invariant socketRequests == PartlyCompacted(m, todo, windowStart)
        invariant gone == SweptFrom(m, windowStart) - todo
        invariant socketKeyIndex == Pruned(index, gone)
        decreases todo
      {
        var key :| key in todo;
        CompactedStep(m, todo, key, windowStart);
        todo := todo - {key};
        gone := SweepSocketKey(key, windowStart, index, gone);
      }
      assert gone == SweptFrom(m, windowStart);
    }

    method SweepSocketKey(key: Slot, windowStart: int, ghost index: map<Name, set<Slot>>, ghost gone: set<Slot>)
      returns (ghost more: set<Slot>)
      requires IndexOf(index) && socketKeyIndex == Pruned(index, gone) && key in socketRequests && key.SocketSlot?
      modifies this`socketRequests, this`socketKeyIndex
      ensures var kept := KeepAfter(old(socketRequests[key]), windowStart);
              && more == (if kept == [] then gone + {key} else gone) && socketKeyIndex == Pruned(index, more)
              && socketRequests == if kept == [] then old(socketRequests) - {key} else old(socketRequests)[key := kept]
    {
      var kept := Compact(socketRequests[key], windowStart);
      more := gone;
      if |kept| == 0 {
        socketRequests := socketRequests - {key};
        Unindex(key, index, gone);
        more := gone + {key};
      } else {
        socketRequests := socketRequests[key := kept];
      }
    }

    /** Forget one key of a socket, and the socket with its last key. */
    method Unindex(key: Slot, ghost index: map<Name, set<Slot>>, ghost gone: set<Slot>)
      requires IndexOf(index) && key.SocketSlot? && socketKeyIndex == Pruned(index, gone)
      modifies this`socketKeyIndex
      ensures socketKeyIndex == Pruned(index, gone + {key})
    {
      PrunedStep(index, gone, key);
      if key.socket in socketKeyIndex {
        var indexSet := socketKeyIndex[key.socket] - {key};
        if |indexSet| == 0 {
          socketKeyIndex := socketKeyIndex - {key.socket};
        } else {
          socketKeyIndex := socketKeyIndex[key.socket := indexSet];
        }
      }
    }

    function GetSize(): (r: nat)
      requires Valid()
      reads this
      ensures r == |Abstract().lists|
    {
      JoinedSize(socketRequests, sessionRequests, ipRequests, globalIPRequests);
      |socketRequests| + |sessionRequests| + |ipRequests| + |globalIPRequests|
    }

    method AllEntries() returns (all: seq<Entry>)
      requires Valid()
      ensures AreEntries(all, Abstract().lists)
    {
      DisjointKinds(socketRequests, sessionRequests, ipRequests, globalIPRequests);
      all := EntriesOf(socketRequests);
      var more := EntriesOf(sessionRequests);
      EntriesJoin(all, socketRequests, more, sessionRequests);
      all := all + more;
      more := EntriesOf(ipRequests);
      EntriesJoin(all, socketRequests + sessionRequests, more, ipRequests);
      all := all + more;
      more := EntriesOf(globalIPRequests);
      EntriesJoin(all, socketRequests + sessionRequests + ipRequests, more, globalIPRequests);
      all := all + more;
    }

    method Delete(slot: Slot)
      requires Valid()
      modifies this`socketRequests, this`sessionRequests, this`ipRequests, this`globalIPRequests
      ensures Valid() && Abstract() == Evict(old(Abstract()), {slot})
    {
      ghost var a, b, p, g := socketRequests, sessionRequests, ipRequests, globalIPRequests;
      match slot {
        case SocketSlot(_, _) => socketRequests := socketRequests - {slot};
        case SessionSlot(_, _) => sessionRequests := sessionRequests - {slot};
        case IpSlot(_, _) => ipRequests := ipRequests - {slot};
        case GlobalSlot(_) => globalIPRequests := globalIPRequests - {slot};
      }
      ghost var a', b', p', g' := socketRequests, sessionRequests, ipRequests, globalIPRequests;
      Deleted(a, b, p, g, socketKeyIndex, slot, a', b', p', g');
    }

    /** Remove the tenth of the lists that is least recently active, once there are too
        many. */
    method PerformLRUEviction() returns (removed: nat, ghost gone: set<Slot>)
      requires Valid()
      modifies this`socketRequests, this`sessionRequests, this`ipRequests, this`globalIPRequests
      ensures Valid() && Abstract() == Evict(old(Abstract()), gone)
      ensures OldestFirst(old(Abstract()).lists, gone)
      ensures removed == |gone| == old(GetSize()) - GetSize()
      ensures removed == Excess(cfg, old(GetSize()))
    {
      ghost var s := Abstract();
      removed, gone := 0, {};
      if GetSize() <= cfg.maxEntries {
        NothingEvicted(s);
        return;
      }
      var entriesToRemove := TenthOf(GetSize());
      var all := AllEntries();
      ByActivityEntries(all);
      all := ByActivity(all);
      removed := DeleteFirst(all, entriesToRemove);
      gone := FirstSlots(all, removed);
      FirstAreOldest(all, s.lists, removed);
      EvictSize(s, gone);
    }

    method DeleteFirst(all: seq<Entry>, entriesToRemove: nat) returns (removed: nat)
      requires Valid() && Distinct(all)
      modifies this`socketRequests, this`sessionRequests, this`ipRequests, this`globalIPRequests
      ensures Valid() && removed == Min(entriesToRemove, |all|) == |FirstSlots(all, removed)|
      ensures Abstract() == Evict(old(Abstract()), FirstSlots(all, removed))
    {
      ghost var s, gone := Abstract(), {};
      removed := 0;
      NothingEvicted(s);
      while removed < entriesToRemove && removed < |all|
        invariant removed <= |all| && removed <= entriesToRemove
        invariant gone == FirstSlots(all, removed) && |gone| == removed
        invariant Valid() && Abstract() == Evict(s, gone)
      {
        FirstSlotsGrow(all, removed);
        EvictMore(s, gone, all[removed].slot);
        Delete(all[removed].slot);
        gone := gone + {all[removed].slot};
        removed := removed + 1;
      }
    }

    method CleanupStale(now: int) returns (ghost maxWindow: nat, ghost gone: set<Slot>)
      requires Valid()
      modifies this
      ensures Valid() && IsSweepWindow(cfg.limits, maxWindow)
      ensures Abstract() == Evict(Sweep(cfg, old(Abstract()), now, maxWindow), gone)
      ensures OldestFirst(Sweep(cfg, old(Abstract()), now, maxWindow).lists, gone)
      ensures |gone| == Excess(cfg, |Sweep(cfg, old(Abstract()), now, maxWindow).lists|)
    {
      maxWindow := SweepStale(now);
      var removed;
      removed, gone := PerformLRUEviction();
    }
  }
}
