/** The limiter's four maps and what its operations do to them, as one map. */
module RateMaps {
  import opened SlidingWindow
  import opened RateLimit

  type Lists = map<Slot, seq<int>>

  /** What is left of a map once every list was compacted and the empty ones dropped. */
  function Compacted(m: Lists, windowStart: int): Lists {
    map slot | slot in m && KeepAfter(m[slot], windowStart) != [] :: KeepAfter(m[slot], windowStart)
  }

  function SweptFrom(m: Lists, windowStart: int): set<Slot> {
    set slot | slot in m && KeepAfter(m[slot], windowStart) == []
  }

  /** The map when the lists in `todo` are still to be compacted. */
  function PartlyCompacted(m: Lists, todo: set<Slot>, windowStart: int): Lists {
    map slot | slot in m && (slot in todo || KeepAfter(m[slot], windowStart) != []) ::
      if slot in todo then m[slot] else KeepAfter(m[slot], windowStart)
  }

  lemma CompactedStep(m: Lists, todo: set<Slot>, key: Slot, windowStart: int)
    requires key in todo && key in m
    ensures var p, kept := PartlyCompacted(m, todo, windowStart), KeepAfter(m[key], windowStart);
            && key in p && p[key] == m[key]
            && PartlyCompacted(m, todo - {key}, windowStart) == if kept == [] then p - {key} else p[key := kept]
  {
  }

  /** An entry's last activity, 0 for an empty list. */
  function LastActivity(timestamps: seq<int>): int {
    if timestamps == [] then 0 else timestamps[|timestamps|-1]
  }

  datatype Entry = Entry(slot: Slot, lastActivity: int)

  function Insert(e: Entry, s: seq<Entry>): seq<Entry> {
    if s == [] || e.lastActivity <= s[0].lastActivity then [e] + s else [s[0]] + Insert(e, s[1..])
  }

  /** The sort the eviction relies on. */
  function ByActivity(s: seq<Entry>): seq<Entry> {
    if s == [] then [] else Insert(s[0], ByActivity(s[1..]))
  }

  predicate Sorted(s: seq<Entry>) {
    forall i, j :: 0 <= i < j < |s| ==> s[i].lastActivity <= s[j].lastActivity
  }

  lemma {:induction false} InsertSorts(e: Entry, s: seq<Entry>)
    requires Sorted(s)
    ensures Sorted(Insert(e, s))
  {
    if s != [] && e.lastActivity > s[0].lastActivity {
      InsertSorts(e, s[1..]);
      var r := Insert(e, s[1..]);
      forall i | 0 <= i < |r| ensures s[0].lastActivity <= r[i].lastActivity {
        InsertMembers(e, s[1..]);
        assert r[i] in r;
      }
    }
  }

  predicate Distinct(s: seq<Entry>) {
    forall i, j :: 0 <= i < j < |s| ==> s[i].slot != s[j].slot
  }

  /** The entries of a map: each key once, with its last activity. */
  ghost predicate AreEntries(s: seq<Entry>, m: Lists) {
    && |s| == |m| && Distinct(s)
    && forall e :: e in s <==> e.slot in m && e.lastActivity == LastActivity(m[e.slot])
  }

  method EntriesOf(m: Lists) returns (r: seq<Entry>)
    ensures AreEntries(r, m)
  {
    r := [];
    var todo := m.Keys;
    while todo != {}
      invariant todo <= m.Keys
      invariant |r| + |todo| == |m.Keys|
      invariant forall e :: e in r <==> e.slot in m.Keys - todo && e.lastActivity == LastActivity(m[e.slot])
      invariant Distinct(r)
      decreases todo
    {
      var slot :| slot in todo;
      r := r + [Entry(slot, LastActivity(m[slot]))];
      todo := todo - {slot};
    }
  }

  lemma EntriesJoin(r1: seq<Entry>, m1: Lists, r2: seq<Entry>, m2: Lists)
    requires AreEntries(r1, m1) && AreEntries(r2, m2) && m1.Keys !! m2.Keys
    ensures AreEntries(r1 + r2, m1 + m2)
  {
    SizeOfUnion(m1, m2);
    var r := r1 + r2;
    forall i, j | 0 <= i < j < |r| ensures r[i].slot != r[j].slot {
      if i < |r1| <= j {
        assert r1[i] in r1 && r2[j - |r1|] in r2;
      }
    }
  }

  lemma InsertDistinct(e: Entry, s: seq<Entry>)
    requires Distinct(s) && forall f :: f in s ==> f.slot != e.slot
    ensures Distinct(Insert(e, s))
  {
    if s != [] && e.lastActivity > s[0].lastActivity {
      InsertDistinct(e, s[1..]);
      InsertMembers(e, s[1..]);
      var r := Insert(e, s[1..]);
      forall i | 0 <= i < |r| ensures s[0].slot != r[i].slot {
        assert r[i] in r;
      }
    }
  }

  lemma {:induction false} InsertMembers(e: Entry, s: seq<Entry>)
    ensures |Insert(e, s)| == |s| + 1
    ensures forall f :: f in Insert(e, s) <==> f == e || f in s
  {
    if s != [] && e.lastActivity > s[0].lastActivity {
      InsertMembers(e, s[1..]);
      assert s == [s[0]] + s[1..];
    }
  }

  /** Sorting keeps the entries. */
  lemma {:induction false} ByActivityEntries(s: seq<Entry>)
    requires Distinct(s)
    ensures |ByActivity(s)| == |s| && Distinct(ByActivity(s)) && Sorted(ByActivity(s))
    ensures forall f :: f in ByActivity(s) <==> f in s
  {
    if s != [] {
      ByActivityEntries(s[1..]);
      InsertMembers(s[0], ByActivity(s[1..]));
      InsertDistinct(s[0], ByActivity(s[1..]));
      InsertSorts(s[0], ByActivity(s[1..]));
      assert s == [s[0]] + s[1..];
    }
  }

  /** The slots of the first `n` entries. */
  function FirstSlots(s: seq<Entry>, n: nat): set<Slot>
    requires n <= |s|
  {
    set i | 0 <= i < n :: s[i].slot
  }

  lemma FirstSlotsGrow(s: seq<Entry>, n: nat)
    requires n < |s| && Distinct(s)
    ensures FirstSlots(s, n + 1) == FirstSlots(s, n) + {s[n].slot} && s[n].slot !in FirstSlots(s, n)
  {
  }

  /** `gone` leaves no list behind that is older than one it takes. */
  ghost predicate OldestFirst(m: Lists, gone: set<Slot>) {
    forall a, b :: a in gone && a in m && b in m && b !in gone ==> LastActivity(m[a]) <= LastActivity(m[b])
  }

  lemma FirstAreOldest(s: seq<Entry>, m: Lists, n: nat)
    requires AreEntries(s, m) && Sorted(s) && n <= |s|
    ensures OldestFirst(m, FirstSlots(s, n)) && FirstSlots(s, n) <= m.Keys
  {
    forall a, b | a in FirstSlots(s, n) && a in m && b in m && b !in FirstSlots(s, n)
      ensures LastActivity(m[a]) <= LastActivity(m[b])
    {
      assert Entry(a, LastActivity(m[a])) in s && Entry(b, LastActivity(m[b])) in s;
      var i :| 0 <= i < n && s[i].slot == a;
      var j :| 0 <= j < |s| && s[j] == Entry(b, LastActivity(m[b]));
      assert s[i] in s && n <= j;
    }
    forall a | a in FirstSlots(s, n) ensures a in m {
      var i :| 0 <= i < n && s[i].slot == a;
      assert s[i] in s;
    }
  }

  /** Compact every list of a map and delete the ones that end up empty. */
  method SweepMap(m: Lists, windowStart: int) returns (r: Lists)
    ensures r == Compacted(m, windowStart)
  {
    r := m;
    var todo := m.Keys;
    while todo != {}
      invariant todo <= m.Keys
      invariant r == PartlyCompacted(m, todo, windowStart)
      decreases todo
    {
      var slot :| slot in todo;
      var kept := Compact(r[slot], windowStart);
      CompactedStep(m, todo, slot, windowStart);
      if |kept| == 0 {
        r := r - {slot};
      } else {
        r := r[slot := kept];
      }
      todo := todo - {slot};
    }
  }

  /** Each map holds its own kind of key. */
  ghost predicate Kinds(sockets: Lists, sessions: Lists, ips: Lists, globals: Lists) {
    && (forall k :: k in sockets ==> k.SocketSlot?)
    && (forall k :: k in sessions ==> k.SessionSlot?)
    && (forall k :: k in ips ==> k.IpSlot?)
    && (forall k :: k in globals ==> k.GlobalSlot?)
  }

  ghost function Joined(sockets: Lists, sessions: Lists, ips: Lists, globals: Lists): Lists {
    sockets + sessions + ips + globals
  }

  function Lookup(m: Lists, slot: Slot): seq<int> {
    if slot in m then m[slot] else []
  }

  lemma PutLeft(a: Lists, b: Lists, slot: Slot, v: seq<int>)
    requires slot !in b
    ensures a[slot := v] + b == (a + b)[slot := v]
  {
  }

  lemma PutRight(a: Lists, b: Lists, slot: Slot, v: seq<int>)
    ensures a + b[slot := v] == (a + b)[slot := v]
  {
  }

  // Writing one list of one map is writing that list of the whole.

  lemma SocketUpdate(a: Lists, b: Lists, c: Lists, d: Lists, slot: Slot, v: seq<int>)
    requires Kinds(a, b, c, d) && slot.SocketSlot?
    ensures Kinds(a[slot := v], b, c, d) && Joined(a[slot := v], b, c, d) == Joined(a, b, c, d)[slot := v]
  {
    PutLeft(a, b, slot, v);
    PutLeft(a + b, c, slot, v);
    PutLeft(a + b + c, d, slot, v);
  }

  lemma SessionUpdate(a: Lists, b: Lists, c: Lists, d: Lists, slot: Slot, v: seq<int>)
    requires Kinds(a, b, c, d) && slot.SessionSlot?
    ensures Kinds(a, b[slot := v], c, d) && Joined(a, b[slot := v], c, d) == Joined(a, b, c, d)[slot := v]
  {
    PutRight(a, b, slot, v);
    PutLeft(a + b, c, slot, v);
    PutLeft(a + b + c, d, slot, v);
  }

  lemma IpUpdate(a: Lists, b: Lists, c: Lists, d: Lists, slot: Slot, v: seq<int>)
    requires Kinds(a, b, c, d) && slot.IpSlot?
    ensures Kinds(a, b, c[slot := v], d) && Joined(a, b, c[slot := v], d) == Joined(a, b, c, d)[slot := v]
  {
    PutRight(a + b, c, slot, v);
    PutLeft(a + b + c, d, slot, v);
  }

  lemma GlobalUpdate(a: Lists, b: Lists, c: Lists, d: Lists, slot: Slot, v: seq<int>)
    requires Kinds(a, b, c, d) && slot.GlobalSlot?
    ensures Kinds(a, b, c, d[slot := v]) && Joined(a, b, c, d[slot := v]) == Joined(a, b, c, d)[slot := v]
  {
    PutRight(a + b + c, d, slot, v);
  }

  /** The four maps once `v` is written where the slot belongs. */
  lemma Written(a: Lists, b: Lists, c: Lists, d: Lists, index: map<Name, set<Slot>>, slot: Slot, v: seq<int>,
                a': Lists, b': Lists, c': Lists, d': Lists)
    requires Kinds(a, b, c, d) && Registered(a, index) && (slot.SocketSlot? ==> slot in a)
    requires if slot.SocketSlot? then (a', b', c', d') == (a[slot := v], b, c, d)
             else if slot.SessionSlot? then (a', b', c', d') == (a, b[slot := v], c, d)
             else if slot.IpSlot? then (a', b', c', d') == (a, b, c[slot := v], d)
             else (a', b', c', d') == (a, b, c, d[slot := v])
    ensures Kinds(a', b', c', d') && Registered(a', index)
    ensures Joined(a', b', c', d') == Joined(a, b, c, d)[slot := v]
  {
    match slot
    case SocketSlot(_, _) => SocketUpdate(a, b, c, d, slot, v);
    case SessionSlot(_, _) => SessionUpdate(a, b, c, d, slot, v);
    case IpSlot(_, _) => IpUpdate(a, b, c, d, slot, v);
    case GlobalSlot(_) => GlobalUpdate(a, b, c, d, slot, v);
  }

  lemma MinusUnion(a: Lists, b: Lists, keys: set<Slot>)
    ensures (a + b) - keys == (a - keys) + (b - keys)
  {
  }

  lemma JoinedMinus(a: Lists, b: Lists, c: Lists, d: Lists, keys: set<Slot>)
    requires Kinds(a, b, c, d)
    ensures Kinds(a - keys, b - keys, c - keys, d - keys)
    ensures Joined(a, b, c, d) - keys == Joined(a - keys, b - keys, c - keys, d - keys)
  {
    MinusUnion(a + b + c, d, keys);
    MinusUnion(a + b, c, keys);
    MinusUnion(a, b, keys);
  }

  lemma MinusOthers(m: Lists, keys: set<Slot>)
    requires m.Keys !! keys
    ensures m - keys == m
  {
  }

  /** And once the slot is deleted from where it belongs. */
  lemma Deleted(a: Lists, b: Lists, c: Lists, d: Lists, index: map<Name, set<Slot>>, slot: Slot,
                a': Lists, b': Lists, c': Lists, d': Lists)
    requires Kinds(a, b, c, d) && Registered(a, index)
    requires if slot.SocketSlot? then (a', b', c', d') == (a - {slot}, b, c, d)
             else if slot.SessionSlot? then (a', b', c', d') == (a, b - {slot}, c, d)
             else if slot.IpSlot? then (a', b', c', d') == (a, b, c - {slot}, d)
             else (a', b', c', d') == (a, b, c, d - {slot})
    ensures Kinds(a', b', c', d') && Registered(a', index)
    ensures Joined(a', b', c', d') == Joined(a, b, c, d) - {slot}
  {
    JoinedMinus(a, b, c, d, {slot});
    if !slot.SocketSlot? {
      MinusOthers(a, {slot});
    }
    if !slot.SessionSlot? {
      MinusOthers(b, {slot});
    }
    if !slot.IpSlot? {
      MinusOthers(c, {slot});
    }
    if !slot.GlobalSlot? {
      MinusOthers(d, {slot});
    }
  }

  function SweptMap(cfg: Config, m: Lists, now: int, w: nat): Lists {
    map slot | slot in m && SweptList(cfg, m[slot], slot, now, w) != [] :: SweptList(cfg, m[slot], slot, now, w)
  }

  lemma SweptUnion(cfg: Config, a: Lists, b: Lists, now: int, w: nat)
    requires a.Keys !! b.Keys
    ensures SweptMap(cfg, a + b, now, w) == SweptMap(cfg, a, now, w) + SweptMap(cfg, b, now, w)
  {
  }

  lemma SweptLocal(cfg: Config, m: Lists, now: int, w: nat)
    requires forall slot :: slot in m ==> !slot.GlobalSlot?
    ensures SweptMap(cfg, m, now, w) == Compacted(m, now - w)
  {
  }

  lemma SweptGlobal(cfg: Config, m: Lists, now: int, w: nat)
    requires forall slot :: slot in m ==> slot.GlobalSlot?
    ensures SweptMap(cfg, m, now, w) == Compacted(m, now - cfg.globalWindow)
  {
  }

  lemma SweptState(cfg: Config, s: State, now: int, w: nat)
    ensures Sweep(cfg, s, now, w).lists == SweptMap(cfg, s.lists, now, w)
  {
    assert SweptMap(cfg, s.lists, now, w).Keys == s.lists.Keys - SweptAway(cfg, s, now, w);
  }

  lemma CompactedKinds(a: Lists, b: Lists, c: Lists, d: Lists, windowStart: int, globalStart: int)
    requires Kinds(a, b, c, d)
    ensures Kinds(Compacted(a, windowStart), Compacted(b, windowStart), Compacted(c, windowStart), Compacted(d, globalStart))
  {
  }

  lemma DisjointKinds(a: Lists, b: Lists, c: Lists, d: Lists)
    requires Kinds(a, b, c, d)
    ensures a.Keys !! b.Keys && (a + b).Keys !! c.Keys && (a + b + c).Keys !! d.Keys
  {
    assert (a + b).Keys == a.Keys + b.Keys;
    assert (a + b + c).Keys == a.Keys + b.Keys + c.Keys;
  }

  /** Sweeping the four maps sweeps the whole. */
  lemma JoinedSweep(cfg: Config, s: State, a: Lists, b: Lists, c: Lists, d: Lists, now: int, w: nat)
    requires Kinds(a, b, c, d) && s.lists == Joined(a, b, c, d)
    ensures Joined(Compacted(a, now - w), Compacted(b, now - w), Compacted(c, now - w), Compacted(d, now - cfg.globalWindow))
            == Sweep(cfg, s, now, w).lists
  {
    SweptState(cfg, s, now, w);
    DisjointKinds(a, b, c, d);
    SweptUnion(cfg, a + b + c, d, now, w);
    SweptUnion(cfg, a + b, c, now, w);
    SweptUnion(cfg, a, b, now, w);
    SweptLocal(cfg, a, now, w);
    SweptLocal(cfg, b, now, w);
    SweptLocal(cfg, c, now, w);
    SweptGlobal(cfg, d, now, w);
  }

  /** The socket keys the sweep drops are the ones the socket map loses. */
  lemma SweptSockets(cfg: Config, s: State, a: Lists, b: Lists, c: Lists, d: Lists, now: int, w: nat)
    requires Kinds(a, b, c, d) && s.lists == Joined(a, b, c, d) && IndexOf(s.index)
    ensures Sweep(cfg, s, now, w).index == Pruned(s.index, SweptFrom(a, now - w))
  {
    forall slot: Slot | slot.SocketSlot? ensures slot in SweptFrom(a, now - w) <==> slot in SweptAway(cfg, s, now, w) {
      JoinedLookup(a, b, c, d, slot);
      assert slot in a ==> Lookup(s.lists, slot) == Lookup(a, slot);
    }
    SameIndex(s.index, SweptFrom(a, now - w), SweptAway(cfg, s, now, w));
  }

  // ---- The index ----

  /** Every socket list is in its socket's index entry, no entry is empty, and none
      holds another socket's key. */
  ghost predicate Registered(sockets: Lists, index: map<Name, set<Slot>>) {
    && (forall k :: k in sockets ==> k.SocketSlot? && k.socket in index && k in index[k.socket])
    && IndexOf(index)
  }

  function Indexing(sockets: Lists, index: map<Name, set<Slot>>, slot: Slot): map<Name, set<Slot>>
    requires slot.SocketSlot?
  {
    if slot in sockets then index else index[slot.socket := KeysOf(index, slot.socket) + {slot}]
  }

  lemma SocketVisited(cfg: Config, a: Lists, b: Lists, c: Lists, d: Lists, index: map<Name, set<Slot>>, call: Call, v: seq<int>,
                      a': Lists, index': map<Name, set<Slot>>)
    requires Kinds(a, b, c, d) && Registered(a, index)
    requires v == KeepAfter(Lookup(a, Socket(call)), call.now - LimitOf(cfg, call.event).window)
    requires a' == a[Socket(call) := v] && index' == Indexing(a, index, Socket(call))
    ensures Kinds(a', b, c, d) && Registered(a', index')
    ensures State(Joined(a', b, c, d), index') == Visit(cfg, State(Joined(a, b, c, d), index), Socket(call), call.now)
    ensures ListOf(State(Joined(a', b, c, d), index'), Socket(call)) == v
  {
    JoinedLookup(a, b, c, d, Socket(call));
    SocketUpdate(a, b, c, d, Socket(call), v);
    SocketRegistered(a, index, Socket(call), v);
  }

  lemma SocketRegistered(a: Lists, index: map<Name, set<Slot>>, slot: Slot, v: seq<int>)
    requires Registered(a, index) && slot.SocketSlot?
    ensures Registered(a[slot := v], Indexing(a, index, slot))
  {
  }

  lemma KeysDeleted(a: Lists, b: Lists, c: Lists, d: Lists, index: map<Name, set<Slot>>, id: Name)
    requires Kinds(a, b, c, d) && Registered(a, index) && id in index
    ensures Registered(a - index[id], index - {id})
    ensures State(Joined(a - index[id], b, c, d), index - {id}) == RateLimit.CleanupSocket(State(Joined(a, b, c, d), index), id)
  {
    var keys := index[id];
    assert forall k :: k in keys ==> k.SocketSlot?;
    JoinedMinus(a, b, c, d, keys);
    MinusOthers(b, keys);
    MinusOthers(c, keys);
    MinusOthers(d, keys);
  }

  lemma RegisteredIsIndexed(a: Lists, b: Lists, c: Lists, d: Lists, index: map<Name, set<Slot>>)
    requires Kinds(a, b, c, d)
    ensures Registered(a, index) <==> Indexed(State(Joined(a, b, c, d), index))
  {
    assert forall k :: k in Joined(a, b, c, d) && k.SocketSlot? <==> k in a;
  }

  function Pruned(index: map<Name, set<Slot>>, gone: set<Slot>): map<Name, set<Slot>> {
    map id | id in index && index[id] - gone != {} :: index[id] - gone
  }

  ghost predicate IndexOf(index: map<Name, set<Slot>>) {
    && (forall id, slot :: id in index && slot in index[id] ==> slot.SocketSlot? && slot.socket == id)
    && (forall id :: id in index ==> index[id] != {})
  }

  lemma PrunedNothing(index: map<Name, set<Slot>>)
    requires IndexOf(index)
    ensures Pruned(index, {}) == index
  {
    forall id | id in index ensures index[id] - {} == index[id] {
    }
  }

  /** Dropping one more key changes its own socket's entry only. */
  lemma PrunedStep(index: map<Name, set<Slot>>, gone: set<Slot>, key: Slot)
    requires IndexOf(index) && key.SocketSlot?
    ensures var p, q := Pruned(index, gone), Pruned(index, gone + {key});
            if key.socket !in p then q == p
            else if p[key.socket] - {key} == {} then q == p - {key.socket}
            else q == p[key.socket := p[key.socket] - {key}]
  {
    forall id | id in index
      ensures index[id] - (gone + {key}) == if id == key.socket then (index[id] - gone) - {key} else index[id] - gone
    {
      assert id != key.socket ==> key !in index[id];
    }
  }

  lemma SameIndex(index: map<Name, set<Slot>>, gone: set<Slot>, more: set<Slot>)
    requires IndexOf(index)
    requires forall slot: Slot :: slot.SocketSlot? ==> (slot in gone <==> slot in more)
    ensures Pruned(index, gone) == Pruned(index, more)
  {
    forall id | id in index ensures index[id] - gone == index[id] - more {
    }
  }

  lemma SweptWhole(cfg: Config, a: Lists, b: Lists, c: Lists, d: Lists, index: map<Name, set<Slot>>,
                   a': Lists, b': Lists, c': Lists, d': Lists, index': map<Name, set<Slot>>, now: int, w: nat)
    requires Kinds(a, b, c, d) && Registered(a, index)
    requires a' == Compacted(a, now - w) && b' == Compacted(b, now - w) && c' == Compacted(c, now - w)
    requires d' == Compacted(d, now - cfg.globalWindow) && index' == Pruned(index, SweptFrom(a, now - w))
    ensures Kinds(a', b', c', d') && Registered(a', index')
    ensures State(Joined(a', b', c', d'), index') == Sweep(cfg, State(Joined(a, b, c, d), index), now, w)
  {
    var s := State(Joined(a, b, c, d), index);
    RegisteredIsIndexed(a, b, c, d, index);
    SweepIndexed(cfg, s, now, w);
    SweptSockets(cfg, s, a, b, c, d, now, w);
    CompactedKinds(a, b, c, d, now - w, now - cfg.globalWindow);
    JoinedSweep(cfg, s, a, b, c, d, now, w);
    RegisteredIsIndexed(a', b', c', d', index');
  }

  lemma JoinedLookup(a: Lists, b: Lists, c: Lists, d: Lists, slot: Slot)
    requires Kinds(a, b, c, d)
    ensures var m := match slot { case SocketSlot(_, _) => a case SessionSlot(_, _) => b case IpSlot(_, _) => c case GlobalSlot(_) => d };
            (slot in Joined(a, b, c, d) <==> slot in m) && Lookup(Joined(a, b, c, d), slot) == Lookup(m, slot)
  {
  }

  lemma NothingEvicted(s: State)
    ensures Evict(s, {}) == s
  {
    assert s.lists - {} == s.lists;
  }

  lemma EvictMore(s: State, gone: set<Slot>, slot: Slot)
    ensures Evict(Evict(s, gone), {slot}) == Evict(s, gone + {slot})
  {
    assert (s.lists - gone) - {slot} == s.lists - (gone + {slot});
  }

  lemma EvictSize(s: State, gone: set<Slot>)
    requires gone <= s.lists.Keys
    ensures |Evict(s, gone).lists| == |s.lists| - |gone|
  {
    assert (s.lists - gone).Keys == s.lists.Keys - gone;
  }

  lemma JoinedSize(a: Lists, b: Lists, c: Lists, d: Lists)
    requires Kinds(a, b, c, d)
    ensures |Joined(a, b, c, d)| == |a| + |b| + |c| + |d|
  {
    DisjointKinds(a, b, c, d);
    SizeOfUnion(a, b);
    SizeOfUnion(a + b, c);
    SizeOfUnion(a + b + c, d);
  }

  lemma SizeOfUnion(a: Lists, b: Lists)
    requires a.Keys !! b.Keys
    ensures |a + b| == |a| + |b|
  {
    assert (a + b).Keys == a.Keys + b.Keys;
  }
}
