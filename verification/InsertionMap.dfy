/** A model of the ECMAScript `Map`: iteration follows first insertion, and
    setting a key that is already present keeps its place. */
module InsertionMap {
  import opened Common
  import opened Recency

  datatype OrderedMap<K(==,!new), V> = OrderedMap(keys: seq<K>, vals: map<K, V>) {

    ghost predicate Valid() {
      && NoDup(keys)
      && Elements(keys) == vals.Keys
    }

    predicate Has(k: K) {
      k in vals
    }

    function Get(k: K): Option<V> {
      if k in vals then Some(vals[k]) else None
    }

    function Size(): nat {
      |keys|
    }

    function Delete(k: K): OrderedMap<K, V> {
      OrderedMap(Without(keys, k), vals - {k})
    }

    function Set(k: K, v: V): OrderedMap<K, V> {
      OrderedMap(if k in vals then keys else keys + [k], vals[k := v])
    }

    /** Drop keys from the front until at most `cap` are left. */
    function EvictOldest(cap: nat): (r: OrderedMap<K, V>)
      decreases |keys|
    {
      if |keys| > cap then Delete(keys[0]).EvictOldest(cap) else this
    }

    /** Delete, set again, trim: the write every recency-refreshing site performs. */
    function Touch(k: K, v: V, cap: nat): OrderedMap<K, V> {
      Delete(k).Set(k, v).EvictOldest(cap)
    }
  }

  function Empty<K(==,!new), V>(): OrderedMap<K, V> {
    OrderedMap([], map[])
  }

  lemma DeleteValid<K(!new), V>(m: OrderedMap<K, V>, k: K)
    requires m.Valid()
    ensures m.Delete(k).Valid()
    ensures m.Has(k) ==> m.Delete(k).Size() == m.Size() - 1
  {
    WithoutNoDup(m.keys, k);
  }

  lemma SetValid<K(!new), V>(m: OrderedMap<K, V>, k: K, v: V)
    requires m.Valid()
    ensures m.Set(k, v).Valid()
  {
    if k !in m.vals {
      SnocNoDup(m.keys, k);
    }
  }

  lemma {:induction false} EvictValid<K(!new), V>(m: OrderedMap<K, V>, cap: nat)
    requires m.Valid()
    ensures m.EvictOldest(cap).Valid()
    ensures m.EvictOldest(cap).Size() <= cap
    ensures m.Size() <= cap ==> m.EvictOldest(cap) == m
    ensures m.EvictOldest(cap).vals.Keys <= m.vals.Keys
    ensures forall k :: k in m.EvictOldest(cap).vals ==> m.EvictOldest(cap).vals[k] == m.vals[k]
    decreases m.Size()
  {
    if m.Size() > cap {
      DeleteValid(m, m.keys[0]);
      EvictValid(m.Delete(m.keys[0]), cap);
      WithoutHead(m.keys);
    }
  }

  /** What one refreshing write does to a map that respects the cap: at most the
      front key is lost, and only when the written key is new to a full map. */
  lemma TouchSpec<K(!new), V>(m: OrderedMap<K, V>, k: K, v: V, cap: nat)
    requires m.Valid() && m.Size() <= cap && 0 < cap
    ensures m.Touch(k, v, cap).keys == Step(m.keys, Refresh(k), cap)
    ensures m.Touch(k, v, cap).Valid()
    ensures m.Touch(k, v, cap).Size() <= cap
    ensures m.Touch(k, v, cap).Get(k) == Some(v)
    ensures forall x :: x != k && m.Touch(k, v, cap).Has(x) ==> m.Touch(k, v, cap).Get(x) == m.Get(x)
  {
    DeleteValid(m, k);
    var d := m.Delete(k);
    SetValid(d, k, v);
    var s := d.Set(k, v);
    assert s.keys == d.keys + [k];
    EvictValid(s, cap);
    if |d.keys| == cap {
      WithoutHead(s.keys);
      assert s.keys[1..] == d.keys[1..] + [k];
      assert s.keys[0] == d.keys[0] && d.keys[0] != k;
    }
  }
}
