/** The memoisation maps of the prediction (`std::map` from a tuple ending
    in an interval to a buffer of values).  The interval type orders by its
    start coordinate, so two intervals with the same start and different
    ends are the same key: a key here is the tuple's other members plus the
    interval's start, and an entry keeps the interval it was first recorded
    with (a `std::map` never replaces the key object of an existing entry). */
module Memo {
  import opened StridedIntervals

  datatype Option<T> = None | Some(value: T)

  /** A recorded result: the interval of the first insertion and the value. */
  datatype Entry<V> = Entry(interval: StridedInterval, value: V)

  /** `mem_map.find(key)` and `it->second` on a hit, whatever the extent of
      the interval the entry was recorded with. */
  function FindAnyExtent<K, V(==)>(mem: map<K, Entry<V>>, key: K): (r: Option<V>)
    ensures r.Some? <==> key in mem
    ensures r.Some? ==> r.value == mem[key].value
  {
    if key in mem then Some(mem[key].value) else None
  }

  /** `mem_map.find(key)` accepted only when the recorded interval has the
      size of the one looked up. */
  function FindSameSize<K, V(==)>(mem: map<K, Entry<V>>, key: K, i: StridedInterval): (r: Option<V>)
    ensures r.Some? <==> key in mem && mem[key].interval.Size() == i.Size()
    ensures r.Some? ==> r.value == mem[key].value
  {
    if key in mem && mem[key].interval.Size() == i.Size() then Some(mem[key].value) else None
  }

  /** `mem_map.insert({key, value})`: records the entry only when the key is
      absent; an existing entry stays as it is. */
  function Insert<K, V(==)>(mem: map<K, Entry<V>>, key: K, i: StridedInterval, v: V): (m: map<K, Entry<V>>)
    ensures m.Keys == mem.Keys + {key}
    ensures key in mem ==> m == mem
    ensures key !in mem ==> m[key] == Entry(i, v)
    ensures forall other :: other in mem ==> m[other] == mem[other]
  {
    if key in mem then mem else mem[key := Entry(i, v)]
  }

  /** `mem_map[key] = value`: the value is replaced, but an existing entry
      keeps the interval it was first recorded with. */
  function Assign<K, V(==)>(mem: map<K, Entry<V>>, key: K, i: StridedInterval, v: V): (m: map<K, Entry<V>>)
    ensures m.Keys == mem.Keys + {key}
    ensures m[key].value == v
    ensures m[key].interval == if key in mem then mem[key].interval else i
    ensures forall other :: other != key && other in mem ==> m[other] == mem[other]
  {
    var interval := if key in mem then mem[key].interval else i;
    mem[key := Entry(interval, v)]
  }

  /** Every entry of `mem` is still in `mem'`, unchanged. */
  predicate Extends<K, V(==)>(mem: map<K, Entry<V>>, mem': map<K, Entry<V>>)
  {
    forall key :: key in mem ==> key in mem' && mem'[key] == mem[key]
  }

  /** On an absent key the two updates agree; on a present key `insert`
      keeps the recorded value and `operator[]` replaces it. */
  lemma InsertVersusAssign<K, V>(mem: map<K, Entry<V>>, key: K, i: StridedInterval, v: V)
    ensures key !in mem ==> Insert(mem, key, i, v) == Assign(mem, key, i, v)
    ensures key in mem ==> FindAnyExtent(Insert(mem, key, i, v), key) == Some(mem[key].value)
    ensures FindAnyExtent(Assign(mem, key, i, v), key) == Some(v)
  {
    if key !in mem {
      assert Insert(mem, key, i, v) == mem[key := Entry(i, v)];
    }
  }

  /** Inserting only ever adds an entry, and extension is transitive. */
  lemma InsertExtends<K, V>(mem: map<K, Entry<V>>, key: K, i: StridedInterval, v: V)
    ensures Extends(mem, Insert(mem, key, i, v))
  {
  }

  lemma ExtendsTransitive<K, V>(m1: map<K, Entry<V>>, m2: map<K, Entry<V>>, m3: map<K, Entry<V>>)
    requires Extends(m1, m2) && Extends(m2, m3)
    ensures Extends(m1, m3)
  {
  }
}
