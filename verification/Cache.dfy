/** The LRU cache with expiring entries (cache/cache.go), and what every operation keeps. */
module Cache {
  import opened Values

  datatype Item<V> = Item(value: V, expiry: int)

  predicate IsExpired<V>(i: Item<V>, now: int) {
    now > i.expiry
  }

  /** The entries and the recency list, most recent first. */
  datatype State<K, V> = State(items: map<K, Item<V>>, order: seq<K>)

  datatype Op<K, V> = Set(key: K, value: V, ttl: int) | Get(key: K) | Remove(key: K) | Pop(key: K) | Keys | Clear | Tick

  /** What a caller sees. A miss may carry the stale value of the entry it dropped. */
  datatype Out<K, V> = Unit | Hit(value: V) | Miss(stale: Option<V>) | Listed(keys: set<K>)

  function Without<K(==)>(s: seq<K>, k: K): seq<K> {
    if s == [] then [] else if s[0] == k then Without(s[1..], k) else [s[0]] + Without(s[1..], k)
  }

  function RemoveEntry<K(==), V>(s: State<K, V>, k: K): State<K, V> {
    State(s.items - {k}, Without(s.order, k))
  }

  function Touch<K(==), V>(s: State<K, V>, k: K): State<K, V> {
    s.(order := [k] + Without(s.order, k))
  }

  function EvictOldest<K(==), V>(s: State<K, V>): State<K, V> {
    if s.order == [] || s.order[|s.order| - 1] !in s.items then s else RemoveEntry(s, s.order[|s.order| - 1])
  }

  function SetEntry<K(==), V>(s: State<K, V>, max: nat, k: K, i: Item<V>): State<K, V> {
    var s' := Touch(s.(items := s.items[k := i]), k);
    if k !in s.items && max > 0 && |s'.items| > max then EvictOldest(s') else s'
  }

  function LiveKeys<K(==), V>(items: map<K, Item<V>>, now: int): set<K> {
    set k | k in items && !IsExpired(items[k], now)
  }

  /** The state with every expired entry dropped. */
  function Swept<K(==), V>(s: State<K, V>, now: int): State<K, V> {
    State(map k | k in LiveKeys(s.items, now) :: s.items[k], Filter(s.order, LiveKeys(s.items, now)))
  }

  function Filter<K(==)>(s: seq<K>, keep: set<K>): seq<K> {
    if s == [] then [] else if s[0] in keep then [s[0]] + Filter(s[1..], keep) else Filter(s[1..], keep)
  }

  /** One operation at one instant. */
  function Step<K(==), V>(s: State<K, V>, max: nat, now: int, op: Op<K, V>): (State<K, V>, Out<K, V>) {
    match op
    case Set(k, v, ttl) => (SetEntry(s, max, k, Item(v, now + ttl)), Unit)
    case Get(k) =>
      if k !in s.items then (s, Miss(None))
      else if IsExpired(s.items[k], now) then (RemoveEntry(s, k), Miss(Some(s.items[k].value)))
      else (Touch(s, k), Hit(s.items[k].value))
    case Remove(k) => (if k in s.items then RemoveEntry(s, k) else s, Unit)
    case Pop(k) =>
      if k !in s.items then (s, Miss(None))
      else if IsExpired(s.items[k], now) then (RemoveEntry(s, k), Miss(Some(s.items[k].value)))
      else (RemoveEntry(s, k), Hit(s.items[k].value))
    case Keys => (Swept(s, now), Listed(LiveKeys(s.items, now)))
    case Clear => (State(map[], []), Unit)
    case Tick => (Swept(s, now), Unit)
  }

  /** The map and the list hold the same keys, once each, within the bound. */
  ghost predicate Valid<K(!new), V>(s: State<K, V>, max: nat) {
    && NoDuplicates(s.order)
    && (forall k :: k in s.order <==> k in s.items)
    && (max > 0 ==> |s.items| <= max)
  }

  lemma {:induction false} WithoutMeans<K(!new)>(s: seq<K>, k: K)
    requires NoDuplicates(s)
    ensures NoDuplicates(Without(s, k))
    ensures forall x :: x in Without(s, k) <==> x in s && x != k
  {
    if s != [] {
      WithoutMeans(s[1..], k);
      assert forall x :: x in s <==> x == s[0] || x in s[1..];
      assert s[0] !in s[1..];
    }
  }

  lemma {:induction false} NothingToDrop<K>(s: seq<K>, k: K)
    requires k !in s
    ensures Without(s, k) == s
  {
    if s != [] { NothingToDrop(s[1..], k); }
  }

  lemma {:induction false} FilterMeans<K(!new)>(s: seq<K>, keep: set<K>)
    requires NoDuplicates(s)
    ensures NoDuplicates(Filter(s, keep))
    ensures forall x :: x in Filter(s, keep) <==> x in s && x in keep
  {
    if s != [] {
      FilterMeans(s[1..], keep);
      assert forall x :: x in s <==> x == s[0] || x in s[1..];
      assert s[0] !in s[1..];
    }
  }

  lemma {:induction false} DistinctCount<K(!new)>(s: seq<K>, keys: set<K>)
    requires NoDuplicates(s) && forall k :: k in s <==> k in keys
    ensures |s| == |keys|
  {
    if s == [] {
      assert keys == {};
    } else {
      assert forall x :: x in s <==> x == s[0] || x in s[1..];
      assert s[0] !in s[1..];
      DistinctCount(s[1..], keys - {s[0]});
    }
  }

  // ---- what every step keeps ---------------------------------------------------------------------

  lemma RemoveKeeps<K(!new), V>(s: State<K, V>, max: nat, k: K)
    requires Valid(s, max)
    ensures Valid(RemoveEntry(s, k), max)
  {
    WithoutMeans(s.order, k);
    if k in s.items { assert (s.items - {k}).Keys == s.items.Keys - {k}; } else { assert s.items - {k} == s.items; }
  }

  lemma TouchKeeps<K(!new), V>(s: State<K, V>, max: nat, k: K)
    requires Valid(s, max) && k in s.items
    ensures Valid(Touch(s, k), max)
  {
    WithoutMeans(s.order, k);
  }

  lemma SweepKeeps<K(!new), V>(s: State<K, V>, max: nat, now: int)
    requires Valid(s, max)
    ensures Valid(Swept(s, now), max)
  {
    var live := LiveKeys(s.items, now);
    FilterMeans(s.order, live);
    assert Swept(s, now).items.Keys == live;
    SubsetSize(live, s.items.Keys);
  }

  /** Setting a key keeps the bound, keeps the key just set, and evicts at most the last of the list. */
  lemma SetKeeps<K(!new), V>(s: State<K, V>, max: nat, k: K, i: Item<V>)
    requires Valid(s, max)
    ensures Valid(SetEntry(s, max, k, i), max)
    ensures k in SetEntry(s, max, k, i).items && SetEntry(s, max, k, i).items[k] == i
  {
    var s' := Touch(s.(items := s.items[k := i]), k);
    PutKeeps(s, max, k, i);
    if k !in s.items && max > 0 && |s'.items| > max { EvictKeeps(s', k); }
  }

  lemma PutKeeps<K(!new), V>(s: State<K, V>, max: nat, k: K, i: Item<V>)
    requires Valid(s, max)
    ensures var s' := Touch(s.(items := s.items[k := i]), k);
            && Valid(s', 0) && s'.order[0] == k
            && |s'.items| == if k in s.items then |s.items| else |s.items| + 1
  {
    WithoutMeans(s.order, k);
    if k in s.items {
      assert s.items[k := i].Keys == s.items.Keys;
    } else {
      assert s.items[k := i].Keys == s.items.Keys + {k};
    }
  }

  /** Evicting drops the last of the list, one entry, which is not the first of two. */
  lemma EvictKeeps<K(!new), V>(s: State<K, V>, k: K)
    requires Valid(s, 0) && |s.items| > 1 && s.order != [] && s.order[0] == k
    ensures var last := s.order[|s.order| - 1];
            last != k && EvictOldest(s) == RemoveEntry(s, last) && |EvictOldest(s).items| == |s.items| - 1
    ensures Valid(EvictOldest(s), 0)
  {
    DistinctCount(s.order, s.items.Keys);
    var last := s.order[|s.order| - 1];
    assert last in s.order;
    RemoveKeeps(s, 0, last);
    assert (s.items - {last}).Keys == s.items.Keys - {last};
  }

  lemma EmptyValid<K(!new), V>(max: nat)
    ensures var empty: State<K, V> := State(map[], []); Valid(empty, max)
  {
  }

  /** Every operation keeps the map and the list in step and within the bound. */
  lemma StepKeeps<K(!new), V>(s: State<K, V>, max: nat, now: int, op: Op<K, V>)
    requires Valid(s, max)
    ensures Valid(Step(s, max, now, op).0, max)
  {
    hide Valid, RemoveEntry, Touch, SetEntry, Swept;
    EmptyValid<K, V>(max);
    match op
    case Set(k, v, ttl) => SetKeeps(s, max, k, Item(v, now + ttl));
    case Get(k) => RemoveKeeps(s, max, k); if k in s.items { TouchKeeps(s, max, k); }
    case Remove(k) => RemoveKeeps(s, max, k);
    case Pop(k) => RemoveKeeps(s, max, k);
    case Keys => SweepKeeps(s, max, now);
    case Clear =>
    case Tick => SweepKeeps(s, max, now);
  }
}
