/** The cache as an object: a map and a recency list that every method changes together (cache/cache.go). */
module CacheObject {
  import opened Values
  import opened Cache

  class TTLCache<K(!new, ==), V> {
    var items: map<K, Item<V>>
    var order: seq<K>
    const maxEntries: nat

    function Now(): State<K, V>
      reads this
    {
      State(items, order)
    }

    ghost predicate Consistent()
      reads this
    {
      Valid(Now(), maxEntries)
    }

    constructor (maxEntries: nat)
      ensures Consistent() && Now() == State(map[], []) && this.maxEntries == maxEntries
    {
      items, order, this.maxEntries := map[], [], maxEntries;
    }

    method RemoveItem(key: K)
      requires Consistent()
      modifies this
      ensures Consistent() && Now() == RemoveEntry(old(Now()), key)
    {
      RemoveKeeps(Now(), maxEntries, key);
      items := items - {key};
      order := Without(order, key);
    }

    method Put(key: K, value: V, ttl: int, now: int)
      requires Consistent()
      modifies this
      ensures Consistent() && Now() == Step(old(Now()), maxEntries, now, Set(key, value, ttl)).0
      ensures key in items && items[key] == Item(value, now + ttl)
    {
      hide Valid, Without;
      SetKeeps(Now(), maxEntries, key, Item(value, now + ttl));
      if key in items {
        items := items[key := Item(value, now + ttl)];
        order := [key] + Without(order, key);
        return;
      }
      assert Without(order, key) == order by { ListedIsStored(Now(), maxEntries, key); }
      order := [key] + order;
      items := items[key := Item(value, now + ttl)];
      if maxEntries > 0 && |items| > maxEntries {
        var last := order[|order| - 1];
        if last in items {
          items := items - {last};
          order := Without(order, last);
        }
      }
    }

    method Get(key: K, now: int) returns (r: Out<K, V>)
      requires Consistent()
      modifies this
      ensures Consistent() && (Now(), r) == Step(old(Now()), maxEntries, now, Op.Get(key))
    {
      if key !in items { return Miss(None); }
      if IsExpired(items[key], now) {
        r := Miss(Some(items[key].value));
        RemoveItem(key);
        return;
      }
      TouchKeeps(Now(), maxEntries, key);
      order := [key] + Without(order, key);
      r := Hit(items[key].value);
    }

    method Pop(key: K, now: int) returns (r: Out<K, V>)
      requires Consistent()
      modifies this
      ensures Consistent() && (Now(), r) == Step(old(Now()), maxEntries, now, Op.Pop(key))
    {
      if key !in items { return Miss(None); }
      var entry := items[key];
      RemoveItem(key);
      r := if IsExpired(entry, now) then Miss(Some(entry.value)) else Hit(entry.value);
    }

    method Remove(key: K)
      requires Consistent()
      modifies this
      ensures Consistent() && forall now :: Now() == Step(old(Now()), maxEntries, now, Op.Remove(key)).0
    {
      if key in items { RemoveItem(key); }
    }

    /** The cleanup tick: visits the entries in any order and removes the expired ones. */
    method Tick(now: int)
      requires Consistent()
      modifies this
      ensures Consistent() && Now() == Swept(old(Now()), now)
    {
      hide Valid, Filter, Without;
      ghost var before := Now();
      var todo := items.Keys;
      AllListed(Now(), maxEntries);
      assert items == Rest(before.items, before.items.Keys);
      FilterAll(order, items.Keys);
      while todo != {}
        invariant Consistent() && todo <= items.Keys <= before.items.Keys
        invariant items == Rest(before.items, items.Keys) && order == Filter(before.order, items.Keys)
        invariant forall k :: k in before.items && k !in todo ==> (k in items <==> !IsExpired(before.items[k], now))
      {
        var k :| k in todo;
        todo := todo - {k};
        if IsExpired(items[k], now) {
          FilterDrops(before.order, items.Keys, k);
          assert (items - {k}).Keys == items.Keys - {k};
          RemoveItem(k);
        }
      }
      assert items.Keys == LiveKeys(before.items, now);
    }

    /** The live keys, in any order; expired entries are dropped on the way. */
    method ListKeys(now: int) returns (all: seq<K>)
      requires Consistent()
      modifies this
      ensures Consistent() && NoDuplicates(all)
      ensures Step(old(Now()), maxEntries, now, Keys) == (Now(), Listed(set k | k in all))
    {
      Tick(now);
      all := [];
      var todo := items.Keys;
      while todo != {}
        invariant todo <= items.Keys && NoDuplicates(all) && forall k :: k in all <==> k in items && k !in todo
        invariant Now() == Swept(old(Now()), now)
      {
        var k :| k in todo;
        todo := todo - {k};
        all := all + [k];
      }
      assert items.Keys == LiveKeys(old(items), now);
      assert (set k | k in all) == items.Keys;
    }

    method Reset()
      modifies this
      ensures Consistent() && Now() == State(map[], [])
    {
      items, order := map[], [];
    }
  }

  function Rest<K(==), V>(items: map<K, Item<V>>, keep: set<K>): map<K, Item<V>> {
    map k | k in items && k in keep :: items[k]
  }

  lemma AllListed<K(!new), V>(s: State<K, V>, max: nat)
    requires Valid(s, max)
    ensures forall k :: k in s.order ==> k in s.items
  {
  }

  lemma ListedIsStored<K(!new), V>(s: State<K, V>, max: nat, k: K)
    requires Valid(s, max) && k !in s.items
    ensures k !in s.order && Without(s.order, k) == s.order
  {
    NothingToDrop(s.order, k);
  }

  lemma {:induction false} FilterAll<K(!new)>(s: seq<K>, keep: set<K>)
    requires forall x :: x in s ==> x in keep
    ensures Filter(s, keep) == s
  {
    if s != [] { FilterAll(s[1..], keep); }
  }

  /** Dropping one more key from a filtered list filters by one key less. */
  lemma {:induction false} FilterDrops<K>(s: seq<K>, keep: set<K>, k: K)
    ensures Without(Filter(s, keep), k) == Filter(s, keep - {k})
  {
    if s != [] {
      FilterDrops(s[1..], keep, k);
      if s[0] in keep {
        var f := [s[0]] + Filter(s[1..], keep);
        assert f[1..] == Filter(s[1..], keep);
      }
    }
  }
}
