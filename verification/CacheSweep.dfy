/**
 * When cleanup ticks can be seen: never in a cache without a bound or with a bound of one, always with a larger one.
 */
module CacheSweep {
  import opened Values
  import opened Cache
  import opened CacheTheorems

  /** What a caller can rely on: the stale value that may come with a miss is not part of it. */
  function Visible<K, V>(o: Out<K, V>): Out<K, V> {
    if o.Miss? then Miss(None) else o
  }

  /** The swept cache lacks only entries already expired. */
  ghost predicate LacksOnlyExpired<K(!new), V>(swept: map<K, Item<V>>, full: map<K, Item<V>>, now: int) {
    && (forall k :: k in swept ==> k in full && full[k] == swept[k])
    && (forall k :: k in full && k !in swept ==> IsExpired(full[k], now))
  }

  function Unticked<K, V>(events: seq<Event<K, V>>): seq<Event<K, V>> {
    if events == [] then []
    else if events[0].op.Tick? then Unticked(events[1..]) else [events[0]] + Unticked(events[1..])
  }

  /** What the caller saw, the cleanup ticks left out. */
  function Seen<K, V>(events: seq<Event<K, V>>, outs: seq<Out<K, V>>): seq<Out<K, V>>
    requires |outs| == |events|
  {
    if events == [] then []
    else if events[0].op.Tick? then Seen(events[1..], outs[1..]) else [Visible(outs[0])] + Seen(events[1..], outs[1..])
  }

  ghost predicate ClockFrom<K, V>(now: int, events: seq<Event<K, V>>) {
    && (forall i :: 0 <= i < |events| ==> now <= events[i].now)
    && (forall i, j :: 0 <= i < j < |events| ==> events[i].now <= events[j].now)
  }

  lemma {:induction false} RunLength<K, V>(s: State<K, V>, max: nat, events: seq<Event<K, V>>)
    ensures |Run(s, max, events).1| == |events|
    decreases |events|
  {
    if events != [] { RunLength(Step(s, max, events[0].now, events[0].op).0, max, events[1..]); }
  }

  // ---- unseen ------------------------------------------------------------------------------------

  /** Where there is room for one entry, setting a key leaves that entry alone, whatever was there. */
  lemma SetAlone<K(!new), V>(s: State<K, V>, k: K, i: Item<V>)
    requires Valid(s, 1)
    ensures SetEntry(s, 1, k, i).items == map[k := i]
  {
    SetKeeps(s, 1, k, i);
    var items := SetEntry(s, 1, k, i).items;
    if x :| x in items && x != k {
      assert {k, x} <= items.Keys;
      SubsetSize({k, x}, items.Keys);
    }
  }

  lemma UnseenSet<K(!new), V>(a: State<K, V>, b: State<K, V>, max: nat, now: int, t: int, k: K, i: Item<V>)
    requires max <= 1 && Valid(a, max) && Valid(b, max) && LacksOnlyExpired(a.items, b.items, now) && now <= t
    ensures LacksOnlyExpired(SetEntry(a, max, k, i).items, SetEntry(b, max, k, i).items, t)
  {
    if max == 1 {
      SetAlone(a, k, i);
      SetAlone(b, k, i);
    }
  }

  lemma SweepUnseenStep<K(!new), V>(a: State<K, V>, b: State<K, V>, max: nat, now: int, t: int, op: Op<K, V>)
    requires max <= 1 && Valid(a, max) && Valid(b, max) && LacksOnlyExpired(a.items, b.items, now) && now <= t
    ensures op.Tick? ==> LacksOnlyExpired(Step(a, max, t, op).0.items, b.items, t)
    ensures !op.Tick? ==>
      && LacksOnlyExpired(Step(a, max, t, op).0.items, Step(b, max, t, op).0.items, t)
      && Visible(Step(a, max, t, op).1) == Visible(Step(b, max, t, op).1)
  {
    hide Valid, SetEntry, LacksOnlyExpired;
    if op.Set? {
      UnseenSet(a, b, max, now, t, op.key, Item(op.value, t + op.ttl));
    } else {
      UnseenOther(a, b, max, now, t, op);
    }
  }

  lemma UnseenOther<K(!new), V>(a: State<K, V>, b: State<K, V>, max: nat, now: int, t: int, op: Op<K, V>)
    requires LacksOnlyExpired(a.items, b.items, now) && now <= t && !op.Set?
    ensures op.Tick? ==> LacksOnlyExpired(Step(a, max, t, op).0.items, b.items, t)
    ensures !op.Tick? ==>
      && LacksOnlyExpired(Step(a, max, t, op).0.items, Step(b, max, t, op).0.items, t)
      && Visible(Step(a, max, t, op).1) == Visible(Step(b, max, t, op).1)
  {
    hide SetEntry, Without, Filter;
    if op.Keys? { assert LiveKeys(a.items, t) == LiveKeys(b.items, t); }
  }

  /** Without a bound, or with a bound of one, cleanup ticks at any points of any run change nothing a caller sees. */
  lemma {:induction false} SweepUnseen<K(!new), V>(
    a: State<K, V>, b: State<K, V>, max: nat, now: int, events: seq<Event<K, V>>)
    requires max <= 1 && Valid(a, max) && Valid(b, max)
    requires LacksOnlyExpired(a.items, b.items, now) && ClockFrom(now, events)
    ensures |Run(a, max, events).1| == |events|
    ensures |Run(b, max, Unticked(events)).1| == |Unticked(events)|
    ensures Seen(events, Run(a, max, events).1) == Seen(Unticked(events), Run(b, max, Unticked(events)).1)
    decreases |events|
  {
    RunLength(a, max, events);
    RunLength(b, max, Unticked(events));
    if events != [] {
      var e := events[0];
      hide Step, LacksOnlyExpired, Valid;
      SweepUnseenStep(a, b, max, now, e.now, e.op);
      StepKeeps(a, max, e.now, e.op);
      StepKeeps(b, max, e.now, e.op);
      var a' := Step(a, max, e.now, e.op).0;
      var b' := if e.op.Tick? then b else Step(b, max, e.now, e.op).0;
      SweepUnseen(a', b', max, e.now, events[1..]);
      if !e.op.Tick? { assert Unticked(events)[1..] == Unticked(events[1..]); }
    }
  }

  // ---- seen --------------------------------------------------------------------------------------

  /** With a bound it can be seen: in a full cache an expired entry keeps its place and a live one is pushed out. */
  lemma BoundedSweepShows<K(!new), V>(s: State<K, V>, max: nat, now: int, k: K, i: Item<V>, b: K, x: K)
    requires Valid(s, max) && |s.items| == max > 0 && k !in s.items && s.order != [] && b == s.order[|s.order| - 1]
    requires b in s.items && !IsExpired(s.items[b], now) && x in s.items && IsExpired(s.items[x], now)
    ensures b !in SetEntry(s, max, k, i).items
    ensures b in SetEntry(Swept(s, now), max, k, i).items
  {
    FullSetEvicts(s, max, k, i);
    var swept := Swept(s, now);
    assert swept.items.Keys == LiveKeys(s.items, now) <= s.items.Keys - {x};
    SubsetSize(swept.items.Keys, s.items.Keys - {x});
    assert swept.items[k := i].Keys == swept.items.Keys + {k};
  }

  lemma FullSetEvicts<K(!new), V>(s: State<K, V>, max: nat, k: K, i: Item<V>)
    requires Valid(s, max) && |s.items| == max > 0 && k !in s.items && s.order != []
    ensures s.order[|s.order| - 1] !in SetEntry(s, max, k, i).items
  {
    PutKeeps(s, max, k, i);
    EvictKeeps(Touch(s.(items := s.items[k := i]), k), k);
    assert k !in s.order && s.order[|s.order| - 1] in s.order;
    hide Valid, Without, NoDuplicates;
    NothingToDrop(s.order, k);
    assert ([k] + s.order)[|s.order|] == s.order[|s.order| - 1];
  }

  /** Whether a run from an empty cache looks the same without its ticks. */
  ghost predicate TicksUnseen<K(!new), V>(max: nat, events: seq<Event<K, V>>) {
    var empty: State<K, V> := State(map[], []);
    RunLength(empty, max, events);
    RunLength(empty, max, Unticked(events));
    Seen(events, Run(empty, max, events).1) == Seen(Unticked(events), Run(empty, max, Unticked(events)).1)
  }

  /** The filling entries: key 1 lives through instant 0 only, the others longer. */
  function Filling(i: int): Item<int> {
    Item(0, if i == 1 then 0 else 9)
  }

  function Fill(n: nat): seq<Event<int, int>> {
    seq(n, i => At(0, Set(i, 0, Filling(i).expiry)))
  }

  function Filled(n: nat): State<int, int> {
    State(map i: int | 0 <= i < n :: Filling(i), seq(n, j requires 0 <= j < n => n - 1 - j))
  }

  lemma {:induction false} RunJoin<K(!new), V>(s: State<K, V>, max: nat, a: seq<Event<K, V>>, b: seq<Event<K, V>>)
    ensures Run(s, max, a + b).0 == Run(Run(s, max, a).0, max, b).0
    ensures Run(s, max, a + b).1 == Run(s, max, a).1 + Run(Run(s, max, a).0, max, b).1
    decreases |a|
  {
    hide Step;
    if a == [] {
      assert a + b == b;
    } else {
      assert (a + b)[1..] == a[1..] + b;
      RunJoin(Step(s, max, a[0].now, a[0].op).0, max, a[1..], b);
    }
  }

  lemma FilledSize(n: nat)
    ensures |Filled(n).items| == n && Valid(Filled(n), n)
  {
    var s := Filled(n);
    forall k ensures k in s.order <==> k in s.items { if k in s.items { assert s.order[n - 1 - k] == k; } }
    DistinctCount(s.order, s.items.Keys);
  }

  lemma {:induction false} FillRuns(max: nat, n: nat)
    requires n <= max
    ensures Run(State(map[], []), max, Fill(n)).0 == Filled(n)
  {
    var empty: State<int, int> := State(map[], []);
    if n == 0 {
      assert Fill(0) == [] && Filled(0) == empty;
    } else {
      var last: seq<Event<int, int>> := [At(0, Set(n - 1, 0, Filling(n - 1).expiry))];
      assert Fill(n) == Fill(n - 1) + last;
      hide Run, Filled, SetEntry;
      RunJoin(empty, max, Fill(n - 1), last);
      FillRuns(max, n - 1);
      FillNext(max, n - 1);
      RunOne(Filled(n - 1), max, last[0]);
    }
  }

  lemma FillNext(max: nat, n: nat)
    requires n < max
    ensures SetEntry(Filled(n), max, n, Filling(n)) == Filled(n + 1)
  {
    hide SetEntry, Valid;
    FilledSize(n);
    FilledNext(n);
    SetNew(Filled(n), max, n, Filling(n));
  }

  lemma FilledNext(n: nat)
    ensures var s, next := Filled(n), Filled(n + 1);
            && n !in s.items && n !in s.order
            && next.items == s.items[n := Filling(n)] && next.order == [n] + s.order
  {
  }

  /** With room left, a new key goes to the front and nothing is evicted. */
  lemma SetNew<K(!new), V>(s: State<K, V>, max: nat, k: K, i: Item<V>)
    requires k !in s.items && k !in s.order && |s.items| < max
    ensures SetEntry(s, max, k, i) == State(s.items[k := i], [k] + s.order)
  {
    NothingToDrop(s.order, k);
    assert s.items[k := i].Keys == s.items.Keys + {k};
    assert |s.items[k := i]| == |s.items[k := i].Keys| == |s.items.Keys| + 1;
  }

  lemma RunOne<K(!new), V>(s: State<K, V>, max: nat, e: Event<K, V>)
    ensures Run(s, max, [e]).0 == Step(s, max, e.now, e.op).0
    ensures Run(s, max, [e]).1 == [Step(s, max, e.now, e.op).1]
  {
    hide Step;
    var one := [e];
    assert one[1..] == [];
    assert Run(Step(s, max, e.now, e.op).0, max, one[1..]) == (Step(s, max, e.now, e.op).0, []);
  }

  /** A full cache in which key 1 has expired, one more key, and a look at the oldest key. */
  function Probe(max: nat): seq<Event<int, int>> {
    [At(1, Set(max, 0, 9)), At(1, Get(0))]
  }

  lemma ProbeRuns(s: State<int, int>, max: nat)
    ensures Run(s, max, Probe(max)).1 ==
            [Unit, Step(SetEntry(s, max, max, Item(0, 10)), max, 1, Get(0)).1]
  {
    var first, second: Event<int, int> := At(1, Set(max, 0, 9)), At(1, Get(0));
    hide SetEntry, Run;
    assert Probe(max) == [first] + [second];
    RunJoin(s, max, [first], [second]);
    RunOne(s, max, first);
    RunOne(SetEntry(s, max, max, Item(0, 10)), max, second);
  }

  /** Without the tick the oldest key has been pushed out; with it, key 1 had made room. */
  lemma ProbeDiffers(max: nat)
    requires max >= 2
    ensures Step(SetEntry(Filled(max), max, max, Item(0, 10)), max, 1, Get(0)).1.Miss?
    ensures Step(SetEntry(Swept(Filled(max), 1), max, max, Item(0, 10)), max, 1, Get(0)).1.Hit?
  {
    var s := Filled(max);
    FilledSize(max);
    assert s.order[|s.order| - 1] == 0;
    BoundedSweepShows(s, max, 1, max, Item(0, 10), 0, 1);
    hide Valid;
    SweepKeeps(s, max, 1);
    SetOthers(Swept(s, 1), max, max, Item(0, 10), 0);
  }

  /** A key that survives a Set of another keeps its entry. */
  lemma SetOthers<K(!new), V>(s: State<K, V>, max: nat, k: K, i: Item<V>, b: K)
    requires b != k && b in SetEntry(s, max, k, i).items
    ensures b in s.items && SetEntry(s, max, k, i).items[b] == s.items[b]
  {
  }

  lemma {:induction false} SeenJoin<K(!new), V>(
    a: seq<Event<K, V>>, b: seq<Event<K, V>>, x: seq<Out<K, V>>, y: seq<Out<K, V>>)
    requires |x| == |a| && |y| == |b|
    ensures Seen(a + b, x + y) == Seen(a, x) + Seen(b, y)
    ensures Unticked(a + b) == Unticked(a) + Unticked(b)
    decreases |a|
  {
    if a == [] {
      assert a + b == b && x + y == y;
    } else {
      assert (a + b)[1..] == a[1..] + b && (x + y)[1..] == x[1..] + y;
      SeenJoin(a[1..], b, x[1..], y);
    }
  }

  lemma {:induction false} NoTicks<K(!new), V>(events: seq<Event<K, V>>)
    requires forall i :: 0 <= i < |events| ==> !events[i].op.Tick?
    ensures Unticked(events) == events
    decreases |events|
  {
    if events != [] { NoTicks(events[1..]); }
  }

  /** Filling the cache, a tick, and the probe. */
  function Telltale(max: nat): seq<Event<int, int>> {
    Fill(max) + ([At(1, Tick)] + Probe(max))
  }

  lemma TelltaleClock(max: nat)
    ensures ClockFrom(0, Telltale(max))
  {
    var e := Telltale(max);
    forall i | 0 <= i < |e| ensures e[i].now == if i < max then 0 else 1 {}
  }

  /** What a run of the telltale shows at its end. */
  lemma TelltaleSeen(max: nat, tick: seq<Event<int, int>>, s: State<int, int>)
    requires tick == [] || tick == [At(1, Tick)]
    requires s == if tick == [] then Filled(max) else Swept(Filled(max), 1)
    ensures var empty: State<int, int> := State(map[], []);
            var events := Fill(max) + (tick + Probe(max));
            var outs := Run(empty, max, events).1;
            && |outs| == |events| && Seen(events, outs) != []
            && Seen(events, outs)[|Seen(events, outs)| - 1]
               == Visible(Step(SetEntry(s, max, max, Item(0, 10)), max, 1, Get(0)).1)
  {
    hide Step, SetEntry, Swept, Filled;
    var empty: State<int, int> := State(map[], []);
    var rest := tick + Probe(max);
    RunLength(empty, max, Fill(max));
    RunJoin(empty, max, Fill(max), rest);
    FillRuns(max, max);
    var full := Filled(max);
    RunLength(full, max, rest);
    RunLength(full, max, tick);
    RunJoin(full, max, tick, Probe(max));
    assert Run(full, max, tick).0 == s by { TickRuns(full, max, tick); }
    ProbeRuns(s, max);
    var x, t, y := Run(empty, max, Fill(max)).1, Run(full, max, tick).1, Run(s, max, Probe(max)).1;
    SeenJoin(Fill(max), rest, x, t + y);
    SeenJoin(tick, Probe(max), t, y);
    ProbeSeen(max, y);
    assert Seen(tick, t) == [];
  }

  lemma TickRuns(s: State<int, int>, max: nat, tick: seq<Event<int, int>>)
    requires tick == [] || tick == [At(1, Tick)]
    ensures Run(s, max, tick).0 == if tick == [] then s else Swept(s, 1)
  {
  }

  lemma ProbeSeen(max: nat, y: seq<Out<int, int>>)
    requires |y| == 2
    ensures Seen(Probe(max), y) == [Visible(y[0]), Visible(y[1])]
  {
    var first, second: Event<int, int> := At(1, Set(max, 0, 9)), At(1, Get(0));
    assert Probe(max) == [first] + [second] && y == [y[0]] + [y[1]];
    SeenJoin([first], [second], [y[0]], [y[1]]);
    SeenOne(first, y[0]);
    SeenOne(second, y[1]);
  }

  lemma SeenOne<K(!new), V>(e: Event<K, V>, o: Out<K, V>)
    ensures Seen([e], [o]) == if e.op.Tick? then [] else [Visible(o)]
  {
    assert [e][1..] == [] && [o][1..] == [];
  }

  /** With a bound above one, a run shows the tick. */
  lemma TelltaleShows(max: nat)
    requires max >= 2
    ensures !TicksUnseen(max, Telltale(max))
  {
    hide Step, SetEntry, Swept, Filled, Run;
    ProbeDiffers(max);
    TelltaleSeen(max, [At(1, Tick)], Swept(Filled(max), 1));
    TelltaleSeen(max, [], Filled(max));
    TelltaleUnticked(max);
  }

  lemma TelltaleUnticked(max: nat)
    ensures Unticked(Telltale(max)) == Fill(max) + ([] + Probe(max))
  {
    var tick: seq<Event<int, int>> := [At(1, Tick)];
    var x, y, z: seq<Out<int, int>> := seq(max, _ => Unit), [Unit], [Unit, Unit];
    SeenJoin(Fill(max), tick + Probe(max), x, y + z);
    SeenJoin(tick, Probe(max), y, z);
    NoTicks(Fill(max));
    NoTicks(Probe(max));
    assert Unticked(tick) == [] && [] + Probe(max) == Probe(max);
  }

  /** Ticks go unseen in every run exactly when the cache has no bound or a bound of one. */
  lemma TicksUnseenIff(max: nat)
    ensures max <= 1 <==>
            forall now: int, events: seq<Event<int, int>> :: ClockFrom(now, events) ==> TicksUnseen(max, events)
  {
    hide Run, ClockFrom;
    if max <= 1 {
      var empty: State<int, int> := State(map[], []);
      forall now: int, events: seq<Event<int, int>> | ClockFrom(now, events) ensures TicksUnseen(max, events) {
        SweepUnseen(empty, empty, max, now, events);
      }
    } else {
      TelltaleClock(max);
      TelltaleShows(max);
    }
  }
}
