/** The bus object: subscription slices that share and reuse their backing arrays (eventbus/eventbus.go). */
module EventBusObject {
  type EventID = string

  /** A subscription; the handler is named, not modelled. */
  datatype Info = Info(id: nat, handler: string)

  /** A Go slice: a backing array and how much of it is in use. */
  datatype Slice = Slice(arr: array<Info>, len: nat)

  /** The list without the first entry that has this id. */
  function Dropped(s: seq<Info>, id: nat): seq<Info> {
    if s == [] then [] else if s[0].id == id then s[1..] else [s[0]] + Dropped(s[1..], id)
  }

  lemma {:induction false} DroppedAt(s: seq<Info>, id: nat, i: nat)
    requires i < |s| && s[i].id == id && forall j :: 0 <= j < i ==> s[j].id != id
    ensures Dropped(s, id) == s[..i] + s[i + 1..]
  {
    if i > 0 {
      DroppedAt(s[1..], id, i - 1);
      assert s[..i] == [s[0]] + s[1..][..i - 1];
      assert s[1..][i..] == s[i + 1..];
    }
  }

  lemma {:induction false} NothingDropped(s: seq<Info>, id: nat)
    requires forall j :: 0 <= j < |s| ==> s[j].id != id
    ensures Dropped(s, id) == s
  {
    if s != [] { NothingDropped(s[1..], id); }
  }

  /** Ids grow along the list and stay below the bound, so no id occurs twice. */
  predicate Ordered(s: seq<Info>, bound: nat) {
    (forall i :: 0 <= i < |s| ==> s[i].id < bound) && (forall i, j :: 0 <= i < j < |s| ==> s[i].id < s[j].id)
  }

  /** Dropping an id from an ordered list drops the one entry that has it and keeps every other. */
  lemma DroppedMeans(s: seq<Info>, id: nat, bound: nat)
    requires s == [] || Ordered(s, bound)
    ensures forall x :: x in Dropped(s, id) <==> x in s && x.id != id
  {
    if i :| 0 <= i < |s| && s[i].id == id {
      DroppedAt(s, id, i);
      assert s == s[..i] + [s[i]] + s[i + 1..];
    } else {
      NothingDropped(s, id);
    }
  }

  lemma OrderedAppend(s: seq<Info>, id: nat, x: Info)
    requires Ordered(s, id) && x.id == id
    ensures Ordered(s + [x], id + 1)
  {
  }

  lemma OrderedCut(s: seq<Info>, i: nat, bound: nat)
    requires Ordered(s, bound) && i < |s|
    ensures Ordered(s[..i] + s[i + 1..], bound)
  {
  }

  lemma OrderedBelow(s: seq<Info>, bound: nat, x: Info)
    requires Ordered(s, bound) && x in s
    ensures x.id < bound
  {
  }

  lemma NoneOrdered(id: nat)
    ensures Ordered([], id)
  {
  }

  lemma OrderedLater(s: seq<Info>, id: nat)
    requires Ordered(s, id)
    ensures Ordered(s, id + 1)
  {
  }

  class Bus {
    var nextID: nat
    var infos: map<EventID, Slice>

    /** The backing arrays the bus writes to. */
    ghost function Repr(): set<object>
      reads this
    {
      set e | e in infos :: infos[e].arr
    }

    ghost predicate Valid()
      reads this, Repr()
    {
      && (forall e :: e in infos ==> 0 < infos[e].len <= infos[e].arr.Length)
      && (forall e, f :: e in infos && f in infos && e != f ==> infos[e].arr != infos[f].arr)
      && (forall e :: e in infos ==> Ordered(infos[e].arr[..infos[e].len], nextID))
    }

    /** The subscriptions of an event, in order. */
    ghost function Subscribers(e: EventID): seq<Info>
      reads this, Repr()
      requires Valid()
    {
      if e in infos then infos[e].arr[..infos[e].len] else []
    }

    constructor ()
      ensures Valid() && fresh(Repr()) && forall e :: Subscribers(e) == []
    {
      nextID, infos := 0, map[];
    }

    /** append: in place while there is room, else into a larger array. */
    method Append(s: Slice, x: Info) returns (r: Slice)
      requires s.len <= s.arr.Length
      modifies s.arr
      ensures r.len == s.len + 1 && r.len <= r.arr.Length
      ensures r.arr == s.arr || fresh(r.arr)
      ensures r.arr[..r.len] == old(s.arr[..s.len]) + [x]
    {
      if s.len < s.arr.Length {
        s.arr[s.len] := x;
        return Slice(s.arr, s.len + 1);
      }
      var bigger := new Info[2 * s.len + 1](_ => x);
      forall i | 0 <= i < s.len { bigger[i] := s.arr[i]; }
      r := Slice(bigger, s.len + 1);
    }

    /** Every event but this one is in order, and none of them shares the given array. */
    ghost predicate OthersValid(e: EventID, arr: array<Info>, next: nat)
      reads this, Repr()
    {
      && (forall f :: f in infos && f != e ==> 0 < infos[f].len <= infos[f].arr.Length && infos[f].arr != arr)
      && (forall f, g :: f in infos && g in infos && f != e && g != e && f != g ==> infos[f].arr != infos[g].arr)
      && (forall f :: f in infos && f != e ==> Ordered(infos[f].arr[..infos[f].len], next))
    }

    /** Points an event at a slice; no array changes. */
    method Install(e: EventID, s: Slice, next: nat)
      requires 0 < s.len <= s.arr.Length && OthersValid(e, s.arr, next) && Ordered(s.arr[..s.len], next)
      modifies this
      ensures Valid() && nextID == next && infos == old(infos)[e := s]
    {
      infos, nextID := infos[e := s], next;
    }

    method Subscribe(e: EventID, handler: string) returns (id: nat)
      requires Valid()
      modifies this, Repr()
      ensures Valid() && forall o :: o in Repr() ==> o in old(Repr()) || fresh(o)
      ensures id == old(nextID) && nextID == id + 1
      ensures forall f, x :: x in old(Subscribers(f)) ==> x.id != id
      ensures Subscribers(e) == old(Subscribers(e)) + [Info(id, handler)]
      ensures forall f :: f != e ==> Subscribers(f) == old(Subscribers(f))
    {
      hide Ordered;
      id := nextID;
      ghost var before := Subscribers(e);
      forall f, x | x in Subscribers(f) ensures x.id != id { OrderedBelow(Subscribers(f), id, x); }
      OrderedStep(id);
      NoneOrdered(id);
      OrderedAppend(before, id, Info(id, handler));
      var s: Slice;
      if e in infos {
        s := infos[e];
      } else {
        var none := new Info[0];
        s := Slice(none, 0);
      }
      assert OthersValid(e, s.arr, id + 1) && s.arr[..s.len] == before;
      label L:
      s := Append(s, Info(id, handler));
      assert forall f :: f in infos && f != e ==> infos[f].arr[..infos[f].len] == old@L(infos[f].arr[..infos[f].len]);
      Install(e, s, id + 1);
    }

    lemma OrderedStep(id: nat)
      requires Valid() && id == nextID
      ensures forall f :: f in infos ==> Ordered(infos[f].arr[..infos[f].len], id + 1)
    {
      forall f | f in infos ensures Ordered(infos[f].arr[..infos[f].len], id + 1) {
        OrderedLater(infos[f].arr[..infos[f].len], id);
      }
    }

    /** Unsubscribe: shifts the tail left in place; an unknown subscription changes nothing. */
    method Unsubscribe(e: EventID, id: nat)
      requires Valid()
      modifies this, Repr()
      ensures Valid() && Repr() <= old(Repr()) && nextID == old(nextID)
      ensures Subscribers(e) == Dropped(old(Subscribers(e)), id)
      ensures forall x :: x in Subscribers(e) <==> x in old(Subscribers(e)) && x.id != id
      ensures forall f :: f != e ==> Subscribers(f) == old(Subscribers(f))
    {
      hide Ordered, Dropped;
      DroppedMeans(Subscribers(e), id, nextID);
      if e !in infos {
        NothingDropped([], id);
        return;
      }
      var i := Position(infos[e], id);
      if i == infos[e].len {
        NothingDropped(Subscribers(e), id);
        return;
      }
      DroppedAt(Subscribers(e), id, i);
      DropAt(e, i);
    }

    /** Removes one position by shifting the rest over it; an event left without subscribers is forgotten. */
    method DropAt(e: EventID, i: nat)
      requires Valid() && e in infos && i < infos[e].len
      modifies this, infos[e].arr
      ensures Valid() && Repr() <= old(Repr()) && nextID == old(nextID)
      ensures Subscribers(e) == old(Subscribers(e)[..i] + Subscribers(e)[i + 1..])
      ensures forall f :: f != e ==> Subscribers(f) == old(Subscribers(f))
    {
      hide Ordered;
      var s := infos[e];
      ghost var before := s.arr[..s.len];
      OrderedCut(before, i, nextID);
      label L:
      ShiftLeft(s.arr, i, s.len);
      assert s.arr[..s.len - 1] == before[..i] + before[i + 1..];
      assert forall f :: f in infos && f != e ==> infos[f].arr[..infos[f].len] == old@L(infos[f].arr[..infos[f].len]);
      if s.len == 1 {
        Forget(e);
      } else {
        Install(e, Slice(s.arr, s.len - 1), nextID);
      }
    }

    method Forget(e: EventID)
      requires e in infos && OthersValid(e, infos[e].arr, nextID)
      modifies this
      ensures Valid() && nextID == old(nextID) && infos == old(infos) - {e}
    {
      infos := infos - {e};
    }

    /** Where the id is in a slice, or its length. */
    method Position(s: Slice, id: nat) returns (i: nat)
      requires s.len <= s.arr.Length
      ensures i <= s.len && (i < s.len ==> s.arr[i].id == id) && forall j :: 0 <= j < i ==> s.arr[j].id != id
    {
      i := 0;
      while i < s.len && s.arr[i].id != id
        invariant i <= s.len && forall j :: 0 <= j < i ==> s.arr[j].id != id
      {
        i := i + 1;
      }
    }

    method ShiftLeft(a: array<Info>, i: nat, len: nat)
      requires i < len <= a.Length
      modifies a
      ensures a[..i] == old(a[..i]) && a[i..len - 1] == old(a[i + 1..len])
    {
      var j := i;
      while j < len - 1
        invariant i <= j <= len - 1
        invariant a[..i] == old(a[..i]) && a[i..j] == old(a[i + 1..j + 1]) && a[j + 1..len] == old(a[j + 1..len])
      {
        a[j] := a[j + 1];
        j := j + 1;
      }
    }

    /** copySubscriptions: an array of its own. */
    method CopySubscriptions(e: EventID) returns (snapshot: array<Info>)
      requires Valid()
      ensures fresh(snapshot) && snapshot[..] == Subscribers(e)
    {
      if e !in infos {
        snapshot := new Info[0];
        return;
      }
      var s := infos[e];
      snapshot := new Info[s.len](i requires 0 <= i < s.len && s.len <= s.arr.Length reads s.arr => s.arr[i]);
    }
  }

  datatype Change = Subscribe(e: EventID, handler: string) | Unsubscribe(e: EventID, id: nat)

  /** No sequence of later subscriptions and removals, in place or not, alters a snapshot already taken. */
  method SnapshotSurvives(bus: Bus, e: EventID, changes: seq<Change>) returns (snapshot: array<Info>)
    requires bus.Valid()
    modifies bus, bus.Repr()
    ensures fresh(snapshot) && snapshot[..] == old(bus.Subscribers(e))
  {
    snapshot := bus.CopySubscriptions(e);
    for i := 0 to |changes|
      invariant bus.Valid() && snapshot !in bus.Repr()
      invariant forall o :: o in bus.Repr() ==> o in old(bus.Repr()) || fresh(o)
      invariant snapshot[..] == old(bus.Subscribers(e))
    {
      match changes[i]
      case Subscribe(f, h) => var id := bus.Subscribe(f, h);
      case Unsubscribe(f, id) => bus.Unsubscribe(f, id);
    }
  }
}
