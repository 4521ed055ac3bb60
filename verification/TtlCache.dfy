/**
 The in-memory cache with a background janitor, against a timed map read off the history: sweeping is
 never visible as long as the clock does not go back.
 */
module TtlCache {
  import opened Octets

  datatype Item = Item(value: Bytes, expiration: int)

  /** What happened to the cache; a sweep may come at any time. */
  datatype Event = Set(key: Bytes, value: Bytes, now: int, ttl: int) | Delete(key: Bytes) | Sweep(now: int)

  /** The latest item set under the key and not deleted since; sweeps play no part. */
  function Latest(log: seq<Event>, key: Bytes): (r: Option<Item>) {
    if log == [] then None
    else
      var e := log[|log| - 1];
      if e.Set? && e.key == key then Some(Item(e.value, e.now + e.ttl))
      else if e.Delete? && e.key == key then None
      else Latest(log[..|log| - 1], key)
  }

  lemma LatestSnoc(log: seq<Event>, e: Event, key: Bytes)
    ensures Latest(log + [e], key) ==
      if e.Set? && e.key == key then Some(Item(e.value, e.now + e.ttl))
      else if e.Delete? && e.key == key then None
      else Latest(log, key)
  {
    assert (log + [e])[..|log|] == log;
  }

  /** The timed map: an item is visible up to and including its expiration. */
  function TimedGet(log: seq<Event>, key: Bytes, now: int): (r: Option<Bytes>) {
    var item := Latest(log, key);
    if item.Some? && now <= item.value.expiration then Some(item.value.value) else None
  }

  function WithoutSweeps(log: seq<Event>): (r: seq<Event>) {
    if log == [] then []
    else
      var e := log[|log| - 1];
      WithoutSweeps(log[..|log| - 1]) + if e.Sweep? then [] else [e]
  }

  lemma {:induction false} LatestSame(log: seq<Event>, key: Bytes)
    ensures Latest(WithoutSweeps(log), key) == Latest(log, key)
  {
    if log != [] {
      var n := |log| - 1;
      LatestSame(log[..n], key);
      if log[n].Sweep? {
        assert WithoutSweeps(log[..n]) + [] == WithoutSweeps(log[..n]);
      } else {
        LatestSnoc(WithoutSweeps(log[..n]), log[n], key);
      }
    }
  }

  /** The timed map does not see the sweeps. */
  lemma SweepsInvisible(log: seq<Event>, key: Bytes, now: int)
    ensures TimedGet(WithoutSweeps(log), key, now) == TimedGet(log, key, now)
  {
    LatestSame(log, key);
  }

  /** The stored item is the latest one, or the latest one has expired and was swept. */
  ghost predicate Agrees(items: map<Bytes, Item>, log: seq<Event>, clock: int, key: Bytes) {
    var item := Latest(log, key);
    if key in items then item == Some(items[key]) else item.Some? ==> item.value.expiration < clock
  }

  class InMemoryCache {
    var items: map<Bytes, Item>
    ghost var log: seq<Event>
    ghost var clock: int

    ghost predicate Valid()
      reads this
    {
      forall key :: Agrees(items, log, clock, key)
    }

    constructor (ghost now: int)
      ensures Valid() && log == [] && clock == now
    {
      items, log, clock := map[], [], now;
    }

    /** `now` is the reading of the clock, which does not go back. */
    method Get(key: Bytes, now: int) returns (r: Option<Bytes>)
      requires Valid() && clock <= now
      ensures r == TimedGet(log, key, now) == TimedGet(WithoutSweeps(log), key, now)
    {
      SweepsInvisible(log, key, now);
      assert Agrees(items, log, clock, key);
      if key !in items { return None; }
      var item := items[key];
      if now > item.expiration { return None; }
      r := Some(item.value);
    }

    method Set(key: Bytes, value: Bytes, ttl: int, now: int)
      requires Valid() && clock <= now
      modifies this
      ensures Valid() && clock == now && log == old(log) + [Event.Set(key, value, now, ttl)]
    {
      items := items[key := Item(value, now + ttl)];
      ghost var e := Event.Set(key, value, now, ttl);
      log, clock := log + [e], now;
      forall k ensures Agrees(items, log, clock, k) {
        LatestSnoc(old(log), e, k);
        assert old(Agrees(items, log, clock, k));
      }
    }

    method Delete(key: Bytes)
      requires Valid()
      modifies this
      ensures Valid() && clock == old(clock) && log == old(log) + [Event.Delete(key)]
    {
      items := items - {key};
      log := log + [Event.Delete(key)];
      forall k ensures Agrees(items, log, clock, k) {
        LatestSnoc(old(log), Event.Delete(key), k);
        assert old(Agrees(items, log, clock, k));
      }
    }

    /** One turn of the janitor, over the items in any order. */
    method Sweep(now: int)
      requires Valid() && clock <= now
      modifies this
      ensures Valid() && clock == now && log == old(log) + [Event.Sweep(now)]
      ensures forall key :: key in items <==> key in old(items) && now <= old(items)[key].expiration
    {
      var before := items;
      var todo := items.Keys;
      while todo != {}
        invariant todo <= before.Keys && log == old(log) && clock == old(clock)
        invariant items.Keys <= before.Keys && forall k :: k in items ==> items[k] == before[k]
        invariant forall k :: k in before ==> (k in items <==> k in todo || now <= before[k].expiration)
        decreases |todo|
      {
        var k :| k in todo;
        if now > items[k].expiration { items := items - {k}; }
        todo := todo - {k};
      }
      log, clock := log + [Event.Sweep(now)], now;
      forall k ensures Agrees(items, log, clock, k) {
        LatestSnoc(old(log), Event.Sweep(now), k);
        assert old(Agrees(items, log, clock, k));
      }
    }
  }
}
