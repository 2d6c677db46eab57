/** The in-memory cache with expiry: lazy deletion on Get, and a background sweeper. What a string
    stands for as a value is left to the caller. */
module TtlCache {
  import opened Wrappers

  /** No expiry time means the entry never expires. */
  datatype Entry<V> = Entry(value: V, expiresAt: Option<int>)

  type Store<V> = map<string, Entry<V>>

  predicate Expired<V>(e: Entry<V>, now: int)
  {
    e.expiresAt.Some? && now > e.expiresAt.value
  }

  function NewEntry<V>(value: V, ttl: int, clock: int): Entry<V>
  {
    Entry(value, if ttl > 0 then Some(clock + ttl) else None)
  }

  function Swept<V>(store: Store<V>, clock: int): Store<V>
  {
    map k | k in store && !Expired(store[k], clock) :: store[k]
  }

  function AfterGet<V>(store: Store<V>, key: string, now: int): Store<V>
  {
    if key in store && Expired(store[key], now) then store - {key} else store
  }

  function Found<V>(store: Store<V>, key: string, now: int): Option<V>
  {
    if key in store && !Expired(store[key], now) then Some(store[key].value) else None
  }

  class Cache<V> {
    var store: Store<V>

    constructor ()
      ensures store == map[]
    {
      store := map[];
    }

    /** The clock is read inside the lock. */
    method Get(key: string, now: int) returns (r: Option<V>)
      modifies this
      ensures store == AfterGet(old(store), key, now)
      ensures r == Found(old(store), key, now)
    {
      if key !in store {
        return None;
      }
      var e := store[key];
      if e.expiresAt.Some? && now > e.expiresAt.value {
        store := store - {key};
        return None;
      }
      return Some(e.value);
    }

    /** The clock is read before the lock is taken. */
    method Set(key: string, value: V, ttl: int, clock: int)
      modifies this
      ensures store == old(store)[key := NewEntry(value, ttl, clock)]
    {
      var exp := None;
      if ttl > 0 {
        exp := Some(clock + ttl);
      }
      store := store[key := Entry(value, exp)];
    }

    method Del(key: string)
      modifies this
      ensures store == old(store) - {key}
    {
      store := store - {key};
    }

    /** One sweep; its clock is read before the lock is taken. */
    method DeleteExpired(clock: int)
      modifies this
      ensures store == Swept(old(store), clock)
    {
      var todo := store.Keys;
      while todo != {}
        invariant todo <= store.Keys <= old(store).Keys
        invariant forall k :: k in store ==> store[k] == old(store)[k]
        invariant forall k :: k in old(store) && k !in todo ==>
                    (k in store <==> !Expired(old(store)[k], clock))
      {
        var k :| k in todo;
        var e := store[k];
        if e.expiresAt.Some? && clock > e.expiresAt.value {
          store := store - {k};
        }
        todo := todo - {k};
      }
    }
  }

  // ---- Schedules ----

  datatype Call<V> =
    | GetCall(key: string, clock: int)
    | SetCall(key: string, value: V, ttl: int, clock: int)
    | DelCall(key: string)
    | SweepCall(clock: int)

  predicate MayEvict<V>(c: Call<V>) { c.GetCall? || c.SweepCall? }

  /** A Get reads the clock under the lock, so never earlier than a reading that already
      decided an eviction. Sweeps and Sets may come with readings as old as you like. */
  ghost predicate Monotone<V>(calls: seq<Call<V>>)
  {
    forall i, j :: 0 <= i < j < |calls| && MayEvict(calls[i]) && calls[j].GetCall? ==>
      calls[i].clock <= calls[j].clock
  }

  function After<V>(store: Store<V>, c: Call<V>): Store<V>
  {
    match c
    case GetCall(key, now) => AfterGet(store, key, now)
    case SetCall(key, value, ttl, clock) => store[key := NewEntry(value, ttl, clock)]
    case DelCall(key) => store - {key}
    case SweepCall(clock) => Swept(store, clock)
  }

  function Reached<V>(calls: seq<Call<V>>): Store<V>
  {
    if calls == [] then map[] else After(Reached(calls[..|calls| - 1]), calls[|calls| - 1])
  }

  /** The last value set for the key and not deleted since; expiry plays no part. */
  function LastSet<V>(calls: seq<Call<V>>, key: string): Option<Entry<V>>
  {
    if calls == [] then None else
    match calls[|calls| - 1]
    case SetCall(k, value, ttl, clock) =>
      if k == key then Some(NewEntry(value, ttl, clock)) else LastSet(calls[..|calls| - 1], key)
    case DelCall(k) =>
      if k == key then None else LastSet(calls[..|calls| - 1], key)
    case _ => LastSet(calls[..|calls| - 1], key)
  }

  ghost predicate Agrees<V>(calls: seq<Call<V>>, key: string)
  {
    var store, last := Reached(calls), LastSet(calls, key);
    if key in store then last == Some(store[key])
    else last.None? ||
         exists i :: 0 <= i < |calls| && MayEvict(calls[i]) && Expired(last.value, calls[i].clock)
  }

  lemma {:induction false} AlwaysAgrees<V>(calls: seq<Call<V>>, key: string)
    ensures Agrees(calls, key)
  {
    if calls != [] {
      var n := |calls| - 1;
      var before := calls[..n];
      AlwaysAgrees(before, key);
      var store, last := Reached(before), LastSet(before, key);
      if key !in store && last.Some? {
        var i :| 0 <= i < |before| && MayEvict(before[i]) && Expired(last.value, before[i].clock);
        assert MayEvict(calls[i]) && calls[i] == before[i];
      }
      if key in store && MayEvict(calls[n]) && key !in Reached(calls) {
        assert Expired(store[key], calls[n].clock);
      }
    }
  }

  /** The j-th call set the key, and none between it and the i-th set or deleted it. */
  predicate LastWrite<V>(calls: seq<Call<V>>, i: nat, j: int, key: string)
  {
    0 <= j < i <= |calls| && calls[j].SetCall? && calls[j].key == key &&
    forall m :: j < m < i ==> !((calls[m].SetCall? || calls[m].DelCall?) && calls[m].key == key)
  }

  lemma SameLastWrite<V>(calls: seq<Call<V>>, n: nat, k: int, key: string)
    requires n + 1 == |calls| && !((calls[n].SetCall? || calls[n].DelCall?) && calls[n].key == key)
    ensures LastWrite(calls, n + 1, k, key) <==> LastWrite(calls[..n], n, k, key)
  {
    assert forall m :: 0 <= m < n ==> calls[..n][m] == calls[m];
  }

  lemma {:induction false} LastSetIs<V>(calls: seq<Call<V>>, key: string) returns (j: int)
    ensures var last := LastSet(calls, key);
            if last.None? then forall k :: !LastWrite(calls, |calls|, k, key)
            else LastWrite(calls, |calls|, j, key) &&
                 last.value == NewEntry(calls[j].value, calls[j].ttl, calls[j].clock)
    decreases |calls|
  {
    j := 0;
    if calls != [] {
      var n := |calls| - 1;
      j := LastSetIs(calls[..n], key);
      if (calls[n].SetCall? || calls[n].DelCall?) && calls[n].key == key {
        j := n;
        assert forall k :: LastWrite(calls, |calls|, k, key) ==> k == n;
      } else {
        forall k
          ensures LastWrite(calls, |calls|, k, key) <==> LastWrite(calls[..n], n, k, key)
        {
          SameLastWrite(calls, n, k, key);
        }
      }
    }
  }

  lemma OneLastWrite<V>(calls: seq<Call<V>>, i: nat, j: int, k: int, key: string)
    requires LastWrite(calls, i, j, key) && LastWrite(calls, i, k, key)
    ensures j == k
  {
  }

  /** Lazy deletion and sweeping cannot be observed: for every schedule, a Get returns the value
      last set and not deleted since, if it was set for good or for no less than the time from the
      setter's clock reading to the Get's, and nothing otherwise. */
  lemma GetReturnsLastUnexpired<V>(calls: seq<Call<V>>, i: nat)
    requires Monotone(calls) && i < |calls| && calls[i].GetCall?
    ensures var key, now, got := calls[i].key, calls[i].clock, Found(Reached(calls[..i]), calls[i].key, calls[i].clock);
            && ((forall j :: !LastWrite(calls, i, j, key)) ==> got == None)
            && forall j :: LastWrite(calls, i, j, key) ==>
                 got == if calls[j].ttl <= 0 || now <= calls[j].clock + calls[j].ttl then Some(calls[j].value) else None
  {
    var key := calls[i].key;
    AlwaysAgrees(calls[..i], key);
    var j := LastSetIs(calls[..i], key);
    assert forall m :: 0 <= m < i ==> calls[..i][m] == calls[m];
    assert forall k :: LastWrite(calls[..i], i, k, key) <==> LastWrite(calls, i, k, key);
    forall k | LastWrite(calls, i, k, key)
      ensures k == j
    {
      OneLastWrite(calls, i, j, k, key);
    }
  }
}
