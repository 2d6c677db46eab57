/** The one cache that both caching repositories use. Its keys are strings and its entries expire;
    its callers need know neither. */
module SharedCaching {
  import opened Wrappers
  import opened CacheKeys
  import Ttl = TtlCache

  /** The string-keyed store says of each key nothing but what was last set under that key. */
  ghost predicate Holds(store: Ttl.Store<CacheValue>, entries: map<Key, CacheValue>)
  {
    forall k :: Render(k) in store ==> k in entries && store[Render(k)].value == entries[k]
  }

  /** Holds goes on because no two keys are the same string. */
  lemma SetHolds(store: Ttl.Store<CacheValue>, entries: map<Key, CacheValue>, key: Key, value: CacheValue,
                 ttl: int, clock: int)
    requires Holds(store, entries)
    ensures Holds(store[Render(key) := Ttl.NewEntry(value, ttl, clock)], entries[key := value])
  {
    forall k
      ensures Render(k) == Render(key) <==> k == key
    {
      KeysInjective(k, key);
    }
  }

  lemma DelHolds(store: Ttl.Store<CacheValue>, entries: map<Key, CacheValue>, key: Key)
    requires Holds(store, entries)
    ensures Holds(store - {Render(key)}, entries - {key})
  {
    forall k
      ensures Render(k) == Render(key) <==> k == key
    {
      KeysInjective(k, key);
    }
  }

  /** The in-memory cache at whatever clock readings and lifetimes, any of whose calls but a Del or
      a write-path Set may fail. `entries` is what its callers may go by: a Get returns what stands
      there for the key, or misses. */
  class SharedCache {
    var store: Ttl.Store<CacheValue>
    ghost var entries: map<Key, CacheValue>

    ghost predicate Valid()
      reads this
    {
      Holds(store, entries)
    }

    constructor ()
      ensures Valid() && entries == map[]
    {
      store, entries := map[], map[];
    }

    /** The sweeper may have come by in the meantime. */
    method Get(key: Key) returns (r: Option<CacheValue>)
      requires Valid()
      modifies this
      ensures Valid() && entries == old(entries)
      ensures r.Some? ==> key in entries && r.value == entries[key]
    {
      var sweeps: bool, sweepClock: int, answers: bool, now: int := *, *, *, *;
      if sweeps {
        store := Ttl.Swept(store, sweepClock);
      }
      r := None;
      if answers {
        r := Ttl.Found(store, Render(key), now);
        store := Ttl.AfterGet(store, Render(key), now);
      }
    }

    method Set(key: Key, value: CacheValue)
      requires Valid()
      modifies this
      ensures Valid() && entries == old(entries)[key := value]
    {
      var ttl: int, clock: int := *, *;
      SetHolds(store, entries, key, value, ttl, clock);
      store := store[Render(key) := Ttl.NewEntry(value, ttl, clock)];
      entries := entries[key := value];
    }

    method TrySet(key: Key, value: CacheValue)
      requires Valid()
      modifies this
      ensures Valid() && (entries == old(entries) || entries == old(entries)[key := value])
    {
      var succeeds: bool := *;
      if succeeds {
        Set(key, value);
      }
    }

    method Del(key: Key)
      requires Valid()
      modifies this
      ensures Valid() && entries == old(entries) - {key}
    {
      DelHolds(store, entries, key);
      store := store - {Render(key)};
      entries := entries - {key};
    }
  }
}
