/**
 The in-memory cache of `src/lib/cache.ts`: a map from key to
 `{value, timestamp}` with a one-hour time to live. The clock
 (`Date.now()`) is the parameter `now`. Unlike the persistent cache,
 `has` applies the expiry test too, and purges what it finds expired.
 */
module TtlCache {
  import opened Seqs

  /** One hour, in milliseconds. */
  const Ttl: int := 1000 * 60 * 60

  datatype Item<V> = Item(value: V, timestamp: int)

  type Storage<V> = map<string, Item<V>>

  /** The result of `get`: the storage after the call and the value returned (`null` is `None`). */
  datatype Lookup<V> = Lookup(storage: Storage<V>, value: Option<V>)

  /** The result of `has`: the storage after the call and the answer. */
  datatype Probe<V> = Probe(storage: Storage<V>, present: bool)

  /** The expiry test: strictly older than the TTL. An age of exactly `Ttl` is still live. */
  predicate Expired<V>(item: Item<V>, now: int)
  {
    now - item.timestamp > Ttl
  }

  /** The key holds an item that has not expired at `now`. */
  predicate Live<V>(s: Storage<V>, key: string, now: int)
  {
    key in s && !Expired(s[key], now)
  }

  /** `set(key, value)`: stores the value stamped with the current time, replacing any earlier item. */
  function Set<V>(s: Storage<V>, key: string, value: V, now: int): (r: Storage<V>)
    ensures r.Keys == s.Keys + {key}
    ensures r[key] == Item(value, now) && Live(r, key, now)
    ensures forall k :: k in s && k != key ==> r[k] == s[k]
  {
    s[key := Item(value, now)]
  }

  /**
   `get(key)`: a live item gives its value; an expired item is deleted and
   gives `null`; a missing key gives `null`. Other keys are never touched.
   */
  function Get<V>(s: Storage<V>, key: string, now: int): (r: Lookup<V>)
    ensures r.value.Some? <==> Live(s, key, now)
    ensures r.value.Some? ==> r.value.value == s[key].value
    ensures key !in r.storage <==> key !in s || Expired(s[key], now)
    ensures r.storage == s || r.storage == s - {key}
  {
    if key !in s then Lookup(s, None)
    else if now - s[key].timestamp > Ttl then Lookup(s - {key}, None)
    else Lookup(s, Some(s[key].value))
  }

  /** `has(key)`: the same expiry test as `get`, with the same purge, answering only presence. */
  function Has<V>(s: Storage<V>, key: string, now: int): (r: Probe<V>)
    ensures r.present <==> Live(s, key, now)
    ensures key !in r.storage <==> key !in s || Expired(s[key], now)
    ensures r.storage == s || r.storage == s - {key}
  {
    if key !in s then Probe(s, false)
    else if now - s[key].timestamp > Ttl then Probe(s - {key}, false)
    else Probe(s, true)
  }

  /** `delete(key)`. */
  function Delete<V>(s: Storage<V>, key: string): (r: Storage<V>)
    ensures key !in r
    ensures forall k :: k != key ==> (k in r <==> k in s)
    ensures forall k :: k in r ==> r[k] == s[k]
  {
    s - {key}
  }

  /** `clear()`. */
  function Clear<V>(s: Storage<V>): (r: Storage<V>)
    ensures |r| == 0
  {
    map[]
  }

  /** Within the TTL, inclusive of its last millisecond, `get` returns what `set` stored and deletes nothing. */
  lemma SetThenGet<V>(s: Storage<V>, key: string, value: V, now: int, later: int)
    requires later - now <= Ttl
    ensures Get(Set(s, key, value, now), key, later) == Lookup(Set(s, key, value, now), Some(value))
  {
  }

  /** Past the TTL `get` returns `null`, and the key is gone while every other key stays. */
  lemma SetThenGetExpired<V>(s: Storage<V>, key: string, value: V, now: int, later: int)
    requires later - now > Ttl
    ensures Get(Set(s, key, value, now), key, later).value.None?
    ensures Get(Set(s, key, value, now), key, later).storage == s - {key}
  {
    assert Set(s, key, value, now) - {key} == s - {key};
  }

  /** At the same instant `has` answers exactly when `get` returns a value, and both leave the same storage. */
  lemma HasAgreesWithGet<V>(s: Storage<V>, key: string, now: int)
    ensures Has(s, key, now).present <==> Get(s, key, now).value.Some?
    ensures Has(s, key, now).storage == Get(s, key, now).storage
  {
  }

  /** Asking twice at the same instant gives the same answer and purges nothing more. */
  lemma GetTwice<V>(s: Storage<V>, key: string, now: int)
    ensures var first := Get(s, key, now);
      Get(first.storage, key, now) == first
  {
  }

  /** A second `set` of the same key replaces the first one's value and timestamp. */
  lemma SetOverwrites<V>(s: Storage<V>, key: string, v1: V, t1: int, v2: V, t2: int)
    ensures Set(Set(s, key, v1, t1), key, v2, t2) == Set(s, key, v2, t2)
  {
  }

  /** `delete` affects no other key's lookup. */
  lemma DeleteKeepsOthers<V>(s: Storage<V>, key: string, other: string, now: int)
    requires other != key
    ensures Get(Delete(s, key), other, now).value == Get(s, other, now).value
    ensures Get(Delete(s, key), key, now).value.None?
  {
  }

  /** After `clear`, every `get` returns `null` and every `has` answers false. */
  lemma ClearThenGet<V>(s: Storage<V>, key: string, now: int)
    ensures Get(Clear(s), key, now).value.None?
    ensures !Has(Clear(s), key, now).present
  {
  }
}
