/**
 The `localStorage`-backed cache of `src/lib/persistentCache.ts`.

 The browser store is a map from key to raw text; the model keeps, for each
 key, either the parsed entry `{value, timestamp, version}` or `None` when
 the text is empty or does not parse. The clock (`Date.now()`) is the
 parameter `now`, the storage quota is a number of keys `capacity`, and the
 enumeration order of `Object.keys(localStorage)` is the parameter `order`.
 Response-time bookkeeping is left out.
 */
module PersistentCache {
  import opened Seqs

  /** Entries older than one hour (in milliseconds) are stale. */
  const TtlMs: int := 60 * 60 * 1000
  /** The only entry format version `get` accepts. */
  const FormatVersion: string := "1.0"

  datatype Entry<V> = Entry(value: V, timestamp: int, version: string)

  /** Key to parsed entry; `None` for empty or unparseable text. */
  type Store<V> = map<string, Option<Entry<V>>>

  datatype Cache<V> = Cache(store: Store<V>, hits: nat, misses: nat, totalRequests: nat)

  datatype Lookup<V> = Lookup(cache: Cache<V>, value: Option<V>)

  datatype Written<V> = Written(cache: Cache<V>, stored: bool)

  datatype Stats = Stats(totalItems: nat, hitRate: real, missRate: real)

  /** Every hit and every miss was counted as a request. */
  predicate CountersConsistent<V>(c: Cache<V>)
  {
    c.hits + c.misses <= c.totalRequests
  }

  /** The key holds a parsed entry. */
  predicate HasEntry<V>(store: Store<V>, k: string)
  {
    k in store && store[k].Some?
  }

  function Age<V>(store: Store<V>, k: string): int
    requires HasEntry(store, k)
  {
    store[k].value.timestamp
  }

  /** An entry `get` returns: younger than the TTL and of the current version. */
  predicate Usable<V>(e: Entry<V>, now: int)
  {
    now - e.timestamp <= TtlMs && e.version == FormatVersion
  }

  /** A parsed entry that `get` throws away. */
  predicate Stale<V>(store: Store<V>, k: string, now: int)
  {
    HasEntry(store, k) && !Usable(store[k].value, now)
  }

  // ---------------------------------------------------------------- get

  /**
   `get(key)`: a usable entry is a hit; an expired or wrong-version entry
   is removed and is a miss; a missing or unparseable one is a miss that
   leaves the store alone.
   */
  function Get<V>(c: Cache<V>, key: string, now: int): (r: Lookup<V>)
    ensures r.value.Some? <==> HasEntry(c.store, key) && Usable(c.store[key].value, now)
    ensures r.value.Some? ==> r.value.value == c.store[key].value.value
    ensures r.cache.totalRequests == c.totalRequests + 1
    ensures r.value.Some? ==> r.cache.hits == c.hits + 1 && r.cache.misses == c.misses
    ensures r.value.None? ==> r.cache.hits == c.hits && r.cache.misses == c.misses + 1
    ensures Stale(c.store, key, now) ==> r.cache.store == c.store - {key}
    ensures !Stale(c.store, key, now) ==> r.cache.store == c.store
    ensures CountersConsistent(c) ==> CountersConsistent(r.cache)
  {
    var counted := c.(totalRequests := c.totalRequests + 1);
    if key !in c.store || c.store[key].None? then
      Lookup(counted.(misses := c.misses + 1), None)
    else
      var e := c.store[key].value;
      if now - e.timestamp > TtlMs then
        Lookup(counted.(store := c.store - {key}, misses := c.misses + 1), None)
      else if e.version != FormatVersion then
        Lookup(counted.(store := c.store - {key}, misses := c.misses + 1), None)
      else
        Lookup(counted.(hits := c.hits + 1), Some(e.value))
  }

  // ---------------------------------------------------------------- eviction

  /** `order` lists every key of the store exactly once. */
  predicate IsListing<V>(order: seq<string>, store: Store<V>)
  {
    Distinct(order) && (forall k :: k in order ==> k in store) && (forall k :: k in store ==> k in order)
  }

  /**
   `order` lists every key of the store, each once, and possibly keys
   removed since: filtering it by the keys still present gives what
   `Object.keys` would list after a removal.
   */
  predicate Covers<V>(order: seq<string>, store: Store<V>)
  {
    Distinct(order) && forall k :: k in store ==> k in order
  }

  function ParseableKeys<V>(store: Store<V>): set<string>
  {
    set k | k in store.Keys && store[k].Some?
  }

  function ParseableCount<V>(store: Store<V>): nat
  {
    |ParseableKeys(store)|
  }

  /** `Math.ceil(n * 0.2)`: the least `k` with `5 * k >= n`. */
  function EvictionCount(n: nat): (k: nat)
    ensures 5 * k >= n
    ensures k > 0 ==> 5 * (k - 1) < n
    ensures k <= n
  {
    (n + 4) / 5
  }

  predicate AllHaveEntries<V>(store: Store<V>, s: seq<string>)
  {
    forall i :: 0 <= i < |s| ==> HasEntry(store, s[i])
  }

  ghost predicate OldestFirst<V>(store: Store<V>, s: seq<string>)
    requires AllHaveEntries(store, s)
  {
    forall i, j :: 0 <= i < j < |s| ==> Age(store, s[i]) <= Age(store, s[j])
  }

  /** Insert `k` before the first key that is not older than it, so equal timestamps keep their order. */
  function InsertByAge<V>(store: Store<V>, k: string, s: seq<string>): (r: seq<string>)
    requires HasEntry(store, k) && AllHaveEntries(store, s) && OldestFirst(store, s)
    ensures |r| == |s| + 1
    ensures multiset(r) == multiset(s) + multiset{k}
    ensures AllHaveEntries(store, r) && OldestFirst(store, r)
    decreases |s|
  {
    if |s| == 0 then [k]
    else if Age(store, k) <= Age(store, s[0]) then [k] + s
    else
      var rest := InsertByAge(store, k, s[1..]);
      InsertBehindHead(store, k, s, rest);
      [s[0]] + rest
  }

  /** When `k` is younger than the head, the head goes in front of `k` inserted into the tail. */
  lemma InsertBehindHead<V>(store: Store<V>, k: string, s: seq<string>, rest: seq<string>)
    requires HasEntry(store, k) && |s| > 0 && AllHaveEntries(store, s) && OldestFirst(store, s)
    requires Age(store, s[0]) <= Age(store, k)
    requires AllHaveEntries(store, rest) && OldestFirst(store, rest)
    requires multiset(rest) == multiset(s[1..]) + multiset{k}
    ensures multiset([s[0]] + rest) == multiset(s) + multiset{k}
    ensures AllHaveEntries(store, [s[0]] + rest) && OldestFirst(store, [s[0]] + rest)
  {
    assert s == [s[0]] + s[1..];
    forall i | 0 <= i < |rest| ensures Age(store, s[0]) <= Age(store, rest[i]) {
      assert rest[i] in multiset(rest);
    }
    ConsOldestFirst(store, s[0], rest);
  }

  /** A key no younger than every key of an oldest-first list may go in front of it. */
  lemma ConsOldestFirst<V>(store: Store<V>, x: string, s: seq<string>)
    requires HasEntry(store, x) && AllHaveEntries(store, s) && OldestFirst(store, s)
    requires forall i :: 0 <= i < |s| ==> Age(store, x) <= Age(store, s[i])
    ensures AllHaveEntries(store, [x] + s) && OldestFirst(store, [x] + s)
  {
    var r := [x] + s;
    forall i, j | 0 <= i < j < |r| ensures Age(store, r[i]) <= Age(store, r[j]) {
      assert r[j] == s[j - 1];
      if i > 0 {
        assert r[i] == s[i - 1];
      }
    }
  }

  /** The stable sort by ascending timestamp that `items.sort(...)` performs. */
  function SortByAge<V>(store: Store<V>, s: seq<string>): (r: seq<string>)
    requires AllHaveEntries(store, s)
    ensures |r| == |s|
    ensures multiset(r) == multiset(s)
    ensures AllHaveEntries(store, r) && OldestFirst(store, r)
    decreases |s|
  {
    if |s| == 0 then []
    else
      assert s == [s[0]] + s[1..];
      InsertByAge(store, s[0], SortByAge(store, s[1..]))
  }

  /** The keys of `keys` whose text parses, in listing order: the `map(...).filter(...)` of `clearOldItems()`. */
  function Candidates<V>(store: Store<V>, keys: seq<string>): (r: seq<string>)
    ensures AllHaveEntries(store, r)
    ensures forall k :: k in r <==> k in keys && HasEntry(store, k)
    ensures Covers(keys, store) ==> Distinct(r) && |r| == ParseableCount(store)
  {
    var r := Filter(keys, k => HasEntry(store, k));
    if Covers(keys, store) then
      FilterDistinct(keys, k => HasEntry(store, k));
      assert Elems(r) == ParseableKeys(store);
      DistinctCardinality(r);
      r
    else r
  }

  /** `items.sort(...)` by ascending timestamp, then `slice(0, Math.ceil(items.length * 0.2))`. */
  function OldestFifth<V>(store: Store<V>, items: seq<string>): seq<string>
    requires AllHaveEntries(store, items)
  {
    var sorted := SortByAge(store, items);
    sorted[..EvictionCount(|sorted|)]
  }

  /** The oldest fifth (rounded up) of the parseable keys. */
  function Victims<V>(store: Store<V>, order: seq<string>): (v: seq<string>)
    requires Covers(order, store)
    ensures Distinct(v)
    ensures forall k :: k in v ==> HasEntry(store, k)
    ensures |v| == EvictionCount(ParseableCount(store))
    ensures forall a, b :: a in v && HasEntry(store, b) && b !in v ==> Age(store, a) <= Age(store, b)
  {
    var candidates := Candidates(store, order);
    OldestFifthFacts(store, candidates);
    OldestFifth(store, candidates)
  }

  /** The oldest fifth of distinct collected keys: distinct, collected, ⌈n/5⌉ of them, and none younger than a key left out. */
  lemma OldestFifthFacts<V>(store: Store<V>, items: seq<string>)
    requires AllHaveEntries(store, items) && Distinct(items)
    ensures var v := OldestFifth(store, items);
      && Distinct(v) && (forall k :: k in v ==> k in items) && |v| == EvictionCount(|items|)
      && forall a, b :: a in v && b in items && b !in v ==> Age(store, a) <= Age(store, b)
  {
    var oldest := SortByAge(store, items);
    PermutationDistinct(items, oldest);
    var m := EvictionCount(|oldest|);
    var v := oldest[..m];
    assert v == OldestFifth(store, items);
    assert forall k :: k in oldest <==> k in items by {
      forall k ensures k in oldest <==> k in items {
        assert k in oldest <==> k in multiset(oldest);
        assert k in items <==> k in multiset(items);
      }
    }
    assert forall k :: k in v ==> k in oldest;
    assert Distinct(v) by {
      forall i, j | 0 <= i < j < |v| ensures v[i] != v[j] {
        assert v[i] == oldest[i] && v[j] == oldest[j];
      }
    }
    VictimsAreOldest(store, oldest, m);
  }

  lemma VictimsAreOldest<V>(store: Store<V>, oldest: seq<string>, m: nat)
    requires m <= |oldest| && Distinct(oldest)
    requires AllHaveEntries(store, oldest) && OldestFirst(store, oldest)
    ensures forall a, b :: a in oldest[..m] && b in oldest && b !in oldest[..m] ==> Age(store, a) <= Age(store, b)
  {
    forall a, b | a in oldest[..m] && b in oldest && b !in oldest[..m]
      ensures Age(store, a) <= Age(store, b)
    {
      var i :| 0 <= i < m && oldest[..m][i] == a;
      var j :| 0 <= j < |oldest| && oldest[j] == b;
    }
  }

  /** Removing a set of present keys shrinks the map by the size of the set. */
  lemma RemoveKeysCardinality<V>(store: Store<V>, keys: set<string>)
    requires keys <= store.Keys
    ensures |store - keys| == |store| - |keys|
  {
    assert (store - keys).Keys == store.Keys - keys;
    assert store.Keys == (store.Keys - keys) + keys;
  }

  /** `small` keeps some of the keys of `big`, each with its text unchanged. */
  ghost predicate Shrinks<V>(small: Store<V>, big: Store<V>)
  {
    forall k :: k in small ==> k in big && small[k] == big[k]
  }

  /** Every key removed from `big` was parseable and no younger than any parseable key left in `small`. */
  ghost predicate TookOldest<V>(big: Store<V>, small: Store<V>)
  {
    forall a, b :: a in big && a !in small && HasEntry(small, b) ==>
      HasEntry(big, a) && Age(big, a) <= Age(small, b)
  }

  /** The end of `clearOldItems()`: `removeItem` on each of the oldest fifth of the collected `items`. */
  function RemoveOldestFifth<V>(store: Store<V>, items: seq<string>): Store<V>
    requires AllHaveEntries(store, items)
  {
    store - (set k | k in OldestFifth(store, items))
  }

  /**
   `clearOldItems()`: walks `keys`, collecting in `items` those whose text
   parses, then removes the oldest fifth (rounded up) of what it collected.
   */
  function ClearOldItems<V>(store: Store<V>, keys: seq<string>, items: seq<string>): Store<V>
    requires AllHaveEntries(store, items)
    decreases |keys|
  {
    if |keys| == 0 then RemoveOldestFifth(store, items)
    else ClearOldItems(store, keys[1..], if HasEntry(store, keys[0]) then items + [keys[0]] else items)
  }

  /** Collected items and candidates all hold parsed entries. */
  lemma CollectedHaveEntries<V>(store: Store<V>, keys: seq<string>, items: seq<string>)
    requires AllHaveEntries(store, items)
    ensures AllHaveEntries(store, items + Candidates(store, keys))
  {
    var c := Candidates(store, keys);
    forall i | 0 <= i < |items + c| ensures HasEntry(store, (items + c)[i]) {
      if i >= |items| {
        assert (items + c)[i] == c[i - |items|];
      }
    }
  }

  /** The walk collects exactly the candidates of the keys it walks, after those already collected. */
  lemma {:induction false} ClearOldItemsCollects<V>(store: Store<V>, keys: seq<string>, items: seq<string>)
    requires AllHaveEntries(store, items)
    ensures AllHaveEntries(store, items + Candidates(store, keys))
    ensures ClearOldItems(store, keys, items) == RemoveOldestFifth(store, items + Candidates(store, keys))
    decreases |keys|
  {
    CollectedHaveEntries(store, keys, items);
    if |keys| == 0 {
      assert items + Candidates(store, keys) == items;
    } else {
      var next := if HasEntry(store, keys[0]) then items + [keys[0]] else items;
      CollectOne(store, keys, items);
      ClearOldItemsCollects(store, keys[1..], next);
    }
  }

  /** One step of the walk: the first key joins the collected items when it parses. */
  lemma CollectOne<V>(store: Store<V>, keys: seq<string>, items: seq<string>)
    requires |keys| > 0
    ensures (if HasEntry(store, keys[0]) then items + [keys[0]] else items) + Candidates(store, keys[1..])
      == items + Candidates(store, keys)
  {
    assert keys == [keys[0]] + keys[1..];
  }

  /**
   One `clearOldItems()` over the listing `order`: removes the oldest
   `ceil(0.2 * n)` of the `n` keys whose text parses; unparseable keys are
   never touched.
   */
  function Evict<V>(store: Store<V>, order: seq<string>): (r: Store<V>)
    requires Covers(order, store)
    ensures r.Keys <= store.Keys
    ensures |store| - |r| == EvictionCount(ParseableCount(store))
    ensures ParseableCount(r) == ParseableCount(store) - EvictionCount(ParseableCount(store))
  {
    ClearOldItemsCollects(store, order, []);
    var v := Victims(store, order);
    assert [] + Candidates(store, order) == Candidates(store, order);
    RemoveVictims(store, v, set k | k in v);
    ClearOldItems(store, order, [])
  }

  /** The walk removes exactly the victims. */
  lemma EvictRemovesVictims<V>(store: Store<V>, order: seq<string>)
    requires Covers(order, store)
    ensures Evict(store, order) == store - (set k | k in Victims(store, order))
  {
    ClearOldItemsCollects(store, order, []);
    assert [] + Candidates(store, order) == Candidates(store, order);
  }

  /** `clearOldItems()` only removes keys, and never an unparseable one. */
  lemma EvictShrinks<V>(store: Store<V>, order: seq<string>)
    requires Covers(order, store)
    ensures Shrinks(Evict(store, order), store)
    ensures forall k :: k in store && store[k].None? ==> k in Evict(store, order)
  {
    EvictRemovesVictims(store, order);
  }

  /** The keys `clearOldItems()` removes are the oldest parseable ones. */
  lemma EvictTakesOldest<V>(store: Store<V>, order: seq<string>)
    requires Covers(order, store)
    ensures TookOldest(store, Evict(store, order))
  {
    var v := Victims(store, order);
    var r := Evict(store, order);
    EvictRemovesVictims(store, order);
    forall a, b | a in store && a !in r && HasEntry(r, b)
      ensures HasEntry(store, a) && Age(store, a) <= Age(r, b)
    {
      assert a in (set k | k in v);
      assert b in store && r[b] == store[b] && b !in (set k | k in v);
      assert Age(r, b) == Age(store, b);
    }
  }

  lemma RemoveVictims<V>(store: Store<V>, v: seq<string>, gone: set<string>)
    requires Distinct(v) && (forall k :: k in v ==> HasEntry(store, k))
    requires gone == set k | k in v
    ensures |store| - |store - gone| == |v|
    ensures ParseableCount(store - gone) == ParseableCount(store) - |v|
  {
    assert |gone| == |v| by {
      DistinctCardinality(v);
      assert Elems(v) == gone;
    }
    assert gone <= ParseableKeys(store);
    RemoveKeysCardinality(store, gone);
    RemoveParseable(store, gone);
  }

  /** Removing parseable keys lowers the parseable count by their number. */
  lemma RemoveParseable<V>(store: Store<V>, gone: set<string>)
    requires gone <= ParseableKeys(store)
    ensures ParseableCount(store - gone) == ParseableCount(store) - |gone|
  {
    var before, after := ParseableKeys(store), ParseableKeys(store - gone);
    assert after == before - gone;
    assert before == after + gone;
  }

  // ---------------------------------------------------------------- set

  /** `localStorage.setItem` succeeds: the key is already there or there is room for one more. */
  predicate Fits<V>(store: Store<V>, key: string, capacity: nat)
  {
    key in store || |store| < capacity
  }

  /** The entry `set` writes at time `now`. */
  function Fresh<V>(value: V, now: int): Entry<V>
  {
    Entry(value, now, FormatVersion)
  }

  /** The cache after `localStorage.setItem` succeeded on `store`: the fresh entry is in, one more request is counted. */
  function WriteInto<V>(c: Cache<V>, store: Store<V>, key: string, value: V, now: int): (r: Cache<V>)
    ensures r.store == store[key := Some(Fresh(value, now))]
    ensures r.hits == c.hits && r.misses == c.misses && r.totalRequests == c.totalRequests + 1
  {
    Cache(store[key := Some(Fresh(value, now))], c.hits, c.misses, c.totalRequests + 1)
  }

  /**
   `clearOldItems()` repeated while the key does not fit and something
   parseable is left to evict.
   */
  function MakeRoom<V>(store: Store<V>, key: string, capacity: nat, order: seq<string>): Store<V>
    requires Covers(order, store)
    decreases ParseableCount(store)
  {
    if Fits(store, key, capacity) || ParseableCount(store) == 0 then store
    else MakeRoom(Evict(store, order), key, capacity, order)
  }

  /**
   The repeated eviction only removes keys, never an unparseable one, and
   stops with room for the key or with nothing parseable left; when it had
   to evict and then made room, the store ends below its quota.
   */
  lemma {:induction false} MakeRoomShrinks<V>(store: Store<V>, key: string, capacity: nat, order: seq<string>)
    requires Covers(order, store)
    ensures Shrinks(MakeRoom(store, key, capacity, order), store)
    ensures forall k :: k in store && store[k].None? ==> k in MakeRoom(store, key, capacity, order)
    ensures Fits(MakeRoom(store, key, capacity, order), key, capacity) || ParseableCount(MakeRoom(store, key, capacity, order)) == 0
    ensures !Fits(store, key, capacity) && Fits(MakeRoom(store, key, capacity, order), key, capacity)
      ==> |MakeRoom(store, key, capacity, order)| < capacity
    decreases ParseableCount(store)
  {
    if !Fits(store, key, capacity) && ParseableCount(store) > 0 {
      var rest := Evict(store, order);
      EvictShrinks(store, order);
      MakeRoomShrinks(rest, key, capacity, order);
    }
  }

  /** Every key the repeated eviction removed is at least as old as every parseable key it kept. */
  lemma {:induction false} MakeRoomTakesOldest<V>(store: Store<V>, key: string, capacity: nat, order: seq<string>)
    requires Covers(order, store)
    ensures TookOldest(store, MakeRoom(store, key, capacity, order))
    decreases ParseableCount(store)
  {
    if !Fits(store, key, capacity) && ParseableCount(store) > 0 {
      var rest := Evict(store, order);
      EvictTakesOldest(store, order);
      EvictShrinks(store, order);
      MakeRoomTakesOldest(rest, key, capacity, order);
      MakeRoomShrinks(rest, key, capacity, order);
      OldestGoFirstAcrossRounds(store, rest, MakeRoom(rest, key, capacity, order));
    }
  }

  /** Two rounds of eviction, each taking the oldest, together take the oldest. */
  lemma OldestGoFirstAcrossRounds<V>(store: Store<V>, rest: Store<V>, final: Store<V>)
    requires Shrinks(rest, store) && Shrinks(final, rest)
    requires TookOldest(store, rest) && TookOldest(rest, final)
    ensures TookOldest(store, final)
  {
    forall a, b | a in store && a !in final && HasEntry(final, b)
      ensures HasEntry(store, a) && Age(store, a) <= Age(final, b)
    {
      assert HasEntry(rest, b);
    }
  }

  /**
   `set(key, value)`, with the retry after `clearOldItems()` repeated only
   while there is still something to evict; once nothing parseable is left
   and the key still does not fit, the write is reported as not stored.
   */
  function Set<V>(c: Cache<V>, key: string, value: V, now: int, capacity: nat, order: seq<string>): (r: Written<V>)
    requires IsListing(order, c.store)
    ensures r.stored ==> key in r.cache.store && r.cache.store[key] == Some(Fresh(value, now))
    ensures r.stored ==> r.cache.totalRequests == c.totalRequests + 1
    ensures !r.stored ==> r.cache.totalRequests == c.totalRequests
    ensures r.cache.hits == c.hits && r.cache.misses == c.misses
    ensures Fits(c.store, key, capacity) ==> r.stored && r.cache.store == c.store[key := Some(Fresh(value, now))]
    ensures r.stored && !Fits(c.store, key, capacity) ==> |r.cache.store| <= capacity
    ensures !r.stored ==> ParseableCount(r.cache.store) == 0 && !Fits(r.cache.store, key, capacity)
    ensures forall k :: k in r.cache.store && k != key ==> k in c.store && r.cache.store[k] == c.store[k]
    ensures forall k :: k in c.store && c.store[k].None? && k != key ==> k in r.cache.store
    ensures CountersConsistent(c) ==> CountersConsistent(r.cache)
  {
    var room := MakeRoom(c.store, key, capacity, order);
    MakeRoomShrinks(c.store, key, capacity, order);
    if Fits(room, key, capacity) then
      Written(WriteInto(c, room, key, value, now), true)
    else
      Written(c.(store := room), false)
  }

  /**
   Every key removed between `before` and `after` was parseable in `before`, and no
   younger than any key other than `key` that is still parseable in `after` (which
   was already there in `before`).
   */
  ghost predicate TookOldestBut<V>(before: Store<V>, after: Store<V>, key: string)
  {
    forall a, b :: a in before && a !in after && HasEntry(after, b) && b != key ==>
      HasEntry(before, a) && HasEntry(before, b) && Age(before, a) <= Age(before, b)
  }

  /** Writing `key` after evicting the oldest keeps the eviction order for every other key. */
  lemma TookOldestThenWrite<V>(before: Store<V>, room: Store<V>, final: Store<V>, key: string, entry: Option<Entry<V>>)
    requires TookOldest(before, room) && Shrinks(room, before)
    requires final == room || final == room[key := entry]
    ensures TookOldestBut(before, final, key)
  {
    forall a, b | a in before && a !in final && HasEntry(final, b) && b != key
      ensures HasEntry(before, a) && HasEntry(before, b) && Age(before, a) <= Age(before, b)
    {
      assert a !in room && HasEntry(room, b);
      assert Age(room, b) == Age(before, b);
    }
  }

  /** Every key `set` evicted is at least as old as every parseable key it kept. */
  lemma SetEvictsOldestFirst<V>(c: Cache<V>, key: string, value: V, now: int, capacity: nat, order: seq<string>)
    requires IsListing(order, c.store)
    ensures TookOldestBut(c.store, Set(c, key, value, now, capacity, order).cache.store, key)
  {
    var room := MakeRoom(c.store, key, capacity, order);
    MakeRoomTakesOldest(c.store, key, capacity, order);
    MakeRoomShrinks(c.store, key, capacity, order);
    var final := Set(c, key, value, now, capacity, order).cache.store;
    assert final == room || final == room[key := Some(Fresh(value, now))];
    TookOldestThenWrite(c.store, room, final, key, Some(Fresh(value, now)));
  }

  /**
   The storage side of `set(key, value)` as written: when `setItem` hits the
   quota it runs `clearOldItems()` and calls itself again, unconditionally.
   `fuel` bounds the number of nested calls, as the JavaScript stack does;
   `None` means no retry wrote within it, which in JavaScript is a stack
   overflow: `set` rejects with a `RangeError`.
   */
  function MakeRoomAsWritten<V>(store: Store<V>, key: string, capacity: nat, order: seq<string>, fuel: nat): (r: Option<Store<V>>)
    requires Covers(order, store)
    ensures r.Some? ==> Fits(r.value, key, capacity)
    decreases fuel
  {
    if Fits(store, key, capacity) then Some(store)
    else if fuel == 0 then None
    else
      var rest := Evict(store, order);
      MakeRoomAsWritten(rest, key, capacity, order, fuel - 1)
  }

  /** `set(key, value)` as written, on the cache. */
  function SetAsWritten<V>(c: Cache<V>, key: string, value: V, now: int, capacity: nat, order: seq<string>, fuel: nat): (r: Option<Cache<V>>)
    requires IsListing(order, c.store)
    ensures r.Some? ==> key in r.value.store && r.value.store[key] == Some(Fresh(value, now))
    ensures r.Some? ==> r.value.totalRequests == c.totalRequests + 1
  {
    match MakeRoomAsWritten(c.store, key, capacity, order, fuel)
    case None => None
    case Some(room) => Some(WriteInto(c, room, key, value, now))
  }

  /** One round of the retry, on both sides: the same eviction, and the same retry after it. */
  lemma RetryStep<V>(store: Store<V>, key: string, capacity: nat, order: seq<string>, fuel: nat)
    requires Covers(order, store) && !Fits(store, key, capacity) && ParseableCount(store) > 0 && fuel > 0
    ensures Covers(order, Evict(store, order))
    ensures ParseableCount(Evict(store, order)) < ParseableCount(store)
    ensures MakeRoomAsWritten(store, key, capacity, order, fuel) == MakeRoomAsWritten(Evict(store, order), key, capacity, order, fuel - 1)
    ensures MakeRoom(store, key, capacity, order) == MakeRoom(Evict(store, order), key, capacity, order)
  {
  }

  /** When both sides agree after one round, they agree before it. */
  lemma RetryAgrees<V>(store: Store<V>, key: string, capacity: nat, order: seq<string>, fuel: nat)
    requires Covers(order, store) && !Fits(store, key, capacity) && ParseableCount(store) > 0 && fuel > 0
    requires MakeRoomAsWritten(Evict(store, order), key, capacity, order, fuel - 1) == Some(MakeRoom(Evict(store, order), key, capacity, order))
    ensures MakeRoomAsWritten(store, key, capacity, order, fuel) == Some(MakeRoom(store, key, capacity, order))
  {
    RetryStep(store, key, capacity, order, fuel);
  }

  /** An eviction with nothing parseable to evict leaves the store as it was. */
  lemma EvictNothing<V>(store: Store<V>, order: seq<string>)
    requires Covers(order, store) && ParseableCount(store) == 0
    ensures Evict(store, order) == store
  {
    var rest := Evict(store, order);
    EvictShrinks(store, order);
    assert rest.Keys == store.Keys by {
      assert rest.Keys <= store.Keys && |rest| == |store|;
      assert |store.Keys - rest.Keys| == |store.Keys| - |rest.Keys|;
    }
  }

  /**
   When the store is full and holds nothing parseable, the written `set`
   never writes, however many nested calls are allowed: it retries until
   the stack overflows.
   */
  lemma {:induction false} AsWrittenNeverReturnsWhenNothingEvictable<V>(store: Store<V>, key: string, capacity: nat, order: seq<string>, fuel: nat)
    requires Covers(order, store)
    requires !Fits(store, key, capacity) && ParseableCount(store) == 0
    ensures MakeRoomAsWritten(store, key, capacity, order, fuel).None?
    decreases fuel
  {
    if fuel > 0 {
      EvictNothing(store, order);
      AsWrittenNeverReturnsWhenNothingEvictable(store, key, capacity, order, fuel - 1);
    }
  }

  /** A concrete full store whose only key holds unparseable text: the written `set` retries until the stack overflows, `Set` gives up. */
  lemma AsWrittenDivergesOnCorruptFullStore(fuel: nat)
    ensures SetAsWritten(Cache(map["junk" := None], 0, 0, 0), "rates", 7, 0, 1, ["junk"], fuel).None?
    ensures !Set(Cache(map["junk" := None], 0, 0, 0), "rates", 7, 0, 1, ["junk"]).stored
  {
    var store: Store<int> := map["junk" := None];
    assert ParseableKeys(store) == {};
    AsWrittenNeverReturnsWhenNothingEvictable(store, "rates", 1, ["junk"], fuel);
  }

  /** Whenever the written retries come back, they have done exactly what `MakeRoom` does. */
  lemma {:induction false} AsWrittenMakesRoom<V>(store: Store<V>, key: string, capacity: nat, order: seq<string>, fuel: nat)
    requires Covers(order, store)
    requires MakeRoomAsWritten(store, key, capacity, order, fuel).Some?
    ensures MakeRoomAsWritten(store, key, capacity, order, fuel) == Some(MakeRoom(store, key, capacity, order))
    decreases fuel
  {
    if Fits(store, key, capacity) {
      assert MakeRoom(store, key, capacity, order) == store;
    } else if fuel == 0 {
      assert false;
    } else if ParseableCount(store) == 0 {
      AsWrittenNeverReturnsWhenNothingEvictable(store, key, capacity, order, fuel);
      assert false;
    } else {
      RetryStep(store, key, capacity, order, fuel);
      AsWrittenMakesRoom(Evict(store, order), key, capacity, order, fuel - 1);
      RetryAgrees(store, key, capacity, order, fuel);
    }
  }

  /** Whenever the written `set` comes back, `Set` stores the same thing. */
  lemma SetAgreesWithAsWritten<V>(c: Cache<V>, key: string, value: V, now: int, capacity: nat, order: seq<string>, fuel: nat)
    requires IsListing(order, c.store)
    requires SetAsWritten(c, key, value, now, capacity, order, fuel).Some?
    ensures Set(c, key, value, now, capacity, order).stored
    ensures Some(Set(c, key, value, now, capacity, order).cache) == SetAsWritten(c, key, value, now, capacity, order, fuel)
  {
    AsWrittenMakesRoom(c.store, key, capacity, order, fuel);
  }

  /**
   Whenever `MakeRoom` makes room, the written retries come back, given at
   least as many nested calls as there are parseable entries.
   */
  lemma {:induction false} AsWrittenReturns<V>(store: Store<V>, key: string, capacity: nat, order: seq<string>, fuel: nat)
    requires Covers(order, store)
    requires Fits(MakeRoom(store, key, capacity, order), key, capacity)
    requires fuel >= ParseableCount(store)
    ensures MakeRoomAsWritten(store, key, capacity, order, fuel).Some?
    decreases fuel
  {
    if Fits(store, key, capacity) {
    } else if ParseableCount(store) == 0 {
      assert false;
    } else {
      RetryStep(store, key, capacity, order, fuel);
      AsWrittenReturns(Evict(store, order), key, capacity, order, fuel - 1);
    }
  }

  /** Conversely, whenever `MakeRoom` makes room, the written retries make the same room, given enough nested calls. */
  lemma AsWrittenReachesMakeRoom<V>(store: Store<V>, key: string, capacity: nat, order: seq<string>, fuel: nat)
    requires Covers(order, store)
    requires Fits(MakeRoom(store, key, capacity, order), key, capacity)
    requires fuel >= ParseableCount(store)
    ensures MakeRoomAsWritten(store, key, capacity, order, fuel) == Some(MakeRoom(store, key, capacity, order))
  {
    AsWrittenReturns(store, key, capacity, order, fuel);
    AsWrittenMakesRoom(store, key, capacity, order, fuel);
  }

  /** Whatever `Set` stores, the written `set` stores too, given enough nested calls. */
  lemma AsWrittenAgreesWithSet<V>(c: Cache<V>, key: string, value: V, now: int, capacity: nat, order: seq<string>, fuel: nat)
    requires IsListing(order, c.store)
    requires Set(c, key, value, now, capacity, order).stored
    requires fuel >= ParseableCount(c.store)
    ensures SetAsWritten(c, key, value, now, capacity, order, fuel) == Some(Set(c, key, value, now, capacity, order).cache)
  {
    AsWrittenReachesMakeRoom(c.store, key, capacity, order, fuel);
  }

  /** A value just set is read back while it is at most one hour old. */
  lemma SetThenGet<V>(c: Cache<V>, key: string, value: V, now: int, later: int, capacity: nat, order: seq<string>)
    requires IsListing(order, c.store)
    requires Set(c, key, value, now, capacity, order).stored
    requires later - now <= TtlMs
    ensures Get(Set(c, key, value, now, capacity, order).cache, key, later).value == Some(value)
  {
    var w := Set(c, key, value, now, capacity, order);
    assert HasEntry(w.cache.store, key) && w.cache.store[key].value == Fresh(value, now);
    assert Usable(Fresh(value, now), later);
  }

  /** Read more than one hour after it was set, the value is gone and so is its key. */
  lemma SetThenGetExpired<V>(c: Cache<V>, key: string, value: V, now: int, later: int, capacity: nat, order: seq<string>)
    requires IsListing(order, c.store)
    requires Set(c, key, value, now, capacity, order).stored
    requires later - now > TtlMs
    ensures Get(Set(c, key, value, now, capacity, order).cache, key, later).value.None?
    ensures key !in Get(Set(c, key, value, now, capacity, order).cache, key, later).cache.store
  {
  }

  /**
   When the key does not fit but one `clearOldItems()` makes room, `set`
   evicts exactly that one round and writes: no further key is removed.
   */
  lemma SetEvictsOneRoundWhenEnough<V>(c: Cache<V>, key: string, value: V, now: int, capacity: nat, order: seq<string>)
    requires IsListing(order, c.store)
    requires !Fits(c.store, key, capacity) && ParseableCount(c.store) > 0
    requires Fits(Evict(c.store, order), key, capacity)
    ensures Set(c, key, value, now, capacity, order).stored
    ensures Set(c, key, value, now, capacity, order).cache.store == Evict(c.store, order)[key := Some(Fresh(value, now))]
  {
    assert MakeRoom(c.store, key, capacity, order) == Evict(c.store, order);
  }

  /**
   A store exactly at its quota with at least one parseable entry accepts
   a new key after exactly one eviction, and ends up no larger than before.
   */
  lemma SetOnFullStoreEvictsOnce<V>(c: Cache<V>, key: string, value: V, now: int, order: seq<string>)
    requires IsListing(order, c.store)
    requires key !in c.store && ParseableCount(c.store) > 0
    ensures Set(c, key, value, now, |c.store|, order).stored
    ensures Set(c, key, value, now, |c.store|, order).cache.store == Evict(c.store, order)[key := Some(Fresh(value, now))]
    ensures |Set(c, key, value, now, |c.store|, order).cache.store| <= |c.store|
  {
    var rest := Evict(c.store, order);
    assert MakeRoom(c.store, key, |c.store|, order) == rest;
  }

  // ---------------------------------------------------------------- has, delete, clear, stats

  /** `has(key)`: the raw key is present, whatever its text. */
  predicate Has<V>(c: Cache<V>, key: string)
  {
    key in c.store
  }

  /** `has` does not look at age or version: it can report a key that `get` then misses and removes. */
  lemma HasDisagreesWithGetOnStale<V>(c: Cache<V>, key: string, now: int)
    requires Stale(c.store, key, now)
    ensures Has(c, key)
    ensures Get(c, key, now).value.None?
    ensures !Has(Get(c, key, now).cache, key)
  {
  }

  /** Every hit is reported by `has`; a missing key is reported by neither. */
  lemma HasCoversHits<V>(c: Cache<V>, key: string, now: int)
    ensures Get(c, key, now).value.Some? ==> Has(c, key)
    ensures !Has(c, key) ==> Get(c, key, now).value.None? && Get(c, key, now).cache.store == c.store
  {
  }

  /** `delete(key)`: the key goes; nothing else changes. */
  function Delete<V>(c: Cache<V>, key: string): (r: Cache<V>)
    ensures key !in r.store
    ensures forall k :: k != key ==> (k in r.store <==> k in c.store)
    ensures forall k :: k in r.store ==> r.store[k] == c.store[k]
    ensures r.hits == c.hits && r.misses == c.misses && r.totalRequests == c.totalRequests
  {
    c.(store := c.store - {key})
  }

  lemma DeleteThenGetMisses<V>(c: Cache<V>, key: string, now: int)
    ensures !Has(Delete(c, key), key)
    ensures Get(Delete(c, key), key, now).value.None?
  {
  }

  /** `clear()`: empties the store and resets every counter. */
  function Clear<V>(c: Cache<V>): (r: Cache<V>)
    ensures |r.store| == 0
    ensures r.hits == 0 && r.misses == 0 && r.totalRequests == 0
    ensures CountersConsistent(r)
  {
    Cache(map[], 0, 0, 0)
  }

  /** `getStats()` without sizes and timings. */
  function GetStats<V>(c: Cache<V>): (r: Stats)
    ensures r.totalItems == |c.store|
    ensures c.totalRequests == 0 ==> r.hitRate == 0.0 && r.missRate == 0.0
    ensures c.totalRequests > 0 ==> r.hitRate * c.totalRequests as real == c.hits as real
    ensures c.totalRequests > 0 ==> r.missRate * c.totalRequests as real == c.misses as real
  {
    if c.totalRequests == 0 then Stats(|c.store|, 0.0, 0.0)
    else Stats(|c.store|, c.hits as real / c.totalRequests as real, c.misses as real / c.totalRequests as real)
  }

  /** With consistent counters the two rates are fractions that add up to at most one. */
  lemma RatesAreFractions<V>(c: Cache<V>)
    requires CountersConsistent(c)
    ensures 0.0 <= GetStats(c).hitRate && 0.0 <= GetStats(c).missRate
    ensures GetStats(c).hitRate + GetStats(c).missRate <= 1.0
  {
    if c.totalRequests > 0 {
      var t := c.totalRequests as real;
      var h, m := c.hits as real, c.misses as real;
      assert GetStats(c).hitRate + GetStats(c).missRate == (h + m) / t;
      FractionAtMostOne(h, t);
      FractionAtMostOne(m, t);
      FractionAtMostOne(h + m, t);
    }
  }

  lemma FractionAtMostOne(x: real, t: real)
    requires 0.0 <= x <= t && 0.0 < t
    ensures 0.0 <= x / t <= 1.0
  {
    assert x / t * t == x;
  }

  lemma ClearResetsStats<V>(c: Cache<V>, key: string, now: int)
    ensures GetStats(Clear(c)) == Stats(0, 0.0, 0.0)
    ensures Get(Clear(c), key, now).value.None?
  {
  }
}
