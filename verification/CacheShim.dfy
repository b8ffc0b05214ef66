/** The cache object: the fields and methods of crates/cache-shim, proved against the state machine. */
module CacheShim {
  import opened Base
  import opened KeyQueues
  import opened Cache
  import opened CacheInvariants

  class Shim {
    const cfg: Config
    var entries: map<Key, Entry>
    var accessOrder: seq<Key>
    var insertOrder: seq<Key>
    var hits: nat
    var misses: nat
    var evictions: nat
    var sizeBytes: nat

    ghost function State(): Store
      reads this
    {
      Store(entries, accessOrder, insertOrder, hits, misses, evictions)
    }

    ghost predicate Valid()
      reads this
    {
      WellFormed(cfg, State()) && sizeBytes == Used(State())
    }

    constructor (cfg: Config)
      ensures Valid() && this.cfg == cfg && State() == EMPTY
    {
      this.cfg := cfg;
      entries, accessOrder, insertOrder := map[], [], [];
      hits, misses, evictions, sizeBytes := 0, 0, 0, 0;
    }

    lemma Frees(k: Key)
      requires Linked(State()) && k in entries
      ensures Used(State()) == entries[k].sizeBytes + Used(Remove(State(), {k}))
    {
      RemoveOne(State(), k);
    }

    lemma Recounts(k: Key, at: int)
      requires Linked(State()) && k in entries
      ensures Used(Touch(State(), k, at)) == Used(State())
    {
      TouchKeeps(State(), k, at);
    }

    /** Take one stored entry out of the map, the byte total and both queues. */
    method Forget(k: Key)
      requires Linked(State()) && k in entries && sizeBytes >= Used(State())
      modifies this`entries, this`accessOrder, this`insertOrder, this`sizeBytes
      ensures State() == Remove(old(State()), {k})
      ensures sizeBytes - Used(State()) == old(sizeBytes) - Used(old(State()))
    {
      ghost var s := State();
      Frees(k);
      sizeBytes := sizeBytes - entries[k].sizeBytes;
      entries := entries - {k};
      accessOrder := Without(accessOrder, {k});
      insertOrder := Without(insertOrder, {k});
      assert State() == Remove(s, {k});
    }

    /** Refresh an entry's metadata and move its key to the back of the access queue. */
    method TouchEntry(k: Key, at: int)
      requires Linked(State()) && k in entries && sizeBytes == Used(State())
      modifies this`entries, this`accessOrder
      ensures State() == Touch(old(State()), k, at) && sizeBytes == Used(State())
    {
      Recounts(k, at);
      var e := entries[k];
      entries := entries[k := e.(lastAccessed := at, accessCount := e.accessCount + 1)];
      accessOrder := Without(accessOrder, {k}) + [k];
    }

    /** `get` on the fields: a miss, an expiry, or a hit that refreshes the entry. */
    method Fetch(key: string, now: int, delay: nat) returns (value: Option<Bytes>)
      requires Valid()
      modifies this
      ensures State() == AfterGet(cfg, old(State()), key, now, now + delay)
      ensures sizeBytes == Used(State())
      ensures value == Lookup(cfg, old(State()), key, now)
    {
      var k := FullKey(cfg, key);
      if k !in entries {
        misses := misses + 1;
        return None;
      }
      if now > entries[k].expiresAt {
        Forget(k);
        misses := misses + 1;
        return None;
      }
      value := Some(entries[k].value);
      TouchEntry(k, now + delay);
      hits := hits + 1;
    }

    lemma Adopt(s: Store, key: string, now: int, at: int)
      requires WellFormed(cfg, s) && State() == AfterGet(cfg, s, key, now, at) && sizeBytes == Used(State())
      ensures Valid()
    {
      GetKeeps(cfg, s, key, now, at, State());
    }

    method Get(key: string, now: int, delay: nat) returns (value: Option<Bytes>)
      requires Valid()
      modifies this
      ensures Valid() && State() == AfterGet(cfg, old(State()), key, now, now + delay)
      ensures value == Lookup(cfg, old(State()), key, now)
    {
      ghost var s := State();
      value := Fetch(key, now, delay);
      Adopt(s, key, now, now + delay);
    }

    /** `iter().min_by_key`: some entry of least access count, whatever order the map is scanned in. */
    method LeastUsed() returns (k: Key)
      requires entries != map[]
      ensures k in entries
      ensures forall j :: j in entries ==> entries[k].accessCount <= entries[j].accessCount
    {
      k :| k in entries;
      var rest := entries.Keys - {k};
      while rest != {}
        invariant rest <= entries.Keys && k in entries
        invariant forall j :: j in entries && j !in rest ==> entries[k].accessCount <= entries[j].accessCount
        decreases rest
      {
        var j :| j in rest;
        if entries[j].accessCount < entries[k].accessCount {
          k := j;
        }
        rest := rest - {j};
      }
    }

    /** Evict the strategy's victim; false when there is nothing to evict. */
    method EvictOne() returns (evicted: bool, ghost victim: Key)
      requires Linked(State()) && sizeBytes >= Used(State())
      modifies this`entries, this`accessOrder, this`insertOrder, this`sizeBytes, this`evictions
      ensures evicted <==> old(entries) != map[]
      ensures !evicted ==> State() == old(State()) && sizeBytes == old(sizeBytes)
      ensures evicted ==> IsVictim(cfg, old(State()), victim) && State() == Evict(old(State()), victim)
      ensures sizeBytes - Used(State()) == old(sizeBytes) - Used(old(State()))
    {
      LinkedSizes(State());
      victim := Key("");
      if entries == map[] {
        return false, victim;
      }
      var k: Key;
      match cfg.strategy {
        case Lru => k := accessOrder[0]; assert k in accessOrder;
        case Fifo => k := insertOrder[0]; assert k in insertOrder;
        case Lfu => k := LeastUsed();
      }
      victim := k;
      Forget(k);
      evictions := evictions + 1;
      evicted := true;
    }

    /** Both eviction loops of `set`, the byte limit first. */
    method MakeRoom(need: nat) returns (ghost vs: seq<Key>)
      requires Linked(State()) && need <= cfg.maxSize && sizeBytes == Used(State()) + need
      modifies this`entries, this`accessOrder, this`insertOrder, this`sizeBytes, this`evictions
      ensures Linked(State()) && sizeBytes == Used(State()) + need
      ensures EvictChain(cfg, old(State()), need, vs) && State() == EvictAll(old(State()), vs)
      ensures Fits(cfg, State(), need)
    {
      ghost var s := State();
      vs := [];
      while sizeBytes > cfg.maxSize
        invariant sizeBytes == Used(State()) + need
        invariant EvictChain(cfg, s, need, vs) && State() == EvictAll(s, vs)
        decreases |entries|
      {
        EvictAllLinked(s, vs);
        LinkedSizes(State());
        var evicted, victim := EvictOne();
        if !evicted {
          break;
        }
        ChainExtend(cfg, s, need, vs, victim);
        vs := vs + [victim];
      }
      while |entries| >= cfg.maxEntries
        invariant sizeBytes == Used(State()) + need && sizeBytes <= cfg.maxSize
        invariant EvictChain(cfg, s, need, vs) && State() == EvictAll(s, vs)
        decreases |entries|
      {
        EvictAllLinked(s, vs);
        var evicted, victim := EvictOne();
        if !evicted {
          break;
        }
        ChainExtend(cfg, s, need, vs, victim);
        vs := vs + [victim];
      }
      EvictAllLinked(s, vs);
    }

    method Set(key: string, value: Bytes, now: int) returns (stored: bool)
      requires Valid()
      modifies this
      ensures Valid() && Step(cfg, old(State()), At(now, Op.Set(key, value)), State())
      ensures stored <==> |value| <= cfg.maxSize
      ensures stored ==> Lookup(cfg, State(), key, now) == Some(value)
    {
      ghost var s := State();
      if |value| > cfg.maxSize {
        SetWitness(cfg, s, key, value, now, [], State());
        return false;
      }
      Replace(key);
      sizeBytes := sizeBytes + |value|;
      ghost var vs := MakeRoom(|value|);
      EvictAllLacks(s, FullKey(cfg, key), vs);
      Insert(key, value, now);
      SetWitness(cfg, s, key, value, now, vs, State());
      return true;
    }

    /** The first step of `set`: an entry stored under the key before is dropped. */
    method Replace(key: string)
      requires Valid()
      modifies this`entries, this`accessOrder, this`insertOrder, this`sizeBytes
      ensures State() == Remove(old(State()), {FullKey(cfg, key)})
      ensures Linked(State()) && sizeBytes == Used(State())
    {
      var k := FullKey(cfg, key);
      RemoveKeeps(State(), {k});
      if k in entries {
        Forget(k);
      } else {
        RemoveAbsent(State(), k);
      }
    }

    /** The insertion that ends `set`; the byte total already counts the new value. */
    method Insert(key: string, value: Bytes, now: int)
      requires Linked(State()) && FullKey(cfg, key) !in entries && Fits(cfg, State(), |value|)
      requires sizeBytes == Used(State()) + |value|
      modifies this`entries, this`accessOrder, this`insertOrder
      ensures Valid() && State() == Put(cfg, old(State()), key, value, now)
    {
      PutKeeps(cfg, State(), key, value, now);
      PutUses(cfg, State(), key, value, now);
      var k := FullKey(cfg, key);
      entries := entries[k := Entry(key, value, |value|, now, now + cfg.ttlSecs * NANOS_PER_SEC, now, 0)];
      accessOrder := accessOrder + [k];
      insertOrder := insertOrder + [k];
    }

    method Invalidate(key: string, now: int) returns (removed: bool)
      requires Valid()
      modifies this
      ensures Valid() && Step(cfg, old(State()), At(now, Op.Invalidate(key)), State())
      ensures removed <==> FullKey(cfg, key) in old(entries)
    {
      var k := FullKey(cfg, key);
      DropKeeps(cfg, State(), {k}, Remove(State(), {k}));
      if k in entries {
        Forget(k);
        removed := true;
      } else {
        RemoveAbsent(State(), k);
        removed := false;
      }
    }

    /** The removal loop shared by prefix invalidation and the expiry passes. */
    method ForgetAll(ks: set<Key>)
      requires Valid() && ks <= entries.Keys
      modifies this`entries, this`accessOrder, this`insertOrder, this`sizeBytes
      ensures State() == Remove(old(State()), ks) && sizeBytes == Used(State())
    {
      ghost var s := State();
      RemoveNone(s, ks);
      var rest := ks;
      while rest != {}
        invariant rest <= ks
        invariant State() == Remove(s, ks - rest) && sizeBytes == Used(State())
        decreases rest
      {
        var k :| k in rest;
        RemoveKeeps(s, ks - rest);
        RemoveNext(s, ks, rest, k);
        Forget(k);
        rest := rest - {k};
      }
    }

    method InvalidatePrefix(prefix: string, now: int) returns (count: nat)
      requires Valid()
      modifies this
      ensures Valid() && Step(cfg, old(State()), At(now, Op.InvalidatePrefix(prefix)), State())
      ensures count == |old(entries)| - |entries|
    {
      var full := FullKey(cfg, prefix);
      var ks := set k | k in entries && full.text <= k.text;
      assert ks == MatchingKeys(State(), full);
      RemovedCount(entries, ks);
      DropKeeps(cfg, State(), ks, Remove(State(), ks));
      ForgetAll(ks);
      count := |ks|;
    }

    /** The pass `purge_expired` and the background sweep both make. */
    method DropExpired(now: int) returns (count: nat)
      requires Valid()
      modifies this
      ensures Valid() && Step(cfg, old(State()), At(now, Purge), State())
      ensures Step(cfg, old(State()), At(now, Sweep), State())
      ensures count == |old(entries)| - |entries|
      ensures forall k :: k in entries <==> k in old(entries) && now <= old(entries)[k].expiresAt
    {
      var before := |entries|;
      var ks := set k | k in entries && entries[k].expiresAt < now;
      assert ks == ExpiredKeys(State(), now);
      DropKeeps(cfg, State(), ks, Remove(State(), ks));
      ForgetAll(ks);
      count := before - |entries|;
    }

    method Clear(now: int)
      requires Valid()
      modifies this
      ensures Valid() && Step(cfg, old(State()), At(now, Op.Clear), State())
    {
      entries, accessOrder, insertOrder, sizeBytes := map[], [], [], 0;
    }

    method Exists(key: string, now: int) returns (found: bool)
      ensures found <==> Lookup(cfg, State(), key, now).Some?
    {
      var k := FullKey(cfg, key);
      found := k in entries && now <= entries[k].expiresAt;
    }
  }

  lemma RemovedCount(e: map<Key, Entry>, ks: set<Key>)
    requires ks <= e.Keys
    ensures |e - ks| == |e| - |ks|
  {
    assert (e - ks).Keys == e.Keys - ks;
  }

  lemma EvictAllLacks(s: Store, k: Key, vs: seq<Key>)
    ensures k !in EvictAll(Remove(s, {k}), vs).entries
  {
    EvictAllRemoves(Remove(s, {k}), vs);
  }

  lemma SetWitness(cfg: Config, s: Store, key: string, value: Bytes, now: int, vs: seq<Key>, t: Store)
    requires SetVia(cfg, s, key, value, now, vs, t)
    ensures Step(cfg, s, At(now, Op.Set(key, value)), t)
    ensures |value| <= cfg.maxSize ==> Lookup(cfg, t, key, now) == Some(value)
  {
  }

  /** One more victim on a chain of evictions. */
  lemma ChainExtend(cfg: Config, s: Store, need: nat, vs: seq<Key>, v: Key)
    requires EvictChain(cfg, s, need, vs) && Linked(EvictAll(s, vs))
    requires !Fits(cfg, EvictAll(s, vs), need) && IsVictim(cfg, EvictAll(s, vs), v)
    ensures EvictChain(cfg, s, need, vs + [v])
    ensures EvictAll(s, vs + [v]) == Evict(EvictAll(s, vs), v)
    ensures Used(EvictAll(s, vs + [v])) <= Used(EvictAll(s, vs))
    ensures |EvictAll(s, vs + [v]).entries| < |EvictAll(s, vs).entries|
  {
    assert (vs + [v])[..|vs|] == vs;
    RemoveOne(EvictAll(s, vs), v);
  }

  lemma PutUses(cfg: Config, s: Store, key: string, value: Bytes, now: int)
    requires Linked(s) && FullKey(cfg, key) !in s.entries
    ensures Used(Put(cfg, s, key, value, now)) == Used(s) + |value|
  {
    var t := Put(cfg, s, key, value, now);
    TotalAppend(t.entries, s.access, FullKey(cfg, key));
    TotalFrame(s.entries, t.entries, s.access);
  }

  lemma RemoveNone(s: Store, ks: set<Key>)
    ensures Remove(s, ks - ks) == s
    ensures Remove(s, ks - {}) == Remove(s, ks)
  {
    WithoutAbsent(s.access, {});
    WithoutAbsent(s.insert, {});
    assert s.entries - {} == s.entries && ks - ks == {} && ks - {} == ks;
  }

  lemma RemoveNext(s: Store, ks: set<Key>, rest: set<Key>, k: Key)
    requires k in rest && rest <= ks && ks <= s.entries.Keys
    ensures k in Remove(s, ks - rest).entries
    ensures Remove(Remove(s, ks - rest), {k}) == Remove(s, ks - (rest - {k}))
  {
    RemoveTwice(s, ks - rest, {k});
    assert (ks - rest) + {k} == ks - (rest - {k});
  }
}
