/** What every operation of the cache keeps, and which entries a `set` evicts. */
module CacheInvariants {
  import opened Base
  import opened KeyQueues
  import opened Cache

  // ---------------------------------------------------------------- removal

  lemma LinkedSizes(s: Store)
    requires Linked(s)
    ensures |s.access| == |s.insert| == |s.entries|
  {
    DistinctSize(s.access, s.entries.Keys);
    DistinctSize(s.insert, s.entries.Keys);
  }

  lemma RemoveKeeps(s: Store, ks: set<Key>)
    requires Linked(s)
    ensures Linked(Remove(s, ks))
    ensures Used(Remove(s, ks)) <= Used(s)
    ensures |Remove(s, ks).entries| <= |s.entries|
  {
    var t := Remove(s, ks);
    WithoutDistinct(s.access, ks);
    WithoutDistinct(s.insert, ks);
    TotalFrame(s.entries, t.entries, t.access);
    TotalShrinks(s.entries, s.access, ks);
    LinkedSizes(s);
    LinkedSizes(t);
  }

  lemma RemoveAbsent(s: Store, k: Key)
    requires Linked(s) && k !in s.entries
    ensures Remove(s, {k}) == s
  {
    WithoutAbsent(s.access, {k});
    WithoutAbsent(s.insert, {k});
    assert s.entries - {k} == s.entries;
  }

  /** Dropping one stored key frees exactly its bytes. */
  lemma RemoveOne(s: Store, k: Key)
    requires Linked(s) && k in s.entries
    ensures Used(s) == s.entries[k].sizeBytes + Used(Remove(s, {k}))
    ensures |Remove(s, {k}).entries| == |s.entries| - 1
  {
    var t := Remove(s, {k});
    TotalWithout(s.entries, s.access, k);
    TotalFrame(s.entries, t.entries, t.access);
    assert t.entries.Keys == s.entries.Keys - {k};
  }

  lemma RemoveTwice(s: Store, ks: set<Key>, js: set<Key>)
    ensures Remove(Remove(s, ks), js) == Remove(s, ks + js)
  {
    WithoutTwice(s.access, ks, js);
    WithoutTwice(s.insert, ks, js);
    assert s.entries - ks - js == s.entries - (ks + js);
  }

  // ---------------------------------------------------------------- eviction

  ghost function Elements(q: seq<Key>): set<Key> { set k | k in q }

  /** A list of victims, in whatever order, amounts to one removal. */
  lemma {:induction false} EvictAllRemoves(s: Store, vs: seq<Key>)
    ensures EvictAll(s, vs) == Remove(s, Elements(vs)).(evictions := s.evictions + |vs|)
  {
    if vs == [] {
      WithoutAbsent(s.access, {});
      WithoutAbsent(s.insert, {});
      assert s.entries - {} == s.entries && Elements(vs) == {};
    } else {
      var before, v := vs[..|vs| - 1], vs[|vs| - 1];
      EvictAllRemoves(s, before);
      RemoveTwice(s, Elements(before), {v});
      assert Elements(vs) == Elements(before) + {v} by {
        assert vs == before + [v];
      }
    }
  }

  lemma EvictAllKeeps(s: Store, vs: seq<Key>)
    requires Linked(s)
    ensures Linked(EvictAll(s, vs))
    ensures EvictAll(s, vs) == Remove(s, Elements(vs)).(evictions := s.evictions + |vs|)
  {
    EvictAllRemoves(s, vs);
    RemoveKeeps(s, Elements(vs));
  }

  lemma EvictAllLinked(s: Store, vs: seq<Key>)
    requires Linked(s)
    ensures Linked(EvictAll(s, vs))
  {
    EvictAllKeeps(s, vs);
  }

  /** An accepted `set` is one removal followed by one insertion. */
  lemma SetIsPut(cfg: Config, s: Store, key: string, value: Bytes, now: int, vs: seq<Key>, t: Store)
    requires |value| <= cfg.maxSize && SetVia(cfg, s, key, value, now, vs, t)
    ensures t ==
      Put(cfg, Remove(s, {FullKey(cfg, key)} + Elements(vs)).(evictions := s.evictions + |vs|), key, value, now)
  {
    EvictAllRemoves(Remove(s, {FullKey(cfg, key)}), vs);
    RemoveTwice(s, {FullKey(cfg, key)}, Elements(vs));
  }

  /** Entry by entry: the new one is as given, every other one that is left is untouched. */
  ghost predicate Framed(cfg: Config, s: Store, key: string, value: Bytes, now: int, t: Store) {
    && FullKey(cfg, key) in t.entries
    && t.entries[FullKey(cfg, key)] == Entry(key, value, |value|, now, now + cfg.ttlSecs * NANOS_PER_SEC, now, 0)
    && (forall j :: j in t.entries && j != FullKey(cfg, key) ==> j in s.entries && t.entries[j] == s.entries[j])
    && t.hits == s.hits && t.misses == s.misses && t.evictions >= s.evictions
    && (t.evictions == s.evictions ==> forall j :: j in s.entries ==> j in t.entries)
  }

  lemma SetFrame(cfg: Config, s: Store, key: string, value: Bytes, now: int, vs: seq<Key>, t: Store)
    requires |value| <= cfg.maxSize && SetVia(cfg, s, key, value, now, vs, t)
    ensures Framed(cfg, s, key, value, now, t)
  {
    SetIsPut(cfg, s, key, value, now, vs, t);
    PutFrame(cfg, s, key, value, now, vs, t);
  }

  lemma PutFrame(cfg: Config, s: Store, key: string, value: Bytes, now: int, vs: seq<Key>, t: Store)
    requires t ==
      Put(cfg, Remove(s, {FullKey(cfg, key)} + Elements(vs)).(evictions := s.evictions + |vs|), key, value, now)
    ensures Framed(cfg, s, key, value, now, t)
  {
    assert vs == [] ==> Elements(vs) == {};
  }

  lemma {:induction false} ChainPrefix(cfg: Config, s: Store, need: nat, vs: seq<Key>, n: nat)
    requires EvictChain(cfg, s, need, vs) && n <= |vs|
    ensures EvictChain(cfg, s, need, vs[..n])
    ensures n < |vs| ==> !Fits(cfg, EvictAll(s, vs[..n]), need) && IsVictim(cfg, EvictAll(s, vs[..n]), vs[n])
  {
    if n == |vs| {
      assert vs[..n] == vs;
    } else {
      var before := vs[..|vs| - 1];
      if n < |before| {
        assert before[..n] == vs[..n] && before[n] == vs[n];
        ChainPrefix(cfg, s, need, before, n);
      } else {
        assert before == vs[..n];
      }
    }
  }

  ghost function Queue(cfg: Config, s: Store): seq<Key> {
    if cfg.strategy.Fifo? then s.insert else s.access
  }

  lemma VictimPops(cfg: Config, s: Store, v: Key)
    requires Linked(s) && !cfg.strategy.Lfu? && IsVictim(cfg, s, v)
    ensures Queue(cfg, s) != [] && v == Queue(cfg, s)[0]
    ensures Queue(cfg, Evict(s, v)) == Queue(cfg, s)[1..]
  {
    WithoutFront(Queue(cfg, s));
  }

  /** Under LRU and FIFO the victims are popped from the front of the strategy's queue. */
  lemma {:induction false} ChainPops(cfg: Config, s: Store, need: nat, vs: seq<Key>)
    requires Linked(s) && !cfg.strategy.Lfu? && EvictChain(cfg, s, need, vs)
    ensures |vs| <= |Queue(cfg, s)|
    ensures vs == Queue(cfg, s)[..|vs|]
    ensures Queue(cfg, EvictAll(s, vs)) == Queue(cfg, s)[|vs|..]
  {
    if vs != [] {
      var before, v := vs[..|vs| - 1], vs[|vs| - 1];
      ChainPops(cfg, s, need, before);
      EvictAllKeeps(s, before);
      VictimPops(cfg, EvictAll(s, before), v);
      SplitNext(Queue(cfg, s), |before|);
      SplitNext(vs, |before|);
    }
  }

  /** After popping `n` keys of `q`, both limits leave room for `need` more bytes and one more entry. */
  ghost predicate PrefixFits(cfg: Config, entries: map<Key, Entry>, q: seq<Key>, need: nat, n: nat)
    requires n <= |q|
  {
    && Total(entries, q[n..]) + need <= cfg.maxSize
    && (|q| - n < cfg.maxEntries || n == |q|)
  }

  lemma PoppedFits(cfg: Config, s: Store, need: nat, vs: seq<Key>)
    requires Linked(s) && !cfg.strategy.Lfu? && EvictChain(cfg, s, need, vs)
    ensures |vs| <= |Queue(cfg, s)|
    ensures Fits(cfg, EvictAll(s, vs), need) <==> PrefixFits(cfg, s.entries, Queue(cfg, s), need, |vs|)
  {
    var q, t := Queue(cfg, s), EvictAll(s, vs);
    ChainPops(cfg, s, need, vs);
    EvictAllKeeps(s, vs);
    LinkedSizes(s);
    QueueMeasures(cfg, t);
    TotalFrame(t.entries, s.entries, q[|vs|..]);
  }

  /** The strategy's queue is as long as the map, and its entries add up to what is used. */
  lemma QueueMeasures(cfg: Config, s: Store)
    requires Linked(s)
    ensures |Queue(cfg, s)| == |s.entries| && Total(s.entries, Queue(cfg, s)) == Used(s)
    ensures s.entries == map[] <==> |s.entries| == 0
  {
    LinkedSizes(s);
    TotalPermutation(s.entries, s.access, Queue(cfg, s));
  }

  /**
   * `set` evicts minimally: under LRU and FIFO the strategy's queue becomes the old one without
   * the key, minus the shortest prefix whose removal makes both limits hold, followed by the key.
   */
  lemma SetEvictsShortestPrefix(cfg: Config, s: Store, key: string, value: Bytes, now: int,
                                vs: seq<Key>, t: Store)
    requires Linked(s) && !cfg.strategy.Lfu?
    requires |value| <= cfg.maxSize && SetVia(cfg, s, key, value, now, vs, t)
    ensures var k, q := FullKey(cfg, key), Without(Queue(cfg, s), {FullKey(cfg, key)});
      && |vs| <= |q| && vs == q[..|vs|]
      && Queue(cfg, t) == q[|vs|..] + [k]
      && PrefixFits(cfg, s.entries, q, |value|, |vs|)
      && forall n: nat :: n < |vs| ==> !PrefixFits(cfg, s.entries, q, |value|, n)
  {
    var k := FullKey(cfg, key);
    var s1 := Remove(s, {k});
    var q := Queue(cfg, s1);
    RemoveKeeps(s, {k});
    ChainPops(cfg, s1, |value|, vs);
    PoppedFits(cfg, s1, |value|, vs);
    forall n: nat | n <= |vs|
      ensures PrefixFits(cfg, s.entries, q, |value|, n) <==> PrefixFits(cfg, s1.entries, q, |value|, n)
    {
      TotalFrame(s.entries, s1.entries, q[n..]);
    }
    forall n: nat | n < |vs| ensures !PrefixFits(cfg, s.entries, q, |value|, n) {
      ChainPrefix(cfg, s1, |value|, vs, n);
      PoppedFits(cfg, s1, |value|, vs[..n]);
    }
  }

  /** The LFU counterpart: no evicted entry was used more often than any entry that stays. */
  lemma LfuVictimsLeastUsed(cfg: Config, s: Store, key: string, value: Bytes, now: int,
                            vs: seq<Key>, t: Store, v: Key, j: Key)
    requires Linked(s) && cfg.strategy.Lfu?
    requires |value| <= cfg.maxSize && SetVia(cfg, s, key, value, now, vs, t)
    requires v in vs && j in t.entries && j != FullKey(cfg, key)
    ensures v in s.entries && j in s.entries && t.entries[j] == s.entries[j]
    ensures s.entries[v].accessCount <= s.entries[j].accessCount
  {
    var s1 := Remove(s, {FullKey(cfg, key)});
    RemoveKeeps(s, {FullKey(cfg, key)});
    var n :| 0 <= n < |vs| && vs[n] == v;
    ChainPrefix(cfg, s1, |value|, vs, n);
    EvictAllRemoves(s1, vs[..n]);
    EvictAllRemoves(s1, vs);
    assert forall x :: x in vs[..n] ==> x in vs;
    assert j in EvictAll(s1, vs).entries;
    assert j in EvictAll(s1, vs[..n]).entries;
  }

  // ---------------------------------------------------------------- every operation

  lemma TouchKeeps(s: Store, k: Key, at: int)
    requires Linked(s) && k in s.entries
    ensures Linked(Touch(s, k, at)) && Used(Touch(s, k, at)) == Used(s)
    ensures |Touch(s, k, at).entries| == |s.entries|
  {
    var t := Touch(s, k, at);
    WithoutDistinct(s.access, {k});
    DistinctAppend(Without(s.access, {k}), k);
    TotalWithout(s.entries, s.access, k);
    TotalAppend(t.entries, Without(s.access, {k}), k);
    TotalFrame(s.entries, t.entries, Without(s.access, {k}));
    assert t.entries.Keys == s.entries.Keys;
  }

  lemma PutKeeps(cfg: Config, s: Store, key: string, value: Bytes, now: int)
    requires Linked(s) && FullKey(cfg, key) !in s.entries && Fits(cfg, s, |value|)
    ensures WellFormed(cfg, Put(cfg, s, key, value, now))
  {
    var k, t := FullKey(cfg, key), Put(cfg, s, key, value, now);
    DistinctAppend(s.access, k);
    DistinctAppend(s.insert, k);
    TotalAppend(t.entries, s.access, k);
    TotalFrame(s.entries, t.entries, s.access);
    assert t.entries.Keys == s.entries.Keys + {k};
  }

  lemma SetKeeps(cfg: Config, s: Store, key: string, value: Bytes, now: int, vs: seq<Key>, t: Store)
    requires WellFormed(cfg, s) && SetVia(cfg, s, key, value, now, vs, t)
    ensures WellFormed(cfg, t)
  {
    if |value| <= cfg.maxSize {
      var s1 := Remove(s, {FullKey(cfg, key)});
      RemoveKeeps(s, {FullKey(cfg, key)});
      EvictAllKeeps(s1, vs);
      PutKeeps(cfg, EvictAll(s1, vs), key, value, now);
    }
  }

  lemma SetStepKeeps(cfg: Config, s: Store, e: Event, t: Store)
    requires WellFormed(cfg, s) && e.op.Set? && Step(cfg, s, e, t)
    ensures WellFormed(cfg, t)
  {
    var vs :| SetVia(cfg, s, e.op.key, e.op.value, e.now, vs, t);
    SetKeeps(cfg, s, e.op.key, e.op.value, e.now, vs, t);
  }

  lemma GetKeeps(cfg: Config, s: Store, key: string, now: int, touchedAt: int, t: Store)
    requires WellFormed(cfg, s) && t == AfterGet(cfg, s, key, now, touchedAt)
    ensures WellFormed(cfg, t)
  {
    var k := FullKey(cfg, key);
    if k !in s.entries {
      CountersAside(cfg, s, t);
    } else if Expired(s.entries[k], now) {
      DropKeeps(cfg, s, {k}, Remove(s, {k}));
      CountersAside(cfg, Remove(s, {k}), t);
    } else {
      TouchKeeps(s, k, touchedAt);
      CountersAside(cfg, Touch(s, k, touchedAt), t);
    }
  }

  lemma CountersAside(cfg: Config, s: Store, t: Store)
    requires WellFormed(cfg, s)
    requires t == s.(hits := t.hits, misses := t.misses, evictions := t.evictions)
    ensures WellFormed(cfg, t)
  {
  }

  lemma DropKeeps(cfg: Config, s: Store, ks: set<Key>, t: Store)
    requires WellFormed(cfg, s) && t == Remove(s, ks)
    ensures WellFormed(cfg, t)
  {
    RemoveKeeps(s, ks);
  }

  lemma ClearKeeps(cfg: Config, s: Store, t: Store)
    requires t == s.(entries := map[], access := [], insert := [])
    ensures WellFormed(cfg, t)
  {
  }

  /** Every operation keeps the representation invariant, sweeps included. */
  lemma StepKeeps(cfg: Config, s: Store, e: Event, t: Store)
    requires WellFormed(cfg, s) && Step(cfg, s, e, t)
    ensures WellFormed(cfg, t)
  {
    match e.op
    case Get(key, delay) => GetKeeps(cfg, s, key, e.now, e.now + delay, t);
    case Set(key, value) => SetStepKeeps(cfg, s, e, t);
    case Clear => ClearKeeps(cfg, s, t);
    case _ => DropKeeps(cfg, s, Dropped(cfg, s, e), t);
  }

  function Gets(es: seq<Event>): nat {
    if es == [] then 0 else Gets(es[..|es| - 1]) + if es[|es| - 1].op.Get? then 1 else 0
  }

  /** Gets that answered, judged by the state each one found. */
  function Answered(cfg: Config, es: seq<Event>, states: seq<Store>): nat
    requires |states| >= |es|
  {
    if es == [] then 0
    else
      var i := |es| - 1;
      Answered(cfg, es[..i], states)
      + if es[i].op.Get? && Lookup(cfg, states[i], es[i].op.key, es[i].now).Some? then 1 else 0
  }

  /** In every reachable state the representation is consistent and every `get` was counted once. */
  lemma {:induction false} RunKeeps(cfg: Config, es: seq<Event>, states: seq<Store>, i: nat)
    requires Run(cfg, es, states) && i <= |es|
    ensures WellFormed(cfg, states[i])
    ensures |states[i].access| == |states[i].insert| == |states[i].entries| <= Max(1, cfg.maxEntries)
    ensures states[i].hits + states[i].misses == Gets(es[..i])
  {
    if i > 0 {
      RunKeeps(cfg, es, states, i - 1);
      assert Step(cfg, states[i - 1], es[i - 1], states[i]);
      StepKeeps(cfg, states[i - 1], es[i - 1], states[i]);
      assert es[..i][..i - 1] == es[..i - 1];
      if es[i - 1].op.Set? {
        SetCounters(cfg, states[i - 1], es[i - 1], states[i]);
      }
    }
    LinkedSizes(states[i]);
  }

  /** The hit counter is the number of gets that answered, so the miss counter is that of those that did not. */
  lemma {:induction false} HitsAnswered(cfg: Config, es: seq<Event>, states: seq<Store>, i: nat)
    requires Run(cfg, es, states) && i <= |es|
    ensures states[i].hits == Answered(cfg, es[..i], states)
  {
    if i > 0 {
      HitsAnswered(cfg, es, states, i - 1);
      assert Step(cfg, states[i - 1], es[i - 1], states[i]);
      assert es[..i][..i - 1] == es[..i - 1];
      if es[i - 1].op.Set? {
        SetCounters(cfg, states[i - 1], es[i - 1], states[i]);
      }
    }
  }

  lemma SetCounters(cfg: Config, s: Store, e: Event, t: Store)
    requires e.op.Set? && Step(cfg, s, e, t)
    ensures t.hits == s.hits && t.misses == s.misses
    ensures t.evictions >= s.evictions
  {
    var vs :| SetVia(cfg, s, e.op.key, e.op.value, e.now, vs, t);
    if |e.op.value| <= cfg.maxSize {
      SetFrame(cfg, s, e.op.key, e.op.value, e.now, vs, t);
    }
  }

  // ---------------------------------------------------------------- recency

  function LastUse(e: map<Key, Entry>, k: Key): int { if k in e then e[k].lastAccessed else 0 }

  /** The queue lists entries from least to most recently used. */
  ghost predicate Ordered(e: map<Key, Entry>, q: seq<Key>) {
    q == [] || ((forall k :: k in q[1..] ==> LastUse(e, q[0]) <= LastUse(e, k)) && Ordered(e, q[1..]))
  }

  /** `access` is sorted by time of last use, and no entry was used after `clock`. */
  ghost predicate Recency(s: Store, clock: int) {
    Ordered(s.entries, s.access) && forall k :: k in s.entries ==> LastUse(s.entries, k) <= clock
  }

  lemma {:induction false} OrderedAt(e: map<Key, Entry>, q: seq<Key>, i: nat, j: nat)
    requires Ordered(e, q) && i < j < |q|
    ensures LastUse(e, q[i]) <= LastUse(e, q[j])
  {
    if i == 0 {
      assert q[j] == q[1..][j - 1];
    } else {
      OrderedAt(e, q[1..], i - 1, j - 1);
    }
  }

  lemma OrderedSplit(e: map<Key, Entry>, q: seq<Key>, n: nat, v: Key, j: Key)
    requires Ordered(e, q) && n <= |q| && v in q[..n] && j in q[n..]
    ensures v in q && j in q && LastUse(e, v) <= LastUse(e, j)
  {
    var a :| 0 <= a < n && q[..n][a] == v;
    var b :| 0 <= b < |q| - n && q[n..][b] == j;
    OrderedAt(e, q, a, n + b);
    assert q[a] == v && q[n + b] == j;
  }

  /** Order is inherited by what is left of a queue and depends only on the keys listed. */
  lemma {:induction false} OrderedWithout(e: map<Key, Entry>, f: map<Key, Entry>, q: seq<Key>, ks: set<Key>)
    requires Ordered(e, q)
    requires forall k :: k in q && k !in ks ==> LastUse(e, k) == LastUse(f, k)
    ensures Ordered(f, Without(q, ks))
  {
    if q != [] {
      assert forall k :: k in q[1..] ==> k in q;
      OrderedWithout(e, f, q[1..], ks);
      var r := Without(q[1..], ks);
      assert ([q[0]] + r)[1..] == r;
    }
  }

  lemma {:induction false} OrderedAppend(e: map<Key, Entry>, q: seq<Key>, k: Key)
    requires Ordered(e, q) && forall j :: j in q ==> LastUse(e, j) <= LastUse(e, k)
    ensures Ordered(e, q + [k])
  {
    if q != [] {
      assert forall j :: j in q[1..] ==> j in q;
      OrderedAppend(e, q[1..], k);
      assert (q + [k])[1..] == q[1..] + [k];
    }
  }

  lemma RemoveRecency(s: Store, ks: set<Key>, clock: int)
    requires Recency(s, clock)
    requires forall k :: k in s.access ==> k in s.entries
    ensures Recency(Remove(s, ks), clock)
  {
    OrderedWithout(s.entries, Remove(s, ks).entries, s.access, ks);
  }

  lemma TouchRecency(s: Store, k: Key, clock: int, at: int)
    requires Linked(s) && Recency(s, clock) && k in s.entries && clock <= at
    ensures Recency(Touch(s, k, at), at)
  {
    var t := Touch(s, k, at);
    OrderedWithout(s.entries, t.entries, s.access, {k});
    OrderedAppend(t.entries, Without(s.access, {k}), k);
  }

  lemma SetRecency(cfg: Config, s: Store, key: string, value: Bytes, now: int, vs: seq<Key>, t: Store, clock: int)
    requires Linked(s) && Recency(s, clock) && clock <= now
    requires SetVia(cfg, s, key, value, now, vs, t)
    ensures Recency(t, now)
  {
    if |value| <= cfg.maxSize {
      var k := FullKey(cfg, key);
      SetIsPut(cfg, s, key, value, now, vs, t);
      SetFrame(cfg, s, key, value, now, vs, t);
      PutRecency(cfg, s, key, value, now, {k} + Elements(vs), t, clock);
    }
  }

  lemma PutRecency(cfg: Config, s: Store, key: string, value: Bytes, now: int, ks: set<Key>, t: Store, clock: int)
    requires Linked(s) && Recency(s, clock) && clock <= now
    requires Framed(cfg, s, key, value, now, t)
    requires FullKey(cfg, key) in ks && t.access == Without(s.access, ks) + [FullKey(cfg, key)]
    requires forall k :: k in s.entries && k !in ks ==> k in t.entries
    ensures Recency(t, now)
  {
    OrderedWithout(s.entries, t.entries, s.access, ks);
    OrderedAppend(t.entries, Without(s.access, ks), FullKey(cfg, key));
  }

  lemma GetRecency(cfg: Config, s: Store, e: Event, t: Store, clock: int)
    requires Linked(s) && e.op.Get? && Step(cfg, s, e, t) && Recency(s, clock) && clock <= e.now
    ensures Recency(t, End(e))
  {
    var k := FullKey(cfg, e.op.key);
    if k in s.entries {
      if Expired(s.entries[k], e.now) {
        RemoveRecency(s, {k}, clock);
      } else {
        TouchRecency(s, k, clock, End(e));
      }
    }
  }

  lemma SetStepRecency(cfg: Config, s: Store, e: Event, t: Store, clock: int)
    requires Linked(s) && e.op.Set? && Step(cfg, s, e, t) && Recency(s, clock) && clock <= e.now
    ensures Recency(t, End(e))
  {
    var vs :| SetVia(cfg, s, e.op.key, e.op.value, e.now, vs, t);
    SetRecency(cfg, s, e.op.key, e.op.value, e.now, vs, t, clock);
  }

  lemma StepRecency(cfg: Config, s: Store, e: Event, t: Store, clock: int)
    requires Linked(s) && Step(cfg, s, e, t) && Recency(s, clock) && clock <= e.now
    ensures Recency(t, End(e))
  {
    match e.op
    case Get(_, _) => GetRecency(cfg, s, e, t, clock);
    case Set(_, _) => SetStepRecency(cfg, s, e, t, clock);
    case Clear =>
    case _ => RemoveRecency(s, Dropped(cfg, s, e), clock);
  }

  /** In every timed run the access queue is sorted by time of last use. */
  lemma {:induction false} RunRecency(cfg: Config, es: seq<Event>, states: seq<Store>, i: nat, clock: int)
    requires Run(cfg, es, states) && Clocked(es) && i <= |es|
    requires forall j :: 0 <= j < i ==> End(es[j]) <= clock
    ensures Recency(states[i], clock)
  {
    if i > 0 {
      var e := es[i - 1];
      RunRecency(cfg, es, states, i - 1, e.now);
      RunKeeps(cfg, es, states, i - 1);
      assert Step(cfg, states[i - 1], e, states[i]);
      StepRecency(cfg, states[i - 1], e, states[i], e.now);
    }
  }

  /**
   * Over whole runs, every entry an LRU `set` evicts was last used no later than every entry
   * it keeps: the front of the queue is a true least recently used entry.
   */
  lemma LruVictimsLeastRecent(cfg: Config, es: seq<Event>, states: seq<Store>, i: nat,
                              vs: seq<Key>, v: Key, j: Key)
    requires Run(cfg, es, states) && Clocked(es) && i < |es| && cfg.strategy.Lru?
    requires es[i].op.Set? && |es[i].op.value| <= cfg.maxSize
    requires SetVia(cfg, states[i], es[i].op.key, es[i].op.value, es[i].now, vs, states[i + 1])
    requires v in vs && j in states[i + 1].entries && j != FullKey(cfg, es[i].op.key)
    ensures v in states[i].entries && j in states[i].entries
    ensures states[i].entries[v].lastAccessed <= states[i].entries[j].lastAccessed
  {
    var s, t, k := states[i], states[i + 1], FullKey(cfg, es[i].op.key);
    RunKeeps(cfg, es, states, i);
    RunKeeps(cfg, es, states, i + 1);
    RunRecency(cfg, es, states, i, es[i].now);
    LruVictims(cfg, s, es[i].op.key, es[i].op.value, es[i].now, vs, t, v, j);
  }

  lemma LruVictims(cfg: Config, s: Store, key: string, value: Bytes, now: int, vs: seq<Key>, t: Store, v: Key, j: Key)
    requires Linked(s) && Linked(t) && cfg.strategy.Lru? && Ordered(s.entries, s.access)
    requires |value| <= cfg.maxSize && SetVia(cfg, s, key, value, now, vs, t)
    requires v in vs && j in t.entries && j != FullKey(cfg, key)
    ensures v in s.access && j in s.access
    ensures LastUse(s.entries, v) <= LastUse(s.entries, j)
  {
    var k := FullKey(cfg, key);
    var q := Without(s.access, {k});
    SetEvictsShortestPrefix(cfg, s, key, value, now, vs, t);
    OrderedWithout(s.entries, s.entries, s.access, {k});
    assert j in t.access;
    OrderedSplit(s.entries, q, |vs|, v, j);
  }

  // ---------------------------------------------------------------- age

  /** The entries with their time of creation in place of that of last use. */
  ghost function Births(e: map<Key, Entry>): map<Key, Entry> {
    map k | k in e :: e[k].(lastAccessed := e[k].createdAt)
  }

  /** `insert` is sorted by time of creation, and no entry is younger than `clock`. */
  ghost predicate Seniority(s: Store, clock: int) {
    Ordered(Births(s.entries), s.insert) && forall k :: k in s.entries ==> s.entries[k].createdAt <= clock
  }

  lemma RemoveSeniority(s: Store, ks: set<Key>, clock: int)
    requires Linked(s) && Seniority(s, clock)
    ensures Seniority(Remove(s, ks), clock)
  {
    OrderedWithout(Births(s.entries), Births(Remove(s, ks).entries), s.insert, ks);
  }

  lemma TouchSeniority(s: Store, k: Key, clock: int, at: int)
    requires Linked(s) && Seniority(s, clock) && k in s.entries
    ensures Seniority(Touch(s, k, at), clock)
  {
    WithoutAbsent(s.insert, {});
    OrderedWithout(Births(s.entries), Births(Touch(s, k, at).entries), s.insert, {});
  }

  lemma GetSeniority(cfg: Config, s: Store, e: Event, t: Store, clock: int)
    requires Linked(s) && e.op.Get? && Step(cfg, s, e, t) && Seniority(s, clock)
    ensures Seniority(t, clock)
  {
    var k := FullKey(cfg, e.op.key);
    if k in s.entries {
      if Expired(s.entries[k], e.now) {
        RemoveSeniority(s, {k}, clock);
        SameSeniority(Remove(s, {k}), t, clock);
      } else {
        TouchSeniority(s, k, clock, End(e));
        SameSeniority(Touch(s, k, End(e)), t, clock);
      }
    } else {
      SameSeniority(s, t, clock);
    }
  }

  lemma SameSeniority(s: Store, t: Store, clock: int)
    requires Seniority(s, clock) && t.entries == s.entries && t.insert == s.insert
    ensures Seniority(t, clock)
  {
  }

  lemma PutSeniority(cfg: Config, s: Store, key: string, value: Bytes, now: int, ks: set<Key>, t: Store, clock: int)
    requires Linked(s) && Seniority(s, clock) && clock <= now
    requires Framed(cfg, s, key, value, now, t)
    requires FullKey(cfg, key) in ks && t.insert == Without(s.insert, ks) + [FullKey(cfg, key)]
    requires forall k :: k in s.entries && k !in ks ==> k in t.entries
    ensures Seniority(t, now)
  {
    OrderedWithout(Births(s.entries), Births(t.entries), s.insert, ks);
    OrderedAppend(Births(t.entries), Without(s.insert, ks), FullKey(cfg, key));
  }

  lemma SetSeniority(cfg: Config, s: Store, e: Event, t: Store, clock: int)
    requires Linked(s) && e.op.Set? && Step(cfg, s, e, t) && Seniority(s, clock) && clock <= e.now
    ensures Seniority(t, e.now)
  {
    var key, value := e.op.key, e.op.value;
    var vs :| SetVia(cfg, s, key, value, e.now, vs, t);
    if |value| <= cfg.maxSize {
      SetIsPut(cfg, s, key, value, e.now, vs, t);
      SetFrame(cfg, s, key, value, e.now, vs, t);
      PutSeniority(cfg, s, key, value, e.now, {FullKey(cfg, key)} + Elements(vs), t, clock);
    }
  }

  lemma StepSeniority(cfg: Config, s: Store, e: Event, t: Store, clock: int)
    requires Linked(s) && Step(cfg, s, e, t) && Seniority(s, clock) && clock <= e.now
    ensures Seniority(t, e.now)
  {
    match e.op
    case Get(_, _) => GetSeniority(cfg, s, e, t, clock);
    case Set(_, _) => SetSeniority(cfg, s, e, t, clock);
    case Clear =>
    case _ => RemoveSeniority(s, Dropped(cfg, s, e), clock);
  }

  /** In every timed run the insertion queue is sorted by time of creation. */
  lemma {:induction false} RunSeniority(cfg: Config, es: seq<Event>, states: seq<Store>, i: nat, clock: int)
    requires Run(cfg, es, states) && Clocked(es) && i <= |es|
    requires forall j :: 0 <= j < i ==> es[j].now <= clock
    ensures Seniority(states[i], clock)
  {
    if i > 0 {
      RunSeniority(cfg, es, states, i - 1, es[i - 1].now);
      RunKeeps(cfg, es, states, i - 1);
      assert Step(cfg, states[i - 1], es[i - 1], states[i]);
      StepSeniority(cfg, states[i - 1], es[i - 1], states[i], es[i - 1].now);
    }
  }

  /** Over whole runs, every entry a FIFO `set` evicts was created no later than every entry it keeps. */
  lemma FifoVictimsOldest(cfg: Config, es: seq<Event>, states: seq<Store>, i: nat, vs: seq<Key>, v: Key, j: Key)
    requires Run(cfg, es, states) && Clocked(es) && i < |es| && cfg.strategy.Fifo?
    requires es[i].op.Set? && |es[i].op.value| <= cfg.maxSize
    requires SetVia(cfg, states[i], es[i].op.key, es[i].op.value, es[i].now, vs, states[i + 1])
    requires v in vs && j in states[i + 1].entries && j != FullKey(cfg, es[i].op.key)
    ensures v in states[i].entries && j in states[i].entries
    ensures states[i].entries[v].createdAt <= states[i].entries[j].createdAt
  {
    RunKeeps(cfg, es, states, i);
    RunKeeps(cfg, es, states, i + 1);
    RunSeniority(cfg, es, states, i, es[i].now);
    FifoVictims(cfg, states[i], es[i].op.key, es[i].op.value, es[i].now, vs, states[i + 1], v, j);
  }

  lemma FifoVictims(cfg: Config, s: Store, key: string, value: Bytes, now: int, vs: seq<Key>, t: Store, v: Key, j: Key)
    requires Linked(s) && Linked(t) && cfg.strategy.Fifo? && Ordered(Births(s.entries), s.insert)
    requires |value| <= cfg.maxSize && SetVia(cfg, s, key, value, now, vs, t)
    requires v in vs && j in t.entries && j != FullKey(cfg, key)
    ensures v in s.insert && j in s.insert
    ensures LastUse(Births(s.entries), v) <= LastUse(Births(s.entries), j)
  {
    var k := FullKey(cfg, key);
    var q := Without(s.insert, {k});
    SetEvictsShortestPrefix(cfg, s, key, value, now, vs, t);
    OrderedWithout(Births(s.entries), Births(s.entries), s.insert, {k});
    assert j in t.insert;
    OrderedSplit(Births(s.entries), q, |vs|, v, j);
  }

  // ---------------------------------------------------------------- the eviction counter

  /** The keys a step evicts: those a `set` takes away, its own aside. */
  ghost function EvictedBy(e: Event, s: Store, t: Store): set<Key> {
    if e.op.Set? then s.entries.Keys - t.entries.Keys else {}
  }

  lemma {:induction false} ChainDistinct(cfg: Config, s: Store, need: nat, vs: seq<Key>)
    requires Linked(s) && EvictChain(cfg, s, need, vs)
    ensures Drawn(vs, s.entries.Keys)
  {
    if vs == [] {
      assert Elements(vs) == {};
    } else {
      var before, v := vs[..|vs| - 1], vs[|vs| - 1];
      ChainDistinct(cfg, s, need, before);
      ChainPrefix(cfg, s, need, vs, |vs| - 1);
      FreshVictim(cfg, s, before, v);
      DrawnOn(vs, s.entries.Keys);
    }
  }

  lemma FreshVictim(cfg: Config, s: Store, before: seq<Key>, v: Key)
    requires Linked(s) && IsVictim(cfg, EvictAll(s, before), v)
    ensures v in s.entries.Keys && v !in Elements(before)
  {
    EvictAllRemoves(s, before);
    assert v in EvictAll(s, before).entries;
  }

  /** Every one of `q` once, all of them from `ks`. */
  ghost predicate Drawn(q: seq<Key>, ks: set<Key>) { |Elements(q)| == |q| && Elements(q) <= ks }

  lemma DrawnOn(q: seq<Key>, ks: set<Key>)
    requires q != [] && Drawn(q[..|q| - 1], ks) && q[|q| - 1] in ks && q[|q| - 1] !in Elements(q[..|q| - 1])
    ensures Drawn(q, ks)
  {
    assert q == q[..|q| - 1] + [q[|q| - 1]];
    assert Elements(q) == Elements(q[..|q| - 1]) + {q[|q| - 1]};
  }

  lemma SetEvicts(cfg: Config, s: Store, e: Event, t: Store)
    requires Linked(s) && e.op.Set? && Step(cfg, s, e, t)
    ensures t.evictions == s.evictions + |s.entries.Keys - t.entries.Keys|
  {
    var key, value, k := e.op.key, e.op.value, FullKey(cfg, e.op.key);
    var vs :| SetVia(cfg, s, key, value, e.now, vs, t);
    if |value| <= cfg.maxSize {
      RemoveKeeps(s, {k});
      ChainDistinct(cfg, Remove(s, {k}), |value|, vs);
      SetIsPut(cfg, s, key, value, e.now, vs, t);
      GoneKeys(cfg, s, key, value, e.now, vs, t);
    } else {
      assert s.entries.Keys - t.entries.Keys == {};
    }
  }

  lemma GoneKeys(cfg: Config, s: Store, key: string, value: Bytes, now: int, vs: seq<Key>, t: Store)
    requires Elements(vs) <= s.entries.Keys - {FullKey(cfg, key)}
    requires t ==
      Put(cfg, Remove(s, {FullKey(cfg, key)} + Elements(vs)).(evictions := s.evictions + |vs|), key, value, now)
    ensures s.entries.Keys - t.entries.Keys == Elements(vs)
  {
  }

  function Totals(d: seq<nat>): nat { if d == [] then 0 else Totals(d[..|d| - 1]) + d[|d| - 1] }

  lemma {:induction false} Telescopes(c: seq<nat>, d: seq<nat>)
    requires |c| == |d| + 1 && c[0] == 0 && forall j :: 0 <= j < |d| ==> c[j + 1] == c[j] + d[j]
    ensures c[|d|] == Totals(d)
  {
    if d != [] { Telescopes(c[..|d|], d[..|d| - 1]); }
  }

  /** How many keys a step evicts. */
  ghost function Loss(e: Event, s: Store, t: Store): nat { |EvictedBy(e, s, t)| }

  /** How many keys each of the first `i` steps evicted. */
  ghost function Losses(es: seq<Event>, states: seq<Store>, i: nat): (d: seq<nat>)
    requires i <= |es| < |states|
    ensures |d| == i && forall j :: 0 <= j < i ==> d[j] == Loss(es[j], states[j], states[j + 1])
  {
    seq(i, j requires 0 <= j < i => Loss(es[j], states[j], states[j + 1]))
  }

  lemma StepEvicts(cfg: Config, s: Store, e: Event, t: Store)
    requires Linked(s) && Step(cfg, s, e, t)
    ensures t.evictions == s.evictions + Loss(e, s, t)
  {
    if e.op.Set? { SetEvicts(cfg, s, e, t); }
  }

  lemma RunEvicts(cfg: Config, es: seq<Event>, states: seq<Store>, i: nat)
    requires Run(cfg, es, states) && i < |es|
    ensures states[i + 1].evictions == states[i].evictions + Loss(es[i], states[i], states[i + 1])
  {
    RunKeeps(cfg, es, states, i);
    StepEvicts(cfg, states[i], es[i], states[i + 1]);
  }

  /** In every run the eviction counter is the number of keys that `set` took away; nothing else counts. */
  lemma EvictionsCounted(cfg: Config, es: seq<Event>, states: seq<Store>, i: nat)
    requires Run(cfg, es, states) && i <= |es|
    ensures states[i].evictions == Totals(Losses(es, states, i))
  {
    var c: seq<nat>, d := seq(i + 1, j requires 0 <= j <= i => states[j].evictions), Losses(es, states, i);
    forall j: nat | j < i ensures c[j + 1] == c[j] + d[j] {
      RunEvicts(cfg, es, states, j);
    }
    Telescopes(c, d);
  }
}
