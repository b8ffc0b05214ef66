/**
 * Inclusion: the same timed events on two caches that differ in capacity only. What every strategy
 * keeps, capacity one, equal capacities, and FIFO, for which no byte limit matters.
 */
module CacheInclusion {
  import opened Base
  import opened KeyQueues
  import opened Cache
  import opened CacheInvariants

  /** A capacity of zero acts as one. */
  function Limit(cfg: Config): nat { Max(1, cfg.maxEntries) }

  ghost predicate Alike(small: Config, large: Config) { small == large.(maxEntries := small.maxEntries) }

  /** Everything the small cache holds, the large one holds identically, and it answers no less often. */
  ghost predicate Contained(small: Store, large: Store) {
    && (forall k :: k in small.entries ==> k in large.entries && small.entries[k] == large.entries[k])
    && small.hits <= large.hits
    && small.hits + small.misses == large.hits + large.misses
  }

  /** Hence every hit of the small cache is the same hit of the large one. */
  lemma ContainedAnswers(small: Config, large: Config, s: Store, l: Store, key: string, now: int)
    requires Alike(small, large) && Contained(s, l) && Lookup(small, s, key, now).Some?
    ensures Lookup(large, l, key, now) == Lookup(small, s, key, now)
  {
  }

  /** The byte limit never forces an eviction: each accepted value fits beside what is stored. */
  ghost predicate BytesIdle(cfg: Config, es: seq<Event>, states: seq<Store>)
    requires |states| == |es| + 1
  {
    forall i :: 0 <= i < |es| ==> IdleAt(cfg, states[i], es[i])
  }

  ghost predicate IdleAt(cfg: Config, s: Store, e: Event) {
    e.op.Set? && |e.op.value| <= cfg.maxSize ==>
      Used(Remove(s, {FullKey(cfg, e.op.key)})) + |e.op.value| <= cfg.maxSize
  }

  /** Two consecutive states of a run. */
  lemma RunStep(cfg: Config, es: seq<Event>, states: seq<Store>, i: nat)
    requires Run(cfg, es, states) && i < |es|
    ensures WellFormed(cfg, states[i]) && WellFormed(cfg, states[i + 1])
    ensures Step(cfg, states[i], es[i], states[i + 1])
  {
    RunKeeps(cfg, es, states, i);
    RunKeeps(cfg, es, states, i + 1);
  }

  /** An invalidation or expiry pass selects the same entries in both caches, where both have them. */
  lemma DroppedAgree(small: Config, large: Config, s: Store, l: Store, e: Event)
    requires Alike(small, large)
    requires forall k :: k in s.entries ==> k in l.entries && s.entries[k] == l.entries[k]
    ensures forall k :: k in s.entries ==> (k in Dropped(small, s, e) <==> k in Dropped(large, l, e))
  {
  }

  lemma GetContained(small: Config, large: Config, s: Store, l: Store, e: Event, s': Store, l': Store)
    requires Alike(small, large) && Contained(s, l)
    requires e.op.Get? && Step(small, s, e, s') && Step(large, l, e, l')
    ensures Contained(s', l')
  {
  }

  lemma RemovalContained(small: Config, large: Config, s: Store, l: Store, e: Event, s': Store, l': Store)
    requires Alike(small, large) && Contained(s, l)
    requires !e.op.Set? && !e.op.Get? && Step(small, s, e, s') && Step(large, l, e, l')
    ensures Contained(s', l')
  {
    DroppedAgree(small, large, s, l, e);
  }

  /** Under every strategy a `set` keeps the containment if it keeps that of the keys. */
  lemma SetContained(small: Config, large: Config, s: Store, l: Store, e: Event, s': Store, l': Store)
    requires Alike(small, large) && Contained(s, l)
    requires e.op.Set? && Step(small, s, e, s') && Step(large, l, e, l')
    requires |e.op.value| <= large.maxSize ==> s'.entries.Keys <= l'.entries.Keys
    ensures Contained(s', l')
  {
    var key, value := e.op.key, e.op.value;
    var vs :| SetVia(small, s, key, value, e.now, vs, s');
    var vl :| SetVia(large, l, key, value, e.now, vl, l');
    if |value| <= large.maxSize {
      SetFrame(small, s, key, value, e.now, vs, s');
      SetFrame(large, l, key, value, e.now, vl, l');
      FramesContained(small, large, s, l, key, value, e.now, s', l');
    }
  }

  /** Untouched entries come from before, so inclusion of the keys gives that of the entries. */
  lemma FramesContained(small: Config, large: Config, s: Store, l: Store,
                        key: string, value: Bytes, now: int, s': Store, l': Store)
    requires Alike(small, large) && Contained(s, l) && s'.entries.Keys <= l'.entries.Keys
    requires Framed(small, s, key, value, now, s') && Framed(large, l, key, value, now, l')
    ensures Contained(s', l')
  {
    assert forall k :: k in s'.entries ==> k in s'.entries.Keys && k in l'.entries.Keys;
  }

  /** Every step but a `set` keeps the containment, under every strategy. */
  lemma OtherContained(small: Config, large: Config, s: Store, l: Store, e: Event, s': Store, l': Store)
    requires Alike(small, large) && Contained(s, l)
    requires !e.op.Set? && Step(small, s, e, s') && Step(large, l, e, l')
    ensures Contained(s', l')
  {
    if e.op.Get? {
      GetContained(small, large, s, l, e, s', l');
    } else {
      RemovalContained(small, large, s, l, e, s', l');
    }
  }

  // ---------------------------------------------------------------- capacity one

  lemma SetStored(cfg: Config, s: Store, e: Event, t: Store)
    requires e.op.Set? && |e.op.value| <= cfg.maxSize && Step(cfg, s, e, t)
    ensures FullKey(cfg, e.op.key) in t.entries
  {
    var vs :| SetVia(cfg, s, e.op.key, e.op.value, e.now, vs, t);
  }

  lemma OnlyKey(s: Store, k: Key)
    requires k in s.entries && |s.entries| <= 1
    ensures s.entries.Keys == {k}
  {
    var rest := s.entries.Keys - {k};
    assert |s.entries.Keys| == |rest| + 1;
  }

  /** Whatever the strategy and the byte limit, a cache of one entry is contained in every larger one. */
  lemma {:induction false} OneEntryInclusion(small: Config, large: Config, es: seq<Event>,
                                             ss: seq<Store>, ls: seq<Store>, i: nat)
    requires Limit(small) == 1 && Alike(small, large)
    requires Run(small, es, ss) && Run(large, es, ls) && i <= |es|
    ensures Contained(ss[i], ls[i])
  {
    if i > 0 {
      var e := es[i - 1];
      OneEntryInclusion(small, large, es, ss, ls, i - 1);
      RunKeeps(small, es, ss, i);
      assert Step(small, ss[i - 1], e, ss[i]) && Step(large, ls[i - 1], e, ls[i]);
      if e.op.Set? {
        if |e.op.value| <= large.maxSize {
          SetStored(small, ss[i - 1], e, ss[i]);
          SetStored(large, ls[i - 1], e, ls[i]);
          OnlyKey(ss[i], FullKey(small, e.op.key));
        }
        SetContained(small, large, ss[i - 1], ls[i - 1], e, ss[i], ls[i]);
      } else {
        OtherContained(small, large, ss[i - 1], ls[i - 1], e, ss[i], ls[i]);
      }
    }
  }

  // ---------------------------------------------------------------- equal capacities

  /** An accepted `set` pops `n` keys, the fewest that make room, and pushes its own. */
  ghost predicate Pops(cfg: Config, s: Store, k: Key, need: nat, n: nat) {
    var q := Without(Queue(cfg, s), {k});
    && n <= |q| && PrefixFits(cfg, s.entries, q, need, n)
    && forall i: nat :: i < n ==> !PrefixFits(cfg, s.entries, q, need, i)
  }

  ghost function SetPopping(cfg: Config, s: Store, e: Event, n: nat): Store
    requires e.op.Set? && n <= |Without(Queue(cfg, s), {FullKey(cfg, e.op.key)})|
  {
    var k := FullKey(cfg, e.op.key);
    var gone := {k} + Elements(Without(Queue(cfg, s), {k})[..n]);
    Put(cfg, Remove(s, gone).(evictions := s.evictions + n), e.op.key, e.op.value, e.now)
  }

  lemma SetPopsFewest(cfg: Config, s: Store, e: Event, t: Store) returns (n: nat)
    requires !cfg.strategy.Lfu? && Linked(s)
    requires e.op.Set? && |e.op.value| <= cfg.maxSize && Step(cfg, s, e, t)
    ensures var k, q := FullKey(cfg, e.op.key), Without(Queue(cfg, s), {FullKey(cfg, e.op.key)});
      Pops(cfg, s, k, |e.op.value|, n) && Queue(cfg, t) == q[n..] + [k] && t == SetPopping(cfg, s, e, n)
  {
    var vs :| SetVia(cfg, s, e.op.key, e.op.value, e.now, vs, t);
    n := |vs|;
    SetEvictsShortestPrefix(cfg, s, e.op.key, e.op.value, e.now, vs, t);
    SetIsPut(cfg, s, e.op.key, e.op.value, e.now, vs, t);
  }

  lemma SamePops(small: Config, large: Config, s: Store, k: Key, need: nat, m: nat, n: nat)
    requires Alike(small, large) && Limit(small) == Limit(large)
    requires Pops(small, s, k, need, m) && Pops(large, s, k, need, n)
    ensures m == n
  {
    var q := Without(Queue(large, s), {k});
    assert PrefixFits(large, s.entries, q, need, m) && PrefixFits(small, s.entries, q, need, n);
  }

  lemma SamePopping(small: Config, large: Config, s: Store, e: Event, n: nat)
    requires Alike(small, large) && e.op.Set? && n <= |Without(Queue(large, s), {FullKey(large, e.op.key)})|
    ensures SetPopping(small, s, e, n) == SetPopping(large, s, e, n)
  {
    var k := FullKey(large, e.op.key);
    var gone := {k} + Elements(Without(Queue(large, s), {k})[..n]);
    PutAlike(small, large, Remove(s, gone).(evictions := s.evictions + n), e);
  }

  lemma PutAlike(small: Config, large: Config, u: Store, e: Event)
    requires Alike(small, large) && e.op.Set?
    ensures Put(small, u, e.op.key, e.op.value, e.now) == Put(large, u, e.op.key, e.op.value, e.now)
  {
  }

  lemma Refused(cfg: Config, s: Store, e: Event, t: Store)
    requires e.op.Set? && |e.op.value| > cfg.maxSize && Step(cfg, s, e, t)
    ensures t == s
  {
  }

  lemma SameSet(small: Config, large: Config, s: Store, e: Event, t: Store, u: Store)
    requires Alike(small, large) && !large.strategy.Lfu? && Limit(small) == Limit(large) && Linked(s)
    requires e.op.Set? && Step(small, s, e, t) && Step(large, s, e, u)
    ensures t == u
  {
    if |e.op.value| <= large.maxSize {
      var m := SetPopsFewest(small, s, e, t);
      var n := SetPopsFewest(large, s, e, u);
      SamePops(small, large, s, FullKey(large, e.op.key), |e.op.value|, m, n);
      SamePopping(small, large, s, e, n);
    } else {
      Refused(small, s, e, t);
      Refused(large, s, e, u);
    }
  }

  /** LRU and FIFO runs are determined by their events. */
  lemma {:induction false} SameRun(small: Config, large: Config, es: seq<Event>, ss: seq<Store>, ls: seq<Store>, i: nat)
    requires Alike(small, large) && !large.strategy.Lfu? && Limit(small) == Limit(large)
    requires Run(small, es, ss) && Run(large, es, ls) && i <= |es|
    ensures ss[i] == ls[i]
  {
    if i > 0 {
      SameRun(small, large, es, ss, ls, i - 1);
      RunKeeps(small, es, ss, i - 1);
      assert Step(small, ss[i - 1], es[i - 1], ss[i]) && Step(large, ls[i - 1], es[i - 1], ls[i]);
      if es[i - 1].op.Set? {
        SameSet(small, large, ss[i - 1], es[i - 1], ss[i], ls[i]);
      }
    }
  }

  // ---------------------------------------------------------------- FIFO

  ghost predicate Suffix(a: seq<Key>, b: seq<Key>) { |a| <= |b| && a == b[|b| - |a|..] }

  lemma {:induction false} WithoutAppend(p: seq<Key>, q: seq<Key>, ks: set<Key>)
    ensures Without(p + q, ks) == Without(p, ks) + Without(q, ks)
  {
    if p == [] {
      assert p + q == q;
    } else {
      assert (p + q)[1..] == p[1..] + q;
      WithoutAppend(p[1..], q, ks);
    }
  }

  lemma SuffixWithout(a: seq<Key>, b: seq<Key>, ks: set<Key>, ls: set<Key>)
    requires Suffix(a, b) && forall k :: k in a ==> (k in ks <==> k in ls)
    ensures Suffix(Without(a, ks), Without(b, ls))
  {
    var p := b[..|b| - |a|];
    assert b == p + a;
    WithoutSame(a, ks, ls);
    WithoutAppend(p, a, ls);
  }

  /** The small insertion queue is the end of the large one. */
  ghost predicate Trailing(s: Store, l: Store) { Suffix(s.insert, l.insert) && Contained(s, l) }

  /** A `get` takes an expired key from both queues, and moves none. */
  lemma GetTrailing(small: Config, large: Config, s: Store, l: Store, key: string, now: int, at: int)
    requires Alike(small, large) && Linked(s) && Trailing(s, l)
    ensures Suffix(AfterGet(small, s, key, now, at).insert, AfterGet(large, l, key, now, at).insert)
  {
    var k := FullKey(large, key);
    SuffixWithout(s.insert, l.insert, {k}, {k});
    if k !in s.entries { WithoutAbsent(s.insert, {k}); }
  }

  lemma OtherTrailing(small: Config, large: Config, s: Store, l: Store, e: Event, s': Store, l': Store)
    requires Alike(small, large) && Linked(s) && Trailing(s, l)
    requires !e.op.Set? && Step(small, s, e, s') && Step(large, l, e, l')
    ensures Suffix(s'.insert, l'.insert)
  {
    if e.op.Get? {
      GetTrailing(small, large, s, l, e.op.key, e.now, End(e));
    } else if !e.op.Clear? {
      DroppedAgree(small, large, s, l, e);
      SuffixWithout(s.insert, l.insert, Dropped(small, s, e), Dropped(large, l, e));
    }
  }

  /** Where the small queue has room, the large one has room with the same keys left. */
  lemma RoomCarries(small: Config, large: Config, s: Store, l: Store, p: seq<Key>, q: seq<Key>, need: nat, n: nat)
    requires Alike(small, large) && Limit(small) <= Limit(large) && Contained(s, l)
    requires Suffix(p, q) && (forall k :: k in p ==> k in s.entries)
    requires n <= |p| && PrefixFits(small, s.entries, p, need, n)
    ensures q[|q| - |p| + n..] == p[n..] && PrefixFits(large, l.entries, q, need, |q| - |p| + n)
  {
    assert q[|q| - |p|..][n..] == q[|q| - |p| + n..];
    forall k | k in p[n..] ensures Weight(s.entries, k) == Weight(l.entries, k) { assert k in p; }
    TotalFrame(s.entries, l.entries, p[n..]);
  }

  /** The large queue is never popped past the small one. */
  lemma PopsLess(small: Config, large: Config, s: Store, l: Store, k: Key, need: nat, m: nat, n: nat)
    requires large.strategy.Fifo? && Limit(small) <= Limit(large) && Alike(small, large)
    requires Linked(s) && Trailing(s, l) && Pops(small, s, k, need, m) && Pops(large, l, k, need, n)
    ensures Suffix(Without(s.insert, {k})[m..] + [k], Without(l.insert, {k})[n..] + [k])
  {
    var p, q := Without(s.insert, {k}), Without(l.insert, {k});
    SuffixWithout(s.insert, l.insert, {k}, {k});
    RoomCarries(small, large, s, l, p, q, need, m);
    SuffixPushed(p, q, m, n, k);
  }

  /** After a `set` the small queue is still the end of the large one. */
  lemma SetTrailing(small: Config, large: Config, s: Store, l: Store, e: Event, s': Store, l': Store)
    requires large.strategy.Fifo? && Limit(small) <= Limit(large) && Alike(small, large)
    requires Linked(s) && Linked(l) && Trailing(s, l)
    requires e.op.Set? && Step(small, s, e, s') && Step(large, l, e, l')
    ensures Suffix(s'.insert, l'.insert)
  {
    if |e.op.value| <= large.maxSize {
      var m := SetPopsFewest(small, s, e, s');
      var n := SetPopsFewest(large, l, e, l');
      PopsLess(small, large, s, l, FullKey(large, e.op.key), |e.op.value|, m, n);
    }
  }

  lemma SuffixPushed(p: seq<Key>, q: seq<Key>, m: nat, n: nat, k: Key)
    requires Suffix(p, q) && m <= |p| && n <= |q| - |p| + m && q[|q| - |p| + m..] == p[m..]
    ensures Suffix(p[m..] + [k], q[n..] + [k])
  {
    assert q[n..][|q| - |p| + m - n..] == q[|q| - |p| + m..];
  }

  lemma StepTrailing(small: Config, large: Config, s: Store, l: Store, e: Event, s': Store, l': Store)
    requires large.strategy.Fifo? && Limit(small) <= Limit(large) && Alike(small, large)
    requires Linked(s) && Linked(l) && Linked(s') && Linked(l') && Trailing(s, l)
    requires Step(small, s, e, s') && Step(large, l, e, l')
    ensures Trailing(s', l')
  {
    if e.op.Set? {
      SetTrailing(small, large, s, l, e, s', l');
      forall k | k in s'.entries ensures k in l'.entries { assert k in s'.insert; }
      SetContained(small, large, s, l, e, s', l');
    } else {
      OtherTrailing(small, large, s, l, e, s', l');
      OtherContained(small, large, s, l, e, s', l');
    }
  }

  lemma TrailingNext(small: Config, large: Config, es: seq<Event>, ss: seq<Store>, ls: seq<Store>, i: nat)
    requires large.strategy.Fifo? && Limit(small) <= Limit(large) && Alike(small, large)
    requires Run(small, es, ss) && Run(large, es, ls) && i < |es| && Trailing(ss[i], ls[i])
    ensures Trailing(ss[i + 1], ls[i + 1])
  {
    RunStep(small, es, ss, i);
    RunStep(large, es, ls, i);
    StepTrailing(small, large, ss[i], ls[i], es[i], ss[i + 1], ls[i + 1]);
  }

  /**
   * Two FIFO caches that differ only in capacity, fed the same timed events under whatever byte
   * limit: at every moment the small one is contained in the large one, and its queue is the end of
   * the large one's.
   */
  lemma {:induction false} FifoInclusion(small: Config, large: Config, es: seq<Event>,
                                         ss: seq<Store>, ls: seq<Store>, i: nat)
    requires large.strategy.Fifo? && Limit(small) <= Limit(large) && Alike(small, large)
    requires Run(small, es, ss) && Run(large, es, ls) && i <= |es|
    ensures Trailing(ss[i], ls[i])
  {
    if i > 0 {
      FifoInclusion(small, large, es, ss, ls, i - 1);
      TrailingNext(small, large, es, ss, ls, i - 1);
    }
  }
}
