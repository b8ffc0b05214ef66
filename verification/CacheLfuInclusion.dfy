/** LFU inclusion while the byte limit is idle and the large cache never has to break a tie. */
module CacheLfuInclusion {
  import opened Base
  import opened KeyQueues
  import opened Cache
  import opened CacheInvariants
  import opened CacheInclusion

  /** Used no more often than any other entry. */
  ghost predicate Least(s: Store, k: Key) {
    k in s.entries && forall j :: j in s.entries ==> s.entries[k].accessCount <= s.entries[j].accessCount
  }

  /** Whenever a `set` finds the cache full, one entry is used less than all others. */
  ghost predicate Untied(cfg: Config, es: seq<Event>, states: seq<Store>)
    requires |states| == |es| + 1
  {
    forall i :: 0 <= i < |es| ==> UntiedSet(cfg, states[i], es[i])
  }

  ghost predicate UntiedSet(cfg: Config, s: Store, e: Event) {
    e.op.Set? && |e.op.value| <= cfg.maxSize ==> UntiedAt(cfg, Remove(s, {FullKey(cfg, e.op.key)}))
  }

  ghost predicate UntiedAt(cfg: Config, r: Store) {
    |r.entries| >= Limit(cfg) ==> forall a, b :: Least(r, a) && Least(r, b) ==> a == b
  }

  /** What an accepted `set` that needs no bytes does: with room it adds its key, else a least used entry goes. */
  ghost predicate Swaps(cfg: Config, r: Store, k: Key, t: Store) {
    if |r.entries| < Limit(cfg) then t.entries.Keys == r.entries.Keys + {k}
    else exists v :: Least(r, v) && t.entries.Keys == r.entries.Keys - {v} + {k}
  }

  /** Nothing is evicted while there is room. */
  lemma NoVictim(cfg: Config, r: Store, need: nat, vs: seq<Key>)
    requires |r.entries| < Limit(cfg) && Used(r) + need <= cfg.maxSize && EvictChain(cfg, r, need, vs)
    ensures vs == []
  {
    if vs != [] {
      ChainPrefix(cfg, r, need, vs, 0);
    }
  }

  /** One eviction makes room, and the first victim is a least used entry. */
  lemma OneVictim(cfg: Config, r: Store, need: nat, vs: seq<Key>)
    requires cfg.strategy.Lfu? && Linked(r) && |r.entries| <= Limit(cfg) && Used(r) + need <= cfg.maxSize
    requires EvictChain(cfg, r, need, vs) && Fits(cfg, EvictAll(r, vs), need)
    ensures |vs| == (if |r.entries| < Limit(cfg) then 0 else 1)
    ensures |vs| == 1 ==> Least(r, vs[0])
  {
    if |r.entries| < Limit(cfg) {
      NoVictim(cfg, r, need, vs);
    } else if vs != [] {
      ChainPrefix(cfg, r, need, vs, 0);
      assert EvictAll(r, vs[..0]) == r;
      FitsAfterOne(cfg, r, need, vs[0]);
      NoSecond(cfg, r, need, vs);
    }
  }

  lemma NoSecond(cfg: Config, r: Store, need: nat, vs: seq<Key>)
    requires vs != [] && EvictChain(cfg, r, need, vs) && Fits(cfg, Evict(r, vs[0]), need)
    ensures |vs| == 1
  {
    if |vs| > 1 {
      assert vs[..1] == [vs[0]] && EvictAll(r, [vs[0]]) == Evict(r, vs[0]);
      ChainPrefix(cfg, r, need, vs, 1);
    }
  }

  lemma FitsAfterOne(cfg: Config, r: Store, need: nat, v: Key)
    requires Linked(r) && v in r.entries && |r.entries| <= Limit(cfg) && Used(r) + need <= cfg.maxSize
    ensures Fits(cfg, Evict(r, v), need)
  {
    RemoveOne(r, v);
    var u := Evict(r, v);
    assert u.access == Remove(r, {v}).access && u.entries == Remove(r, {v}).entries;
  }

  lemma EvictKeys(r: Store, vs: seq<Key>)
    requires |vs| <= 1
    ensures EvictAll(r, vs).entries.Keys == if vs == [] then r.entries.Keys else r.entries.Keys - {vs[0]}
  {
    if vs != [] {
      assert vs == [vs[0]] && vs[..0] == [];
      assert EvictAll(r, vs) == Evict(r, vs[0]);
    }
  }

  lemma ChainSwaps(cfg: Config, r: Store, need: nat, vs: seq<Key>, k: Key, t: Store)
    requires cfg.strategy.Lfu? && Linked(r) && |r.entries| <= Limit(cfg) && Used(r) + need <= cfg.maxSize
    requires EvictChain(cfg, r, need, vs) && Fits(cfg, EvictAll(r, vs), need)
    requires t.entries.Keys == EvictAll(r, vs).entries.Keys + {k}
    ensures Swaps(cfg, r, k, t)
  {
    OneVictim(cfg, r, need, vs);
    EvictKeys(r, vs);
  }

  lemma SetSwaps(cfg: Config, s: Store, e: Event, t: Store)
    requires cfg.strategy.Lfu? && WellFormed(cfg, s)
    requires e.op.Set? && |e.op.value| <= cfg.maxSize && Step(cfg, s, e, t)
    requires Used(Remove(s, {FullKey(cfg, e.op.key)})) + |e.op.value| <= cfg.maxSize
    ensures Swaps(cfg, Remove(s, {FullKey(cfg, e.op.key)}), FullKey(cfg, e.op.key), t)
  {
    var vs := SetChain(cfg, s, e, t);
    RemoveKeeps(s, {FullKey(cfg, e.op.key)});
    ChainSwaps(cfg, Remove(s, {FullKey(cfg, e.op.key)}), |e.op.value|, vs, FullKey(cfg, e.op.key), t);
  }

  lemma SetChain(cfg: Config, s: Store, e: Event, t: Store) returns (vs: seq<Key>)
    requires e.op.Set? && |e.op.value| <= cfg.maxSize && Step(cfg, s, e, t)
    ensures var r := Remove(s, {FullKey(cfg, e.op.key)});
      && EvictChain(cfg, r, |e.op.value|, vs) && Fits(cfg, EvictAll(r, vs), |e.op.value|)
      && t.entries.Keys == EvictAll(r, vs).entries.Keys + {FullKey(cfg, e.op.key)}
  {
    vs :| SetVia(cfg, s, e.op.key, e.op.value, e.now, vs, t);
  }

  /** The larger cache has no more keys beyond the smaller one's than its capacity is larger. */
  ghost predicate Near(small: Config, large: Config, s: Store, l: Store) {
    Contained(s, l) && |l.entries| - |s.entries| <= Limit(large) - Limit(small)
  }

  lemma GapShrinks(a: set<Key>, b: set<Key>, ks: set<Key>, ls: set<Key>)
    requires a <= b && forall k :: k in a ==> (k in ks <==> k in ls)
    ensures |b - ls| - |a - ks| <= |b| - |a|
  {
    assert b == a + (b - a) && b - ls == (a - ks) + ((b - a) - ls);
    assert (b - a) - ls <= b - a;
    SizeWithin((b - a) - ls, b - a);
  }

  lemma SizeWithin(a: set<Key>, b: set<Key>)
    requires a <= b
    ensures |a| <= |b|
  {
    assert b == a + (b - a);
  }

  lemma RemoveNear(s: Store, l: Store, gap: int, ks: set<Key>, ls: set<Key>)
    requires Contained(s, l) && |l.entries| - |s.entries| <= gap
    requires forall k :: k in s.entries ==> (k in ks <==> k in ls)
    ensures |Remove(l, ls).entries| - |Remove(s, ks).entries| <= gap
  {
    GapShrinks(s.entries.Keys, l.entries.Keys, ks, ls);
    assert Remove(s, ks).entries.Keys == s.entries.Keys - ks && Remove(l, ls).entries.Keys == l.entries.Keys - ls;
  }

  lemma OtherNear(small: Config, large: Config, s: Store, l: Store, e: Event, s': Store, l': Store)
    requires Limit(small) <= Limit(large) && Alike(small, large) && Near(small, large, s, l)
    requires !e.op.Set? && Step(small, s, e, s') && Step(large, l, e, l')
    ensures Near(small, large, s', l')
  {
    OtherContained(small, large, s, l, e, s', l');
    if e.op.Get? {
      var k := FullKey(large, e.op.key);
      RemoveNear(s, l, Limit(large) - Limit(small), {k}, {k});
      GetSize(small, s, e, s');
      GetSize(large, l, e, l');
      if k !in s.entries { assert Remove(s, {k}).entries == s.entries; }
    } else if !e.op.Clear? {
      DroppedAgree(small, large, s, l, e);
      RemoveNear(s, l, Limit(large) - Limit(small), Dropped(small, s, e), Dropped(large, l, e));
    }
  }

  lemma GetSize(cfg: Config, s: Store, e: Event, t: Store)
    requires e.op.Get? && Step(cfg, s, e, t)
    ensures var k := FullKey(cfg, e.op.key);
      t.entries.Keys ==
      if k in s.entries && Expired(s.entries[k], e.now) then Remove(s, {k}).entries.Keys else s.entries.Keys
  {
  }

  /** The keys a `set` leaves in both caches. */
  lemma SwapsNear(small: Config, large: Config, a: Store, b: Store, k: Key, s': Store, l': Store)
    requires Limit(small) <= Limit(large) && Contained(a, b) && k !in b.entries
    requires |a.entries| <= Limit(small) && |b.entries| <= Limit(large)
    requires |b.entries| - |a.entries| <= Limit(large) - Limit(small)
    requires UntiedAt(large, b) && Swaps(small, a, k, s') && Swaps(large, b, k, l')
    ensures s'.entries.Keys <= l'.entries.Keys
    ensures |l'.entries| - |s'.entries| <= Limit(large) - Limit(small)
  {
    if |b.entries| < Limit(large) {
      if |a.entries| >= Limit(small) {
        var v :| Least(a, v) && s'.entries.Keys == a.entries.Keys - {v} + {k};
      }
    } else {
      var v :| Least(a, v) && s'.entries.Keys == a.entries.Keys - {v} + {k};
      var w :| Least(b, w) && l'.entries.Keys == b.entries.Keys - {w} + {k};
      if w in a.entries { LeastAgree(large, a, b, v, w); }
    }
  }

  /** If the large cache's victim is in the small one, it is the victim there too. */
  lemma LeastAgree(large: Config, a: Store, b: Store, v: Key, w: Key)
    requires Contained(a, b) && |b.entries| >= Limit(large) && UntiedAt(large, b)
    requires Least(a, v) && Least(b, w) && w in a.entries
    ensures v == w
  {
    assert Least(b, v);
  }

  lemma {:induction false} SubsetTotal(e: map<Key, Entry>, f: map<Key, Entry>, a: seq<Key>, b: seq<Key>)
    requires Distinct(a) && Distinct(b) && forall k :: k in a ==> k in b && Weight(e, k) == Weight(f, k)
    ensures Total(e, a) <= Total(f, b)
  {
    if a != [] {
      assert a[0] in a;
      TotalWithout(f, b, a[0]);
      WithoutDistinct(b, {a[0]});
      forall k | k in a[1..] ensures k in Without(b, {a[0]}) && Weight(e, k) == Weight(f, k) { assert k in a; }
      SubsetTotal(e, f, a[1..], Without(b, {a[0]}));
    }
  }

  lemma SetNear(small: Config, large: Config, s: Store, l: Store, e: Event, s': Store, l': Store)
    requires large.strategy.Lfu? && Limit(small) <= Limit(large) && Alike(small, large)
    requires WellFormed(small, s) && WellFormed(large, l) && Near(small, large, s, l)
    requires e.op.Set? && |e.op.value| <= large.maxSize && Step(small, s, e, s') && Step(large, l, e, l')
    requires Used(Remove(l, {FullKey(large, e.op.key)})) + |e.op.value| <= large.maxSize
    requires UntiedAt(large, Remove(l, {FullKey(large, e.op.key)}))
    ensures s'.entries.Keys <= l'.entries.Keys
    ensures |l'.entries| - |s'.entries| <= Limit(large) - Limit(small)
  {
    var k := FullKey(large, e.op.key);
    var a, b := Remove(s, {k}), Remove(l, {k});
    RemoveKeeps(s, {k});
    RemoveKeeps(l, {k});
    RemoveNear(s, l, Limit(large) - Limit(small), {k}, {k});
    SubsetTotal(a.entries, b.entries, a.access, b.access);
    SetSwaps(small, s, e, s');
    SetSwaps(large, l, e, l');
    SwapsNear(small, large, a, b, k, s', l');
  }

  lemma StepNear(small: Config, large: Config, s: Store, l: Store, e: Event, s': Store, l': Store)
    requires large.strategy.Lfu? && Limit(small) <= Limit(large) && Alike(small, large)
    requires WellFormed(small, s) && WellFormed(large, l) && Near(small, large, s, l)
    requires Step(small, s, e, s') && Step(large, l, e, l')
    requires IdleAt(large, l, e) && UntiedSet(large, l, e)
    ensures Near(small, large, s', l')
  {
    if !e.op.Set? {
      OtherNear(small, large, s, l, e, s', l');
    } else {
      if |e.op.value| <= large.maxSize {
        SetNear(small, large, s, l, e, s', l');
      } else {
        Refused(small, s, e, s');
        Refused(large, l, e, l');
      }
      SetContained(small, large, s, l, e, s', l');
    }
  }

  lemma NearNext(small: Config, large: Config, es: seq<Event>, ss: seq<Store>, ls: seq<Store>, i: nat)
    requires large.strategy.Lfu? && Limit(small) <= Limit(large) && Alike(small, large)
    requires Run(small, es, ss) && Run(large, es, ls) && i < |es| && Near(small, large, ss[i], ls[i])
    requires BytesIdle(large, es, ls) && Untied(large, es, ls)
    ensures Near(small, large, ss[i + 1], ls[i + 1])
  {
    RunStep(small, es, ss, i);
    RunStep(large, es, ls, i);
    StepNear(small, large, ss[i], ls[i], es[i], ss[i + 1], ls[i + 1]);
  }

  /**
   * Two LFU caches that differ only in capacity, fed the same timed events while the byte limit is
   * idle and no eviction of the large one meets a tie: at every moment the small one is contained
   * in the large one. How the small one breaks its ties does not matter.
   */
  lemma {:induction false} LfuInclusion(small: Config, large: Config, es: seq<Event>,
                                        ss: seq<Store>, ls: seq<Store>, i: nat)
    requires large.strategy.Lfu? && Limit(small) <= Limit(large) && Alike(small, large)
    requires Run(small, es, ss) && Run(large, es, ls) && i <= |es|
    requires BytesIdle(large, es, ls) && Untied(large, es, ls)
    ensures Near(small, large, ss[i], ls[i])
  {
    if i > 0 {
      LfuInclusion(small, large, es, ss, ls, i - 1);
      NearNext(small, large, es, ss, ls, i - 1);
    }
  }
}
