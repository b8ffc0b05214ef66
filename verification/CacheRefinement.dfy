/** The cache against its history: an unbounded map with expiry times, read off the list of events. */
module CacheRefinement {
  import opened Base
  import opened KeyQueues
  import opened Cache
  import opened CacheInvariants

  datatype Item = Item(value: Bytes, expiresAt: int)

  /** The last accepted `set` of `k`, unless an invalidation or a `clear` came after it. */
  function LastSet(cfg: Config, es: seq<Event>, k: Key): Option<Item> {
    if es == [] then None
    else
      var before, e := es[..|es| - 1], es[|es| - 1];
      match e.op
      case Set(key, value) =>
        if FullKey(cfg, key) == k && |value| <= cfg.maxSize
        then Some(Item(value, e.now + cfg.ttlSecs * NANOS_PER_SEC))
        else LastSet(cfg, before, k)
      case Invalidate(key) => if FullKey(cfg, key) == k then None else LastSet(cfg, before, k)
      case InvalidatePrefix(p) => if FullKey(cfg, p).text <= k.text then None else LastSet(cfg, before, k)
      case Clear => None
      case _ => LastSet(cfg, before, k)
  }

  ghost predicate Holds(s: Store, k: Key, item: Item) {
    k in s.entries && s.entries[k].value == item.value && s.entries[k].expiresAt == item.expiresAt
  }

  /** Every stored entry is the last accepted `set` of its key. */
  ghost predicate Sound(cfg: Config, es: seq<Event>, s: Store) {
    forall k :: k in s.entries ==>
      LastSet(cfg, es, k) == Some(Item(s.entries[k].value, s.entries[k].expiresAt))
  }

  lemma SetSound(cfg: Config, es: seq<Event>, s: Store, e: Event, t: Store)
    requires Sound(cfg, es, s) && e.op.Set? && |e.op.value| <= cfg.maxSize
    requires Framed(cfg, s, e.op.key, e.op.value, e.now, t)
    ensures Sound(cfg, es + [e], t)
  {
    assert (es + [e])[..|es|] == es;
  }

  lemma StepSound(cfg: Config, es: seq<Event>, s: Store, e: Event, t: Store)
    requires Sound(cfg, es, s) && Step(cfg, s, e, t)
    ensures Sound(cfg, es + [e], t)
  {
    assert (es + [e])[..|es|] == es;
    if e.op.Set? {
      var vs :| SetVia(cfg, s, e.op.key, e.op.value, e.now, vs, t);
      if |e.op.value| <= cfg.maxSize {
        SetFrame(cfg, s, e.op.key, e.op.value, e.now, vs, t);
        SetSound(cfg, es, s, e, t);
      }
    }
  }

  /** In every reachable state, under any strategy and any evictions, the cache is a part of the map. */
  lemma {:induction false} StoredIsLastSet(cfg: Config, es: seq<Event>, states: seq<Store>, i: nat)
    requires Run(cfg, es, states) && i <= |es|
    ensures Sound(cfg, es[..i], states[i])
  {
    if i > 0 {
      assert es[..i - 1] + [es[i - 1]] == es[..i];
      StoredIsLastSet(cfg, es, states, i - 1);
      assert Step(cfg, states[i - 1], es[i - 1], states[i]);
      StepSound(cfg, es[..i - 1], states[i - 1], es[i - 1], states[i]);
    }
  }

  /** How often a key was asked for since its last accepted `set`. */
  function GetsSince(cfg: Config, es: seq<Event>, k: Key): nat {
    if es == [] then 0
    else
      var before, e := es[..|es| - 1], es[|es| - 1];
      if e.op.Get? && FullKey(cfg, e.op.key) == k then GetsSince(cfg, before, k) + 1
      else if e.op.Set? && FullKey(cfg, e.op.key) == k && |e.op.value| <= cfg.maxSize then 0
      else GetsSince(cfg, before, k)
  }

  /** When a key was last set or asked for. */
  function TouchedAt(cfg: Config, es: seq<Event>, k: Key): int {
    if es == [] then 0
    else
      var before, e := es[..|es| - 1], es[|es| - 1];
      if e.op.Get? && FullKey(cfg, e.op.key) == k then End(e)
      else if e.op.Set? && FullKey(cfg, e.op.key) == k && |e.op.value| <= cfg.maxSize then e.now
      else TouchedAt(cfg, before, k)
  }

  /** The metadata the eviction strategies go by are those of the history. */
  ghost predicate Metered(cfg: Config, es: seq<Event>, s: Store) {
    forall k :: k in s.entries ==>
      s.entries[k].accessCount == GetsSince(cfg, es, k) && s.entries[k].lastAccessed == TouchedAt(cfg, es, k)
  }

  lemma SetMetered(cfg: Config, es: seq<Event>, s: Store, e: Event, t: Store)
    requires Metered(cfg, es, s) && e.op.Set? && |e.op.value| <= cfg.maxSize
    requires Framed(cfg, s, e.op.key, e.op.value, e.now, t)
    ensures Metered(cfg, es + [e], t)
  {
    assert (es + [e])[..|es|] == es;
  }

  lemma StepMetered(cfg: Config, es: seq<Event>, s: Store, e: Event, t: Store)
    requires Metered(cfg, es, s) && Step(cfg, s, e, t)
    ensures Metered(cfg, es + [e], t)
  {
    assert (es + [e])[..|es|] == es;
    if e.op.Set? {
      var vs :| SetVia(cfg, s, e.op.key, e.op.value, e.now, vs, t);
      if |e.op.value| <= cfg.maxSize {
        SetFrame(cfg, s, e.op.key, e.op.value, e.now, vs, t);
        SetMetered(cfg, es, s, e, t);
      }
    }
  }

  /** In every run a stored entry's use count and last use are the key's own since it was last set. */
  lemma {:induction false} UsageIsHistory(cfg: Config, es: seq<Event>, states: seq<Store>, i: nat)
    requires Run(cfg, es, states) && i <= |es|
    ensures Metered(cfg, es[..i], states[i])
  {
    if i > 0 {
      assert es[..i - 1] + [es[i - 1]] == es[..i];
      UsageIsHistory(cfg, es, states, i - 1);
      assert Step(cfg, states[i - 1], es[i - 1], states[i]);
      StepMetered(cfg, es[..i - 1], states[i - 1], es[i - 1], states[i]);
    }
  }

  // ---------------------------------------------------------------- what evictions take away

  /** An accepted `set` of the key. */
  predicate Sets(cfg: Config, e: Event, k: Key) {
    e.op.Set? && FullKey(cfg, e.op.key) == k && |e.op.value| <= cfg.maxSize
  }

  /** The key has not been evicted, by a `set` of another key, since its own last accepted `set`. */
  ghost predicate Spared(cfg: Config, es: seq<Event>, states: seq<Store>, i: nat, k: Key)
    requires i <= |es| < |states|
  {
    i == 0 || Sets(cfg, es[i - 1], k) ||
    (Spared(cfg, es, states, i - 1, k)
     && !(es[i - 1].op.Set? && k in states[i - 1].entries && k !in states[i].entries))
  }

  /** While the key is spared, its entry is in the cache as long as it is alive at `clock`. */
  ghost predicate Kept(cfg: Config, es: seq<Event>, s: Store, k: Key, clock: int) {
    LastSet(cfg, es, k).Some? && clock <= LastSet(cfg, es, k).value.expiresAt ==> Holds(s, k, LastSet(cfg, es, k).value)
  }

  lemma OwnSet(cfg: Config, es: seq<Event>, s: Store, e: Event, t: Store, k: Key, clock: int)
    requires Sets(cfg, e, k) && Step(cfg, s, e, t)
    ensures Kept(cfg, es + [e], t, k, clock)
  {
    assert (es + [e])[..|es|] == es;
    var vs :| SetVia(cfg, s, e.op.key, e.op.value, e.now, vs, t);
    SetFrame(cfg, s, e.op.key, e.op.value, e.now, vs, t);
  }

  lemma OtherSet(cfg: Config, es: seq<Event>, s: Store, e: Event, t: Store, k: Key, clock: int)
    requires e.op.Set? && !Sets(cfg, e, k) && Step(cfg, s, e, t)
    requires Kept(cfg, es, s, k, clock) && !(k in s.entries && k !in t.entries)
    ensures Kept(cfg, es + [e], t, k, clock)
  {
    assert (es + [e])[..|es|] == es;
    var vs :| SetVia(cfg, s, e.op.key, e.op.value, e.now, vs, t);
    if |e.op.value| <= cfg.maxSize {
      SetFrame(cfg, s, e.op.key, e.op.value, e.now, vs, t);
    }
  }

  lemma OtherOp(cfg: Config, es: seq<Event>, s: Store, e: Event, t: Store, k: Key, clock: int)
    requires !e.op.Set? && Step(cfg, s, e, t) && e.now <= clock && Kept(cfg, es, s, k, clock)
    ensures Kept(cfg, es + [e], t, k, clock)
  {
    assert (es + [e])[..|es|] == es;
  }

  /** In every run a key that is alive and has not been evicted since it was set is in the cache. */
  lemma {:induction false} LiveIsStored(cfg: Config, es: seq<Event>, states: seq<Store>, i: nat, k: Key, clock: int)
    requires Run(cfg, es, states) && i <= |es| && Spared(cfg, es, states, i, k)
    requires forall j :: 0 <= j < i ==> es[j].now <= clock
    ensures Kept(cfg, es[..i], states[i], k, clock)
  {
    if i > 0 {
      var s, e, t := states[i - 1], es[i - 1], states[i];
      assert Step(cfg, s, e, t);
      assert es[..i - 1] + [e] == es[..i];
      if Sets(cfg, e, k) {
        OwnSet(cfg, es[..i - 1], s, e, t, k, clock);
      } else {
        LiveIsStored(cfg, es, states, i - 1, k, clock);
        if e.op.Set? {
          OtherSet(cfg, es[..i - 1], s, e, t, k, clock);
        } else {
          OtherOp(cfg, es[..i - 1], s, e, t, k, clock);
        }
      }
    }
  }

  /** Nothing but its own `set` brings a key in. */
  lemma OnlySetBrings(cfg: Config, s: Store, e: Event, t: Store, k: Key)
    requires Step(cfg, s, e, t) && k !in s.entries && !Sets(cfg, e, k)
    ensures k !in t.entries
  {
    if e.op.Set? {
      var vs :| SetVia(cfg, s, e.op.key, e.op.value, e.now, vs, t);
      if |e.op.value| <= cfg.maxSize {
        SetFrame(cfg, s, e.op.key, e.op.value, e.now, vs, t);
      }
    }
  }

  /** A key evicted since it was set is gone. */
  lemma {:induction false} EvictedIsGone(cfg: Config, es: seq<Event>, states: seq<Store>, i: nat, k: Key)
    requires Run(cfg, es, states) && i <= |es| && !Spared(cfg, es, states, i, k)
    ensures k !in states[i].entries
  {
    assert Step(cfg, states[i - 1], es[i - 1], states[i]);
    if !Spared(cfg, es, states, i - 1, k) {
      EvictedIsGone(cfg, es, states, i - 1, k);
      OnlySetBrings(cfg, states[i - 1], es[i - 1], states[i], k);
    }
  }

  lemma SetEvictions(cfg: Config, s: Store, e: Event, t: Store)
    requires Step(cfg, s, e, t)
    ensures t.evictions >= s.evictions
    ensures e.op.Set? && t.evictions == s.evictions ==> s.entries.Keys <= t.entries.Keys
  {
    if e.op.Set? {
      var vs :| SetVia(cfg, s, e.op.key, e.op.value, e.now, vs, t);
      if |e.op.value| <= cfg.maxSize {
        SetFrame(cfg, s, e.op.key, e.op.value, e.now, vs, t);
      }
    }
  }

  /** While the eviction counter is zero every key is spared. */
  lemma {:induction false} NothingEvicted(cfg: Config, es: seq<Event>, states: seq<Store>, i: nat, k: Key)
    requires Run(cfg, es, states) && i <= |es| && states[i].evictions == 0
    ensures Spared(cfg, es, states, i, k)
  {
    if i > 0 {
      assert Step(cfg, states[i - 1], es[i - 1], states[i]);
      SetEvictions(cfg, states[i - 1], es[i - 1], states[i]);
      NothingEvicted(cfg, es, states, i - 1, k);
      assert k in states[i - 1].entries ==> k in states[i - 1].entries.Keys;
    }
  }

  /** What an unbounded map with expiry times would answer. */
  function Oracle(cfg: Config, es: seq<Event>, key: string, now: int): Option<Bytes> {
    match LastSet(cfg, es, FullKey(cfg, key))
    case None => None
    case Some(item) => if now > item.expiresAt then None else Some(item.value)
  }

  /**
   * `get` never answers anything but the map's own answer or a miss, and it answers exactly as the
   * map does if and only if the key was not evicted since its last `set`, or the map has no answer
   * either; so always in a run that has evicted nothing.
   */
  lemma GetRefinesMap(cfg: Config, es: seq<Event>, states: seq<Store>, i: nat, key: string, now: int)
    requires Run(cfg, es, states) && i <= |es|
    requires forall j :: 0 <= j < i ==> es[j].now <= now
    ensures Lookup(cfg, states[i], key, now).Some? ==>
      Lookup(cfg, states[i], key, now) == Oracle(cfg, es[..i], key, now)
    ensures Lookup(cfg, states[i], key, now) == Oracle(cfg, es[..i], key, now)
      <==> Spared(cfg, es, states, i, FullKey(cfg, key)) || Oracle(cfg, es[..i], key, now).None?
    ensures states[i].evictions == 0 ==> Spared(cfg, es, states, i, FullKey(cfg, key))
  {
    var k := FullKey(cfg, key);
    StoredIsLastSet(cfg, es, states, i);
    if states[i].evictions == 0 {
      NothingEvicted(cfg, es, states, i, k);
    }
    if Spared(cfg, es, states, i, k) {
      LiveIsStored(cfg, es, states, i, k, now);
    } else {
      EvictedIsGone(cfg, es, states, i, k);
    }
  }

  // ---------------------------------------------------------------- keys and lifetimes

  /** Right after an accepted `set` the key answers its value for `ttl_secs` seconds, the last instant included. */
  lemma SetThenGet(cfg: Config, s: Store, e: Event, t: Store, later: int)
    requires e.op.Set? && |e.op.value| <= cfg.maxSize && Step(cfg, s, e, t)
    ensures Lookup(cfg, t, e.op.key, later) ==
      if later - e.now <= cfg.ttlSecs * 1_000_000_000 then Some(e.op.value) else None
  {
    var vs :| SetVia(cfg, s, e.op.key, e.op.value, e.now, vs, t);
    SetFrame(cfg, s, e.op.key, e.op.value, e.now, vs, t);
  }

  /** Entries are filed under the prefix and the key they were set with. */
  ghost predicate Filed(cfg: Config, s: Store) {
    forall k :: k in s.entries ==> k.text == cfg.prefix + s.entries[k].key
  }

  lemma StepFiled(cfg: Config, s: Store, e: Event, t: Store)
    requires Filed(cfg, s) && Step(cfg, s, e, t)
    ensures Filed(cfg, t)
  {
    if e.op.Set? {
      var vs :| SetVia(cfg, s, e.op.key, e.op.value, e.now, vs, t);
      if |e.op.value| <= cfg.maxSize {
        SetFrame(cfg, s, e.op.key, e.op.value, e.now, vs, t);
      }
    }
  }

  /** In every run an entry is filed under the cache's prefix followed by its own key. */
  lemma {:induction false} RunFiled(cfg: Config, es: seq<Event>, states: seq<Store>, i: nat)
    requires Run(cfg, es, states) && i <= |es|
    ensures Filed(cfg, states[i])
  {
    if i > 0 {
      RunFiled(cfg, es, states, i - 1);
      assert Step(cfg, states[i - 1], es[i - 1], states[i]);
      StepFiled(cfg, states[i - 1], es[i - 1], states[i]);
    }
  }

  /** Full keys start alike exactly when the keys do, and so differ when the keys do. */
  lemma FullKeysCompare(cfg: Config, p: string, key: string)
    ensures FullKey(cfg, p).text <= FullKey(cfg, key).text <==> p <= key
    ensures FullKey(cfg, p) == FullKey(cfg, key) <==> p == key
  {
    var a, b := cfg.prefix + p, cfg.prefix + key;
    assert a[|cfg.prefix|..] == p && b[|cfg.prefix|..] == key;
    if |p| <= |key| {
      assert b[..|a|] == cfg.prefix + key[..|p|];
      assert (cfg.prefix + key[..|p|])[|cfg.prefix|..] == key[..|p|];
    }
  }

  /** In every run `invalidate_prefix` drops exactly the entries set under a key that starts with the prefix. */
  lemma PrefixDrops(cfg: Config, es: seq<Event>, states: seq<Store>, i: nat, k: Key)
    requires Run(cfg, es, states) && i < |es| && es[i].op.InvalidatePrefix? && k in states[i].entries
    ensures k in states[i + 1].entries <==> !(es[i].op.prefix <= states[i].entries[k].key)
  {
    RunFiled(cfg, es, states, i);
    assert Step(cfg, states[i], es[i], states[i + 1]);
    FullKeysCompare(cfg, es[i].op.prefix, states[i].entries[k].key);
  }
}
