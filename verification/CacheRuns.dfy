/** Runs of the cache that exist: under LRU they follow a plain queue of sizes, under both limits. */
module CacheRuns {
  import opened Base
  import opened KeyQueues
  import opened Cache
  import opened CacheInvariants

  /** Popping `n` keys one by one is a legal chain of evictions when no shorter prefix suffices. */
  lemma {:induction false} PopsAreChain(cfg: Config, s: Store, need: nat, n: nat)
    requires Linked(s) && !cfg.strategy.Lfu? && n <= |Queue(cfg, s)|
    requires forall i: nat :: i < n ==> !PrefixFits(cfg, s.entries, Queue(cfg, s), need, i)
    ensures EvictChain(cfg, s, need, Queue(cfg, s)[..n])
  {
    if n > 0 {
      var q := Queue(cfg, s);
      var before := q[..n - 1];
      PopsAreChain(cfg, s, need, n - 1);
      ChainPops(cfg, s, need, before);
      PoppedFits(cfg, s, need, before);
      EvictAllKeeps(s, before);
      SplitNext(q, n - 1);
      assert q[..n] == before + [q[n - 1]];
      assert Queue(cfg, EvictAll(s, before))[0] in Queue(cfg, EvictAll(s, before));
    }
  }

  lemma PopsMakeRoom(cfg: Config, s: Store, need: nat, n: nat)
    requires Linked(s) && !cfg.strategy.Lfu? && n <= |Queue(cfg, s)|
    requires PrefixFits(cfg, s.entries, Queue(cfg, s), need, n)
    requires forall i: nat :: i < n ==> !PrefixFits(cfg, s.entries, Queue(cfg, s), need, i)
    ensures var u := EvictAll(s, Queue(cfg, s)[..n]);
      && EvictChain(cfg, s, need, Queue(cfg, s)[..n]) && Fits(cfg, u, need) && Linked(u)
      && Queue(cfg, u) == Queue(cfg, s)[n..]
      && forall k :: k in u.entries ==> k in s.entries && u.entries[k] == s.entries[k]
  {
    var vs := Queue(cfg, s)[..n];
    PopsAreChain(cfg, s, need, n);
    ChainPops(cfg, s, need, vs);
    PoppedFits(cfg, s, need, vs);
    EvictAllKeeps(s, vs);
  }

  lemma SetByChain(cfg: Config, s: Store, key: string, value: Bytes, now: int, vs: seq<Key>)
    requires Linked(s) && FullKey(cfg, key) !in s.entries && |value| <= cfg.maxSize
    requires EvictChain(cfg, s, |value|, vs) && Fits(cfg, EvictAll(s, vs), |value|)
    ensures Step(cfg, s, At(now, Set(key, value)), Put(cfg, EvictAll(s, vs), key, value, now))
  {
    RemoveAbsent(s, FullKey(cfg, key));
    assert SetVia(cfg, s, key, value, now, vs, Put(cfg, EvictAll(s, vs), key, value, now));
  }

  lemma Pushed(cfg: Config, u: Store, key: string, value: Bytes, now: int)
    requires Linked(u) && FullKey(cfg, key) !in u.entries && Fits(cfg, u, |value|)
    ensures var k, t := FullKey(cfg, key), Put(cfg, u, key, value, now);
      && Linked(t) && Queue(cfg, t) == Queue(cfg, u) + [k]
      && Weight(t.entries, k) == |value| && t.entries[k].expiresAt == now + cfg.ttlSecs * NANOS_PER_SEC
      && forall j :: j in u.entries ==> t.entries[j] == u.entries[j]
  {
    PutKeeps(cfg, u, key, value, now);
  }

  /** A `set` of a new key exists, and pops the shortest prefix that makes room. */
  lemma NewKeySet(cfg: Config, s: Store, key: string, value: Bytes, now: int, n: nat) returns (t: Store)
    requires Linked(s) && !cfg.strategy.Lfu? && n <= |Queue(cfg, s)|
    requires FullKey(cfg, key) !in s.entries && |value| <= cfg.maxSize
    requires PrefixFits(cfg, s.entries, Queue(cfg, s), |value|, n)
    requires forall i: nat :: i < n ==> !PrefixFits(cfg, s.entries, Queue(cfg, s), |value|, i)
    ensures Step(cfg, s, At(now, Set(key, value)), t) && Linked(t)
    ensures Queue(cfg, t) == Queue(cfg, s)[n..] + [FullKey(cfg, key)]
    ensures Weight(t.entries, FullKey(cfg, key)) == |value|
    ensures t.entries[FullKey(cfg, key)].expiresAt == now + cfg.ttlSecs * NANOS_PER_SEC
    ensures forall k :: k in Queue(cfg, s)[n..] ==> k in t.entries && k in s.entries && t.entries[k] == s.entries[k]
  {
    var vs := Queue(cfg, s)[..n];
    PopsMakeRoom(cfg, s, |value|, n);
    t := Put(cfg, EvictAll(s, vs), key, value, now);
    SetByChain(cfg, s, key, value, now, vs);
    Pushed(cfg, EvictAll(s, vs), key, value, now);
  }

  // ---------------------------------------------------------------- the queue machine

  datatype Slot = Slot(key: Key, size: nat)

  function KeysOf(q: seq<Slot>): (ks: seq<Key>)
    ensures |ks| == |q| && forall i :: 0 <= i < |q| ==> ks[i] == q[i].key
  {
    seq(|q|, i requires 0 <= i < |q| => q[i].key)
  }

  function Sum(q: seq<Slot>): nat { if q == [] then 0 else q[0].size + Sum(q[1..]) }

  predicate Roomy(cfg: Config, q: seq<Slot>, need: nat) {
    Sum(q) + need <= cfg.maxSize && (|q| < cfg.maxEntries || q == [])
  }

  /** Pop from the front until there is room. */
  function Shrunk(cfg: Config, q: seq<Slot>, need: nat): seq<Slot> {
    if q == [] || Roomy(cfg, q, need) then q else Shrunk(cfg, q[1..], need)
  }

  function Find(q: seq<Slot>, k: Key): Option<nat> {
    if q == [] then None else if q[0].key == k then Some(q[0].size) else Find(q[1..], k)
  }

  function Lacking(q: seq<Slot>, k: Key): seq<Slot> {
    if q == [] then []
    else if q[0].key == k then Lacking(q[1..], k)
    else [q[0]] + Lacking(q[1..], k)
  }

  /** What a `set` or a `get` that finds nothing expired does to the queue. */
  function Play(cfg: Config, q: seq<Slot>, op: Op): seq<Slot> {
    match op
    case Set(key, value) =>
      if |value| > cfg.maxSize then q
      else Shrunk(cfg, Lacking(q, FullKey(cfg, key)), |value|) + [Slot(FullKey(cfg, key), |value|)]
    case Get(key, _) =>
      var k := FullKey(cfg, key);
      if Find(q, k).Some? then Lacking(q, k) + [Slot(k, Find(q, k).value)] else q
    case _ => q
  }

  function PlayAll(cfg: Config, es: seq<Event>): seq<Slot> {
    if es == [] then [] else Play(cfg, PlayAll(cfg, es[..|es| - 1]), es[|es| - 1].op)
  }

  /** The cache is the queue, with everything alive until `until`. */
  ghost predicate Holds(s: Store, q: seq<Slot>, until: int) {
    && Linked(s) && s.access == KeysOf(q) && Weighs(s.entries, q)
    && forall k :: k in s.entries ==> s.entries[k].expiresAt >= until
  }

  ghost predicate Weighs(e: map<Key, Entry>, q: seq<Slot>) {
    forall i :: 0 <= i < |q| ==> Weight(e, q[i].key) == q[i].size
  }

  lemma {:induction false} TotalIsSum(e: map<Key, Entry>, q: seq<Slot>)
    requires Weighs(e, q)
    ensures Total(e, KeysOf(q)) == Sum(q)
  {
    if q != [] {
      TotalIsSum(e, q[1..]);
      assert KeysOf(q)[1..] == KeysOf(q[1..]);
    }
  }

  lemma {:induction false} LackingKeys(q: seq<Slot>, k: Key)
    ensures KeysOf(Lacking(q, k)) == Without(KeysOf(q), {k})
    ensures forall x :: x in Lacking(q, k) ==> x in q
  {
    if q != [] {
      LackingKeys(q[1..], k);
      assert KeysOf(q)[1..] == KeysOf(q[1..]);
      var rest := Lacking(q[1..], k);
      assert KeysOf([q[0]] + rest) == [q[0].key] + KeysOf(rest);
    }
  }

  lemma {:induction false} FindKey(e: map<Key, Entry>, q: seq<Slot>, k: Key)
    requires Weighs(e, q)
    ensures Find(q, k).Some? <==> k in KeysOf(q)
    ensures Find(q, k).Some? ==> Find(q, k).value == Weight(e, k)
  {
    if q != [] {
      FindKey(e, q[1..], k);
      assert KeysOf(q)[1..] == KeysOf(q[1..]);
    }
  }

  /** How many slots are popped. */
  lemma {:induction false} ShrunkBy(cfg: Config, q: seq<Slot>, need: nat) returns (n: nat)
    requires need <= cfg.maxSize
    ensures n <= |q| && Shrunk(cfg, q, need) == q[n..]
    ensures Roomy(cfg, q[n..], need) && forall i: nat :: i < n ==> !Roomy(cfg, q[i..], need)
  {
    if q == [] || Roomy(cfg, q, need) {
      n := 0;
      assert q[0..] == q;
    } else {
      n := ShrunkBy(cfg, q[1..], need);
      n := n + 1;
      assert q[1..][n - 1..] == q[n..];
      forall i: nat | i < n ensures !Roomy(cfg, q[i..], need) {
        if i == 0 { assert q[0..] == q; } else { assert q[1..][i - 1..] == q[i..]; }
      }
    }
  }

  lemma RoomyIsPrefixFits(cfg: Config, e: map<Key, Entry>, q: seq<Slot>, need: nat, n: nat)
    requires Weighs(e, q) && n <= |q|
    ensures PrefixFits(cfg, e, KeysOf(q), need, n) <==> Roomy(cfg, q[n..], need)
  {
    TotalIsSum(e, q[n..]);
    assert KeysOf(q)[n..] == KeysOf(q[n..]);
  }

  lemma WeighsNext(e: map<Key, Entry>, f: map<Key, Entry>, q: seq<Slot>, x: Slot)
    requires Weighs(e, q) && Weight(f, x.key) == x.size
    requires forall k :: k in KeysOf(q) ==> Weight(f, k) == Weight(e, k)
    ensures Weighs(f, q + [x]) && KeysOf(q + [x]) == KeysOf(q) + [x.key]
  {
    assert forall i :: 0 <= i < |q| ==> KeysOf(q)[i] in KeysOf(q);
  }

  lemma RemovedHolds(s: Store, q: seq<Slot>, until: int, k: Key)
    requires Holds(s, q, until)
    ensures Holds(Remove(s, {k}), Lacking(q, k), until) && k !in Remove(s, {k}).entries
  {
    RemoveKeeps(s, {k});
    LackingKeys(q, k);
    var r := Remove(s, {k});
    forall i | 0 <= i < |Lacking(q, k)| ensures Weight(r.entries, Lacking(q, k)[i].key) == Lacking(q, k)[i].size {
      assert Lacking(q, k)[i] in q && KeysOf(Lacking(q, k))[i] in Without(s.access, {k});
    }
  }

  /** A `set` starts by removing its key. */
  lemma SetOverRemoved(cfg: Config, s: Store, key: string, value: Bytes, now: int, t: Store)
    requires Linked(s) && |value| <= cfg.maxSize
    requires Step(cfg, Remove(s, {FullKey(cfg, key)}), At(now, Set(key, value)), t)
    ensures Step(cfg, s, At(now, Set(key, value)), t)
  {
    var k := FullKey(cfg, key);
    RemoveKeeps(s, {k});
    RemoveAbsent(Remove(s, {k}), k);
    var vs :| SetVia(cfg, Remove(s, {k}), key, value, now, vs, t);
    assert SetVia(cfg, s, key, value, now, vs, t);
  }

  /** The queue with one more slot: the other entries are as in `e`. */
  lemma HoldsNext(e: map<Key, Entry>, t: Store, q: seq<Slot>, x: Slot, until: int)
    requires Linked(t) && t.access == KeysOf(q) + [x.key] && Weighs(e, q)
    requires Weight(t.entries, x.key) == x.size && t.entries[x.key].expiresAt >= until
    requires forall k :: k in KeysOf(q) ==>
      k in e && k in t.entries && t.entries[k].sizeBytes == e[k].sizeBytes && t.entries[k].expiresAt >= until
    ensures Holds(t, q + [x], until)
  {
    WeighsNext(e, t.entries, q, x);
    assert forall k :: k in t.entries ==> k in KeysOf(q) || k == x.key;
  }

  lemma ShrinkPops(cfg: Config, s: Store, q: seq<Slot>, until: int, need: nat) returns (n: nat)
    requires Holds(s, q, until) && !cfg.strategy.Fifo? && need <= cfg.maxSize
    ensures n <= |q| && Shrunk(cfg, q, need) == q[n..] && KeysOf(q[n..]) == Queue(cfg, s)[n..]
    ensures Weighs(s.entries, q[n..])
    ensures PrefixFits(cfg, s.entries, Queue(cfg, s), need, n)
    ensures forall i: nat :: i < n ==> !PrefixFits(cfg, s.entries, Queue(cfg, s), need, i)
  {
    n := ShrunkBy(cfg, q, need);
    forall i: nat | i <= n { RoomyIsPrefixFits(cfg, s.entries, q, need, i); }
    assert KeysOf(q)[n..] == KeysOf(q[n..]);
  }

  lemma NewKeyPlays(cfg: Config, s: Store, q: seq<Slot>, until: int, key: string, value: Bytes, now: int)
    returns (t: Store)
    requires Holds(s, q, until) && cfg.strategy.Lru? && now + cfg.ttlSecs * NANOS_PER_SEC >= until
    requires FullKey(cfg, key) !in s.entries && |value| <= cfg.maxSize
    ensures Step(cfg, s, At(now, Set(key, value)), t)
    ensures Holds(t, Shrunk(cfg, q, |value|) + [Slot(FullKey(cfg, key), |value|)], until)
  {
    var n := ShrinkPops(cfg, s, q, until, |value|);
    t := NewKeySet(cfg, s, key, value, now, n);
    HoldsNext(s.entries, t, q[n..], Slot(FullKey(cfg, key), |value|), until);
  }

  lemma SetPlays(cfg: Config, s: Store, q: seq<Slot>, until: int, key: string, value: Bytes, now: int)
    returns (t: Store)
    requires Holds(s, q, until) && cfg.strategy.Lru? && now + cfg.ttlSecs * NANOS_PER_SEC >= until
    ensures Step(cfg, s, At(now, Set(key, value)), t) && Holds(t, Play(cfg, q, Set(key, value)), until)
  {
    var k := FullKey(cfg, key);
    if |value| > cfg.maxSize {
      t := s;
      assert SetVia(cfg, s, key, value, now, [], t);
    } else {
      RemovedHolds(s, q, until, k);
      t := NewKeyPlays(cfg, Remove(s, {k}), Lacking(q, k), until, key, value, now);
      SetOverRemoved(cfg, s, key, value, now, t);
    }
  }

  lemma TouchPlays(s: Store, q: seq<Slot>, until: int, k: Key, at: int)
    requires Holds(s, q, until) && k in s.entries
    ensures Find(q, k).Some? && Holds(Touch(s, k, at), Lacking(q, k) + [Slot(k, Find(q, k).value)], until)
  {
    FindKey(s.entries, q, k);
    TouchKeeps(s, k, at);
    RemovedHolds(s, q, until, k);
    HoldsNext(Remove(s, {k}).entries, Touch(s, k, at), Lacking(q, k), Slot(k, Find(q, k).value), until);
  }

  lemma CountersApart(s: Store, t: Store, q: seq<Slot>, until: int)
    requires Holds(s, q, until) && t.entries == s.entries && t.access == s.access && t.insert == s.insert
    ensures Holds(t, q, until)
  {
  }

  lemma GetHolds(cfg: Config, s: Store, q: seq<Slot>, until: int, key: string, at: int, now: int)
    requires Holds(s, q, until) && now <= until && now <= at
    ensures Holds(AfterGet(cfg, s, key, now, at), Play(cfg, q, Get(key, at - now)), until)
  {
    var k := FullKey(cfg, key);
    FindKey(s.entries, q, k);
    if k in s.entries {
      TouchPlays(s, q, until, k, at);
      var r := Lacking(q, k) + [Slot(k, Find(q, k).value)];
      CountersApart(Touch(s, k, at), AfterGet(cfg, s, key, now, at), r, until);
    } else {
      CountersApart(s, AfterGet(cfg, s, key, now, at), q, until);
    }
  }

  /** Gets and sets only, none late enough for an entry to have expired. */
  ghost predicate Lively(cfg: Config, es: seq<Event>, until: int) {
    forall e :: e in es ==>
      (e.op.Get? || e.op.Set?) && e.now <= until <= e.now + cfg.ttlSecs * NANOS_PER_SEC
  }

  lemma OpPlays(cfg: Config, s: Store, q: seq<Slot>, until: int, e: Event) returns (t: Store)
    requires cfg.strategy.Lru? && Holds(s, q, until) && Lively(cfg, [e], until)
    ensures Step(cfg, s, e, t) && Holds(t, Play(cfg, q, e.op), until)
  {
    assert e in [e];
    if e.op.Set? {
      t := SetPlays(cfg, s, q, until, e.op.key, e.op.value, e.now);
    } else {
      t := AfterGet(cfg, s, e.op.key, e.now, End(e));
      GetHolds(cfg, s, q, until, e.op.key, End(e), e.now);
    }
  }

  /** Every such list of events has a run, under both limits, and it ends as the queue machine does. */
  lemma {:induction false} LruPlays(cfg: Config, es: seq<Event>, until: int) returns (states: seq<Store>)
    requires cfg.strategy.Lru? && Lively(cfg, es, until)
    ensures Run(cfg, es, states) && Holds(states[|es|], PlayAll(cfg, es), until)
  {
    if es == [] {
      states := [EMPTY];
    } else {
      var before, e := es[..|es| - 1], es[|es| - 1];
      states := LruPlays(cfg, before, until);
      states := PlayOn(cfg, before, states, PlayAll(cfg, before), until, e);
      assert before + [e] == es;
    }
  }

  lemma PlayOn(cfg: Config, es: seq<Event>, states: seq<Store>, q: seq<Slot>, until: int, e: Event)
    returns (more: seq<Store>)
    requires cfg.strategy.Lru? && Run(cfg, es, states) && Holds(states[|es|], q, until) && Lively(cfg, [e], until)
    ensures Run(cfg, es + [e], more) && Holds(more[|es| + 1], Play(cfg, q, e.op), until)
  {
    var t := OpPlays(cfg, states[|es|], q, until, e);
    more := states + [t];
    RunNext(cfg, es, states, e, t);
  }

  lemma RunNext(cfg: Config, es: seq<Event>, states: seq<Store>, e: Event, t: Store)
    requires Run(cfg, es, states) && Step(cfg, states[|es|], e, t)
    ensures Run(cfg, es + [e], states + [t])
  {
  }

  lemma {:induction false} LackingNone(q: seq<Slot>, k: Key)
    requires forall i :: 0 <= i < |q| ==> q[i].key != k
    ensures Lacking(q, k) == q && Find(q, k).None?
  {
    if q != [] {
      LackingNone(q[1..], k);
      assert [q[0]] + q[1..] == q;
    }
  }

  lemma SetRoomy(cfg: Config, q: seq<Slot>, x: Slot, key: string, value: Bytes)
    requires (forall i :: 0 <= i < |q| ==> q[i].key != x.key) && x == Slot(FullKey(cfg, key), |value|)
    requires Roomy(cfg, q, |value|)
    ensures Play(cfg, q, Set(key, value)) == q + [x]
  {
    LackingNone(q, x.key);
  }

  /** The front is popped to make room for a new key. */
  lemma SetPops(cfg: Config, q: seq<Slot>, x: Slot, key: string, value: Bytes)
    requires (forall i :: 0 <= i < |q| ==> q[i].key != x.key) && x == Slot(FullKey(cfg, key), |value|)
    requires q != [] && !Roomy(cfg, q, |value|) && |value| <= cfg.maxSize
    ensures Play(cfg, q, Set(key, value)) == Play(cfg, q[1..], Set(key, value))
  {
    LackingNone(q, x.key);
    LackingNone(q[1..], x.key);
  }
}
