/** The cache of crates/cache-shim as a state machine on values: what each operation does to the
    entries, the two queues and the counters, and what the timed runs of these operations are. */
module Cache {
  import opened Base
  import opened KeyQueues

  datatype Strategy = Lru | Lfu | Fifo

  datatype Config = Config(prefix: string, ttlSecs: nat, maxSize: nat, maxEntries: nat, strategy: Strategy)

  datatype Entry = Entry(
    key: string,
    value: Bytes,
    sizeBytes: nat,
    createdAt: int,
    expiresAt: int,
    lastAccessed: int,
    accessCount: nat)

  datatype Store = Store(
    entries: map<Key, Entry>,
    access: seq<Key>,
    insert: seq<Key>,
    hits: nat,
    misses: nat,
    evictions: nat)

  const EMPTY := Store(map[], [], [], 0, 0, 0)

  function FullKey(cfg: Config, key: string): Key { Key(cfg.prefix + key) }

  // ---------------------------------------------------------------- byte accounting

  function Weight(entries: map<Key, Entry>, k: Key): nat {
    if k in entries then entries[k].sizeBytes else 0
  }

  function Total(entries: map<Key, Entry>, q: seq<Key>): nat {
    if q == [] then 0 else Weight(entries, q[0]) + Total(entries, q[1..])
  }

  function Used(s: Store): nat { Total(s.entries, s.access) }

  lemma {:induction false} TotalFrame(e: map<Key, Entry>, f: map<Key, Entry>, q: seq<Key>)
    requires forall k :: k in q ==> Weight(e, k) == Weight(f, k)
    ensures Total(e, q) == Total(f, q)
  {
    if q != [] {
      assert q[0] in q;
      forall k | k in q[1..] ensures Weight(e, k) == Weight(f, k) { assert k in q; }
      TotalFrame(e, f, q[1..]);
    }
  }

  lemma {:induction false} TotalAppend(e: map<Key, Entry>, q: seq<Key>, k: Key)
    ensures Total(e, q + [k]) == Total(e, q) + Weight(e, k)
  {
    if q == [] {
      assert q + [k] == [k];
      assert Total(e, [k]) == Weight(e, k) + Total(e, []);
    } else {
      assert (q + [k])[1..] == q[1..] + [k];
      TotalAppend(e, q[1..], k);
    }
  }

  lemma {:induction false} TotalWithout(e: map<Key, Entry>, q: seq<Key>, k: Key)
    requires Distinct(q) && k in q
    ensures Total(e, q) == Weight(e, k) + Total(e, Without(q, {k}))
  {
    if q[0] == k {
      WithoutFront(q);
    } else {
      assert k in q[1..];
      TotalWithout(e, q[1..], k);
      var r := Without(q[1..], {k});
      assert ([q[0]] + r)[1..] == r;
    }
  }

  lemma {:induction false} TotalShrinks(e: map<Key, Entry>, q: seq<Key>, ks: set<Key>)
    ensures Total(e, Without(q, ks)) <= Total(e, q)
  {
    if q != [] {
      TotalShrinks(e, q[1..], ks);
      var r := Without(q[1..], ks);
      if q[0] !in ks {
        assert ([q[0]] + r)[1..] == r;
      }
    }
  }

  /** The byte total does not depend on the queue used to enumerate the keys. */
  lemma {:induction false} TotalPermutation(e: map<Key, Entry>, p: seq<Key>, q: seq<Key>)
    requires Distinct(p) && Distinct(q)
    requires forall k :: k in p <==> k in q
    ensures Total(e, p) == Total(e, q)
  {
    assert q != [] ==> q[0] in p;
    if p != [] {
      assert p[0] in p;
      var r := Without(q, {p[0]});
      TotalWithout(e, q, p[0]);
      WithoutDistinct(q, {p[0]});
      forall k ensures k in p[1..] <==> k in r {
        if k in p[1..] { assert k in p; }
        if k in r { assert k in p; }
      }
      TotalPermutation(e, p[1..], r);
    }
  }

  // ---------------------------------------------------------------- operations

  /** Drop a set of keys from the map and from both queues. */
  function Remove(s: Store, ks: set<Key>): Store {
    s.(entries := s.entries - ks, access := Without(s.access, ks), insert := Without(s.insert, ks))
  }

  predicate Expired(e: Entry, now: int) { now > e.expiresAt }

  function ExpiredKeys(s: Store, now: int): set<Key> {
    set k | k in s.entries && Expired(s.entries[k], now)
  }

  function MatchingKeys(s: Store, fullPrefix: Key): set<Key> {
    set k | k in s.entries && fullPrefix.text <= k.text
  }

  function Touch(s: Store, k: Key, at: int): Store
    requires k in s.entries
  {
    var e := s.entries[k];
    s.(entries := s.entries[k := e.(lastAccessed := at, accessCount := e.accessCount + 1)],
       access := Without(s.access, {k}) + [k])
  }

  /** What `get` and `exists` can see. */
  function Lookup(cfg: Config, s: Store, key: string, now: int): Option<Bytes> {
    var k := FullKey(cfg, key);
    if k in s.entries && !Expired(s.entries[k], now) then Some(s.entries[k].value) else None
  }

  function AfterGet(cfg: Config, s: Store, key: string, now: int, touchedAt: int): Store {
    var k := FullKey(cfg, key);
    if k !in s.entries then s.(misses := s.misses + 1)
    else if Expired(s.entries[k], now) then Remove(s, {k}).(misses := s.misses + 1)
    else Touch(s, k, touchedAt).(hits := s.hits + 1)
  }

  ghost predicate Fits(cfg: Config, s: Store, need: nat) {
    && Used(s) + need <= cfg.maxSize
    && (|s.entries| < cfg.maxEntries || s.entries == map[])
  }

  ghost predicate IsVictim(cfg: Config, s: Store, k: Key) {
    && k in s.entries
    && match cfg.strategy
       case Lru => s.access != [] && k == s.access[0]
       case Fifo => s.insert != [] && k == s.insert[0]
       case Lfu => forall j :: j in s.entries ==> s.entries[k].accessCount <= s.entries[j].accessCount
  }

  function Evict(s: Store, k: Key): Store { Remove(s, {k}).(evictions := s.evictions + 1) }

  function EvictAll(s: Store, vs: seq<Key>): Store {
    if vs == [] then s else Evict(EvictAll(s, vs[..|vs| - 1]), vs[|vs| - 1])
  }

  /** `vs` are victims taken one after the other, each while some limit is still exceeded. */
  ghost predicate EvictChain(cfg: Config, s: Store, need: nat, vs: seq<Key>) {
    vs == [] ||
    var before := vs[..|vs| - 1];
    && EvictChain(cfg, s, need, before)
    && !Fits(cfg, EvictAll(s, before), need)
    && IsVictim(cfg, EvictAll(s, before), vs[|vs| - 1])
  }

  function Put(cfg: Config, s: Store, key: string, value: Bytes, now: int): Store {
    var k := FullKey(cfg, key);
    var e := Entry(key, value, |value|, now, now + cfg.ttlSecs * NANOS_PER_SEC, now, 0);
    s.(entries := s.entries[k := e], access := s.access + [k], insert := s.insert + [k])
  }

  /** `set` took `s` to `t`, evicting exactly `vs`. An oversized value changes nothing. */
  ghost predicate SetVia(cfg: Config, s: Store, key: string, value: Bytes, now: int, vs: seq<Key>, t: Store) {
    if |value| > cfg.maxSize then vs == [] && t == s
    else
      var s1 := Remove(s, {FullKey(cfg, key)});
      && EvictChain(cfg, s1, |value|, vs)
      && Fits(cfg, EvictAll(s1, vs), |value|)
      && t == Put(cfg, EvictAll(s1, vs), key, value, now)
  }

  // ---------------------------------------------------------------- timed runs

  /** `delay` is the time between the two clock readings inside `get`. */
  datatype Op =
    | Get(key: string, delay: nat)
    | Set(key: string, value: Bytes)
    | Invalidate(key: string)
    | InvalidatePrefix(prefix: string)
    | Purge
    | Sweep
    | Clear

  datatype Event = At(now: int, op: Op)

  function End(e: Event): int { if e.op.Get? then e.now + e.op.delay else e.now }

  /** The keys an invalidation or an expiry pass drops. */
  function Dropped(cfg: Config, s: Store, e: Event): set<Key> {
    match e.op
    case Invalidate(key) => {FullKey(cfg, key)}
    case InvalidatePrefix(p) => MatchingKeys(s, FullKey(cfg, p))
    case Purge => ExpiredKeys(s, e.now)
    case Sweep => ExpiredKeys(s, e.now)
    case _ => {}
  }

  ghost predicate Step(cfg: Config, s: Store, e: Event, t: Store) {
    match e.op
    case Get(key, delay) => t == AfterGet(cfg, s, key, e.now, e.now + delay)
    case Set(key, value) => exists vs :: SetVia(cfg, s, key, value, e.now, vs, t)
    case Clear => t == s.(entries := map[], access := [], insert := [])
    case _ => t == Remove(s, Dropped(cfg, s, e))
  }

  /** The states a fresh cache goes through; under LFU ties a list of events has several runs. */
  ghost predicate Run(cfg: Config, es: seq<Event>, states: seq<Store>) {
    && |states| == |es| + 1
    && states[0] == EMPTY
    && forall i :: 0 <= i < |es| ==> Step(cfg, states[i], es[i], states[i + 1])
  }

  /** The clock never goes back from one operation to the next. */
  ghost predicate Clocked(es: seq<Event>) {
    forall i, j :: 0 <= i < j < |es| ==> End(es[i]) <= es[j].now
  }

  // ---------------------------------------------------------------- representation invariant

  /** Both queues list the stored keys without repetition, and sizes are those of the values. */
  ghost predicate Linked(s: Store) {
    && Distinct(s.access) && Distinct(s.insert)
    && (forall k :: k in s.access <==> k in s.entries)
    && (forall k :: k in s.insert <==> k in s.entries)
    && (forall k :: k in s.entries ==> s.entries[k].sizeBytes == |s.entries[k].value|)
  }

  ghost predicate WellFormed(cfg: Config, s: Store) {
    && Linked(s)
    && Used(s) <= cfg.maxSize
    && |s.entries| <= Max(1, cfg.maxEntries)
  }
}
