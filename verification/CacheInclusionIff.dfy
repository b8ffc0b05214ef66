/** When every run of a smaller cache is contained in that of a larger one: exactly, for each strategy. */
module CacheInclusionIff {
  import opened Base
  import opened KeyQueues
  import opened Cache
  import opened CacheInvariants
  import opened CacheInclusion
  import opened CacheLruInclusion
  import opened CacheRuns

  /** In every pair of runs over the same events the small cache is contained in the large one at every moment. */
  ghost predicate Inclusive(small: Config, large: Config) {
    forall es: seq<Event>, ss: seq<Store>, ls: seq<Store>, i: nat ::
      Run(small, es, ss) && Run(large, es, ls) && i <= |es| ==> Contained(ss[i], ls[i])
  }

  // ---------------------------------------------------------------- no bytes at all

  lemma NoBytesIdle(cfg: Config, es: seq<Event>, states: seq<Store>)
    requires cfg.maxSize == 0 && Run(cfg, es, states)
    ensures BytesIdle(cfg, es, states)
  {
    forall i | 0 <= i < |es| && es[i].op.Set? ensures IdleAt(cfg, states[i], es[i]) {
      RunKeeps(cfg, es, states, i);
      RemoveKeeps(states[i], {FullKey(cfg, es[i].op.key)});
    }
  }

  // ---------------------------------------------------------------- LRU under a byte limit

  /** Names of different lengths. */
  function Name(i: nat): (s: string)
    ensures |s| == i
  {
    seq(i, _ => 'x')
  }

  lemma NamesDiffer(cfg: Config, i: nat, j: nat)
    requires i != j
    ensures FullKey(cfg, Name(i)) != FullKey(cfg, Name(j))
  {
    assert |cfg.prefix + Name(i)| != |cfg.prefix + Name(j)|;
  }

  function Blob(n: nat): (b: Bytes)
    ensures |b| == n
  {
    seq(n, _ => 0)
  }

  /** One byte under the first name, none under the next `j`. */
  function Fill(j: nat): seq<Event> {
    if j == 0 then [At(0, Set(Name(0), Blob(1)))] else Fill(j - 1) + [At(0, Set(Name(j), Blob(0)))]
  }

  function SlotOf(cfg: Config, i: nat): Slot { Slot(FullKey(cfg, Name(i)), if i == 0 then 1 else 0) }

  /** The slots of the names from `a` up to, not including, `b`. */
  function Slots(cfg: Config, a: nat, b: nat): (q: seq<Slot>)
    requires a <= b
    ensures |q| == b - a && forall i :: 0 <= i < |q| ==> q[i] == SlotOf(cfg, a + i)
  {
    seq(b - a, i requires 0 <= i < b - a => SlotOf(cfg, a + i))
  }

  lemma SlotsLack(cfg: Config, a: nat, b: nat, j: nat)
    requires a <= b && !(a <= j < b)
    ensures forall i :: 0 <= i < b - a ==> Slots(cfg, a, b)[i].key != FullKey(cfg, Name(j))
  {
    forall i: nat | i < b - a ensures Slots(cfg, a, b)[i].key != FullKey(cfg, Name(j)) {
      NamesDiffer(cfg, a + i, j);
    }
  }

  lemma {:induction false} SlotsSum(cfg: Config, a: nat, b: nat)
    requires a <= b
    ensures Sum(Slots(cfg, a, b)) == if a == 0 < b then 1 else 0
    decreases b - a
  {
    if a < b {
      SlotsSum(cfg, a + 1, b);
      assert Slots(cfg, a, b)[1..] == Slots(cfg, a + 1, b);
    }
  }

  lemma FirstPlays(cfg: Config)
    requires 0 < cfg.maxEntries && 1 <= cfg.maxSize
    ensures PlayAll(cfg, Fill(0)) == Slots(cfg, 0, 1)
  {
    var e := At(0, Set(Name(0), Blob(1)));
    PlaySnoc(cfg, [], e);
    assert [] + [e] == Fill(0);
    SetRoomy(cfg, [], SlotOf(cfg, 0), Name(0), Blob(1));
    assert [] + [SlotOf(cfg, 0)] == Slots(cfg, 0, 1);
  }

  lemma PushSlot(cfg: Config, j: nat)
    requires 1 <= j < cfg.maxEntries && 1 <= cfg.maxSize
    ensures Play(cfg, Slots(cfg, 0, j), Set(Name(j), Blob(0))) == Slots(cfg, 0, j + 1)
  {
    SlotsLack(cfg, 0, j, j);
    SlotsSum(cfg, 0, j);
    SetRoomy(cfg, Slots(cfg, 0, j), SlotOf(cfg, j), Name(j), Blob(0));
    assert Slots(cfg, 0, j) + [SlotOf(cfg, j)] == Slots(cfg, 0, j + 1);
  }

  lemma {:induction false} FillPlays(cfg: Config, j: nat)
    requires j < cfg.maxEntries && 1 <= cfg.maxSize
    ensures PlayAll(cfg, Fill(j)) == Slots(cfg, 0, j + 1)
  {
    if j == 0 {
      FirstPlays(cfg);
    } else {
      FillPlays(cfg, j - 1);
      PlaySnoc(cfg, Fill(j - 1), At(0, Set(Name(j), Blob(0))));
      PushSlot(cfg, j);
    }
  }

  lemma PlaySnoc(cfg: Config, es: seq<Event>, e: Event)
    ensures PlayAll(cfg, es + [e]) == Play(cfg, PlayAll(cfg, es), e.op)
  {
    assert (es + [e])[..|es|] == es;
  }

  /** `m` names more than fit are filled in, the first one is read, and a value of all the bytes is set. */
  function Press(m: nat, bytes: nat): seq<Event> {
    Fill(m) + [At(0, Get(Name(0), 0))] + [At(0, Set(Name(m + 1), Blob(bytes)))]
  }

  /** With room for `m` entries the last name pops the first one, which is then missed; the big value pops the next. */
  lemma SmallPlays(cfg: Config)
    requires cfg.maxEntries >= 2 && cfg.maxSize >= 1
    ensures var m := cfg.maxEntries;
      PlayAll(cfg, Press(m, cfg.maxSize)) == Slots(cfg, 2, m + 1) + [Slot(FullKey(cfg, Name(m + 1)), cfg.maxSize)]
  {
    var m := cfg.maxEntries;
    SmallFills(cfg);
    PlaySnoc(cfg, Fill(m), At(0, Get(Name(0), 0)));
    SlotsLack(cfg, 1, m + 1, 0);
    LackingNone(Slots(cfg, 1, m + 1), FullKey(cfg, Name(0)));
    PlaySnoc(cfg, Fill(m) + [At(0, Get(Name(0), 0))], At(0, Set(Name(m + 1), Blob(cfg.maxSize))));
    SmallPress(cfg);
  }

  lemma SmallFills(cfg: Config)
    requires cfg.maxEntries >= 2 && cfg.maxSize >= 1
    ensures PlayAll(cfg, Fill(cfg.maxEntries)) == Slots(cfg, 1, cfg.maxEntries + 1)
  {
    var m := cfg.maxEntries;
    FillPlays(cfg, m - 1);
    PlaySnoc(cfg, Fill(m - 1), At(0, Set(Name(m), Blob(0))));
    PopFront(cfg, 0, m, m, Blob(0));
    assert SlotOf(cfg, m) == Slot(FullKey(cfg, Name(m)), 0);
    assert Slots(cfg, 1, m) + [SlotOf(cfg, m)] == Slots(cfg, 1, m + 1);
  }

  lemma SmallPress(cfg: Config)
    requires cfg.maxEntries >= 2
    ensures var m := cfg.maxEntries;
      Play(cfg, Slots(cfg, 1, m + 1), Set(Name(m + 1), Blob(cfg.maxSize)))
      == Slots(cfg, 2, m + 1) + [Slot(FullKey(cfg, Name(m + 1)), cfg.maxSize)]
  {
    PopFront(cfg, 1, cfg.maxEntries + 1, cfg.maxEntries + 1, Blob(cfg.maxSize));
  }

  /** A full queue whose tail has no bytes loses just its front to a new name. */
  lemma PopFront(cfg: Config, a: nat, b: nat, j: nat, value: Bytes)
    requires a + 2 <= b == a + cfg.maxEntries && j >= b && |value| <= cfg.maxSize
    ensures Play(cfg, Slots(cfg, a, b), Set(Name(j), value))
      == Slots(cfg, a + 1, b) + [Slot(FullKey(cfg, Name(j)), |value|)]
  {
    var x := Slot(FullKey(cfg, Name(j)), |value|);
    SlotsLack(cfg, a, b, j);
    SlotsLack(cfg, a + 1, b, j);
    SlotsSum(cfg, a + 1, b);
    SetPops(cfg, Slots(cfg, a, b), x, Name(j), value);
    assert Slots(cfg, a, b)[1..] == Slots(cfg, a + 1, b);
    SetRoomy(cfg, Slots(cfg, a + 1, b), x, Name(j), value);
  }

  /** With more room the read moves the first name to the back, and the big value pops everything. */
  lemma LargePlays(cfg: Config, m: nat)
    requires 1 <= m < cfg.maxEntries && cfg.maxSize >= 1
    ensures PlayAll(cfg, Press(m, cfg.maxSize)) == [Slot(FullKey(cfg, Name(m + 1)), cfg.maxSize)]
  {
    FillPlays(cfg, m);
    PlaySnoc(cfg, Fill(m), At(0, Get(Name(0), 0)));
    ReadMoves(cfg, m);
    PlaySnoc(cfg, Fill(m) + [At(0, Get(Name(0), 0))], At(0, Set(Name(m + 1), Blob(cfg.maxSize))));
    LargePress(cfg, m);
  }

  lemma ReadMoves(cfg: Config, m: nat)
    ensures Play(cfg, Slots(cfg, 0, m + 1), Get(Name(0), 0)) == Slots(cfg, 1, m + 1) + [SlotOf(cfg, 0)]
  {
    assert Slots(cfg, 0, m + 1)[1..] == Slots(cfg, 1, m + 1);
    SlotsLack(cfg, 1, m + 1, 0);
    LackingNone(Slots(cfg, 1, m + 1), FullKey(cfg, Name(0)));
  }

  lemma LargePress(cfg: Config, m: nat)
    requires cfg.maxSize >= 1
    ensures Play(cfg, Slots(cfg, 1, m + 1) + [SlotOf(cfg, 0)], Set(Name(m + 1), Blob(cfg.maxSize)))
      == [Slot(FullKey(cfg, Name(m + 1)), cfg.maxSize)]
  {
    var q := Slots(cfg, 1, m + 1) + [SlotOf(cfg, 0)];
    SlotsLack(cfg, 1, m + 1, m + 1);
    NamesDiffer(cfg, 0, m + 1);
    LackingNone(q, FullKey(cfg, Name(m + 1)));
    ShrinksAll(cfg, Slots(cfg, 1, m + 1), SlotOf(cfg, 0));
  }

  /** While bytes are stored at the back, all the bytes are not to be had. */
  lemma {:induction false} ShrinksAll(cfg: Config, q: seq<Slot>, last: Slot)
    requires last.size >= 1
    ensures Shrunk(cfg, q + [last], cfg.maxSize) == [] && Sum(q + [last]) >= 1
  {
    if q == [] {
      assert [last][1..] == [] && q + [last] == [last];
    } else {
      ShrinksAll(cfg, q[1..], last);
      assert (q + [last])[1..] == q[1..] + [last];
    }
  }

  lemma {:induction false} FillLively(j: nat)
    ensures forall e :: e in Fill(j) ==> e.now == 0 && e.op.Set?
  {
    if j > 0 { FillLively(j - 1); }
  }

  /** An LRU run of the trace, and the keys it ends with. */
  lemma PressRuns(cfg: Config, m: nat) returns (states: seq<Store>)
    requires cfg.strategy.Lru?
    ensures var es := Press(m, cfg.maxSize);
      && Run(cfg, es, states)
      && forall k :: k in states[|es|].entries <==> k in KeysOf(PlayAll(cfg, es))
  {
    FillLively(m);
    assert Lively(cfg, Press(m, cfg.maxSize), 0);
    states := LruPlays(cfg, Press(m, cfg.maxSize), 0);
  }

  /**
   * With 2 <= m < n and any byte limit but zero, inclusion is lost under LRU: on this trace the
   * small cache keeps a key the large one evicts.
   */
  lemma LruLosesInclusion(small: Config, large: Config)
    returns (es: seq<Event>, ss: seq<Store>, ls: seq<Store>, lost: Key)
    requires large.strategy.Lru? && Alike(small, large) && large.maxSize >= 1
    requires 2 <= small.maxEntries < large.maxEntries
    ensures Run(small, es, ss) && Run(large, es, ls) && Clocked(es)
    ensures lost in ss[|es|].entries && lost !in ls[|es|].entries
  {
    var m := small.maxEntries;
    es, lost := Press(m, large.maxSize), FullKey(large, Name(m));
    PressClocked(m, large.maxSize);
    ss := PressKeeps(small);
    ls := PressPops(large, m);
    assert FullKey(small, Name(m)) == lost;
  }

  lemma PressClocked(m: nat, bytes: nat)
    ensures Clocked(Press(m, bytes))
  {
    FillLively(m);
  }

  lemma PressKeeps(cfg: Config) returns (states: seq<Store>)
    requires cfg.strategy.Lru? && cfg.maxEntries >= 2 && cfg.maxSize >= 1
    ensures var es := Press(cfg.maxEntries, cfg.maxSize);
      Run(cfg, es, states) && FullKey(cfg, Name(cfg.maxEntries)) in states[|es|].entries
  {
    var m := cfg.maxEntries;
    states := PressRuns(cfg, m);
    SmallPlays(cfg);
    LastNamed(cfg, m, Slot(FullKey(cfg, Name(m + 1)), cfg.maxSize));
  }

  lemma LastNamed(cfg: Config, m: nat, x: Slot)
    requires m >= 2
    ensures FullKey(cfg, Name(m)) in KeysOf(Slots(cfg, 2, m + 1) + [x])
  {
    assert KeysOf(Slots(cfg, 2, m + 1) + [x])[m - 2] == FullKey(cfg, Name(m));
  }

  lemma PressPops(cfg: Config, m: nat) returns (states: seq<Store>)
    requires cfg.strategy.Lru? && 1 <= m < cfg.maxEntries && cfg.maxSize >= 1
    ensures var es := Press(m, cfg.maxSize);
      Run(cfg, es, states) && FullKey(cfg, Name(m)) !in states[|es|].entries
  {
    states := PressRuns(cfg, m);
    LargePlays(cfg, m);
    NamesDiffer(cfg, m, m + 1);
    assert KeysOf([Slot(FullKey(cfg, Name(m + 1)), cfg.maxSize)]) == [FullKey(cfg, Name(m + 1))];
  }

  // ---------------------------------------------------------------- LFU ties

  /** Empty values under the first `j` names. */
  function Blanks(j: nat): (es: seq<Event>)
    ensures |es| == j
  {
    if j == 0 then [] else Blanks(j - 1) + [At(0, Set(Name(j - 1), Blob(0)))]
  }

  ghost predicate Named(cfg: Config, k: Key, j: nat) { exists i: nat :: i < j && k == FullKey(cfg, Name(i)) }

  /** As many of the first `j` names as fit, the last one among them, none ever read. */
  ghost predicate Blank(cfg: Config, s: Store, j: nat) {
    && Linked(s) && Used(s) == 0
    && |s.entries| == Min(j, cfg.maxEntries)
    && Unread(cfg, s.entries, j)
    && (j > 0 ==> FullKey(cfg, Name(j - 1)) in s.entries)
  }

  lemma BlankLacks(cfg: Config, s: Store, j: nat)
    requires Blank(cfg, s, j)
    ensures FullKey(cfg, Name(j)) !in s.entries
  {
    if FullKey(cfg, Name(j)) in s.entries {
      var i: nat :| i < j && FullKey(cfg, Name(j)) == FullKey(cfg, Name(i));
      NamesDiffer(cfg, j, i);
    }
  }

  /** Entries never read, under some of the first `j` names. */
  ghost predicate Unread(cfg: Config, e: map<Key, Entry>, j: nat) {
    forall k :: k in e ==> e[k].accessCount == 0 && Named(cfg, k, j)
  }

  lemma PutUnread(cfg: Config, u: Store, j: nat)
    requires Unread(cfg, u.entries, j)
    ensures Unread(cfg, Put(cfg, u, Name(j), Blob(0), 0).entries, j + 1)
  {
  }

  lemma PutBlank(cfg: Config, u: Store, j: nat)
    requires Linked(u) && Used(u) == 0 && |u.entries| + 1 == Min(j + 1, cfg.maxEntries)
    requires Unread(cfg, u.entries, j) && FullKey(cfg, Name(j)) !in u.entries
    ensures var t := Put(cfg, u, Name(j), Blob(0), 0);
      Fits(cfg, u, 0) && Blank(cfg, t, j + 1) && t.entries.Keys == u.entries.Keys + {FullKey(cfg, Name(j))}
  {
    PutKeeps(cfg, u, Name(j), Blob(0), 0);
    PutUsesNone(cfg, u, Name(j));
    PutUnread(cfg, u, j);
  }

  lemma PutUsesNone(cfg: Config, u: Store, key: string)
    requires Linked(u) && FullKey(cfg, key) !in u.entries
    ensures var t := Put(cfg, u, key, Blob(0), 0);
      && Used(t) == Used(u) && t.entries.Keys == u.entries.Keys + {FullKey(cfg, key)}
      && |t.entries| == |u.entries| + 1
  {
    var t := Put(cfg, u, key, Blob(0), 0);
    assert t.entries.Keys == u.entries.Keys + {FullKey(cfg, key)};
    TotalAppend(t.entries, u.access, FullKey(cfg, key));
    TotalFrame(u.entries, t.entries, u.access);
  }

  /** While there is room the next name is added. */
  lemma AddBlank(cfg: Config, s: Store, j: nat) returns (t: Store)
    requires Blank(cfg, s, j) && j < cfg.maxEntries
    ensures Step(cfg, s, At(0, Set(Name(j), Blob(0))), t) && Blank(cfg, t, j + 1)
    ensures t.entries.Keys == s.entries.Keys + {FullKey(cfg, Name(j))}
  {
    BlankLacks(cfg, s, j);
    PutBlank(cfg, s, j);
    SetByChain(cfg, s, Name(j), Blob(0), 0, []);
    t := Put(cfg, s, Name(j), Blob(0), 0);
  }

  /** Then any entry may be the victim: all of them tie. */
  lemma TieBlank(cfg: Config, s: Store, j: nat, v: Key) returns (t: Store)
    requires cfg.strategy.Lfu? && Blank(cfg, s, j) && j >= cfg.maxEntries >= 1 && v in s.entries
    ensures Step(cfg, s, At(0, Set(Name(j), Blob(0))), t) && Blank(cfg, t, j + 1)
    ensures t.entries.Keys == s.entries.Keys - {v} + {FullKey(cfg, Name(j))}
  {
    RemoveKeeps(s, {v});
    RemoveOne(s, v);
    var u := Evict(s, v);
    assert u.access == Remove(s, {v}).access && Used(u) == Used(Remove(s, {v}));
    BlankLacks(cfg, s, j);
    PutBlank(cfg, u, j);
    TieChain(cfg, s, v);
    SetByChain(cfg, s, Name(j), Blob(0), 0, [v]);
    t := Put(cfg, u, Name(j), Blob(0), 0);
  }

  lemma TieChain(cfg: Config, s: Store, v: Key)
    requires cfg.strategy.Lfu? && v in s.entries && |s.entries| >= cfg.maxEntries
    requires forall k :: k in s.entries ==> s.entries[k].accessCount == 0
    ensures EvictChain(cfg, s, 0, [v]) && EvictAll(s, [v]) == Evict(s, v)
  {
    assert [v][..0] == [];
    assert EvictAll(s, []) == s;
    assert EvictChain(cfg, s, 0, []);
  }

  /** With room for two or more a run need not evict the name set last. */
  lemma {:induction false} BlankRun(cfg: Config, j: nat) returns (states: seq<Store>)
    requires cfg.strategy.Lfu? && cfg.maxEntries >= 2
    ensures Run(cfg, Blanks(j), states) && Blank(cfg, states[j], j)
    ensures j >= 2 ==> FullKey(cfg, Name(j - 2)) in states[j].entries
  {
    if j == 0 {
      states := [EMPTY];
    } else {
      states := BlankRun(cfg, j - 1);
      states := BlankOn(cfg, j - 1, states);
    }
  }

  lemma BlankOn(cfg: Config, j: nat, states: seq<Store>) returns (more: seq<Store>)
    requires cfg.strategy.Lfu? && cfg.maxEntries >= 2
    requires Run(cfg, Blanks(j), states) && Blank(cfg, states[j], j)
    ensures Run(cfg, Blanks(j + 1), more) && Blank(cfg, more[j + 1], j + 1)
    ensures j > 0 ==> FullKey(cfg, Name(j - 1)) in more[j + 1].entries
  {
    var t := NextBlank(cfg, states[j], j);
    RunNext(cfg, Blanks(j), states, At(0, Set(Name(j), Blob(0))), t);
    more := states + [t];
  }

  lemma NextBlank(cfg: Config, s: Store, j: nat) returns (t: Store)
    requires cfg.strategy.Lfu? && cfg.maxEntries >= 2 && Blank(cfg, s, j)
    ensures Step(cfg, s, At(0, Set(Name(j), Blob(0))), t) && Blank(cfg, t, j + 1)
    ensures j > 0 ==> FullKey(cfg, Name(j - 1)) in t.entries
  {
    if j < cfg.maxEntries {
      t := AddBlank(cfg, s, j);
    } else {
      var last := FullKey(cfg, Name(j - 1));
      var v := AnotherKey(s.entries.Keys, last);
      t := TieBlank(cfg, s, j, v);
    }
    assert j > 0 ==> FullKey(cfg, Name(j - 1)) in t.entries.Keys;
  }

  lemma AnotherKey(ks: set<Key>, k: Key) returns (v: Key)
    requires |ks| >= 2 && k in ks
    ensures v in ks && v != k
  {
    var rest := ks - {k};
    assert |rest| == |ks| - 1;
    v :| v in rest;
  }

  /** With 2 <= m <= n inclusion is lost under LFU: the ties can be broken differently in the two caches. */
  lemma LfuLosesInclusion(small: Config, large: Config)
    returns (es: seq<Event>, ss: seq<Store>, ls: seq<Store>, lost: Key)
    requires large.strategy.Lfu? && Alike(small, large) && 2 <= small.maxEntries <= large.maxEntries
    ensures Run(small, es, ss) && Run(large, es, ls) && Clocked(es)
    ensures lost in ss[|es|].entries && lost !in ls[|es|].entries
  {
    var n := large.maxEntries;
    es, lost := Blanks(n + 1), FullKey(large, Name(n - 1));
    BlanksClocked(n + 1);
    ss := SparingRun(small, n);
    ls := TiedRun(large);
    assert FullKey(small, Name(n - 1)) == lost;
  }

  lemma SparingRun(cfg: Config, n: nat) returns (states: seq<Store>)
    requires cfg.strategy.Lfu? && cfg.maxEntries >= 2 && n >= 1
    ensures Run(cfg, Blanks(n + 1), states) && FullKey(cfg, Name(n - 1)) in states[n + 1].entries
  {
    states := BlankRun(cfg, n + 1);
  }

  /** A run that evicts the name set last as soon as something must go. */
  lemma TiedRun(cfg: Config) returns (states: seq<Store>)
    requires cfg.strategy.Lfu? && cfg.maxEntries >= 2
    ensures var n := cfg.maxEntries;
      Run(cfg, Blanks(n + 1), states) && FullKey(cfg, Name(n - 1)) !in states[n + 1].entries
  {
    var n := cfg.maxEntries;
    states := BlankRun(cfg, n);
    var t := TieBlank(cfg, states[n], n, FullKey(cfg, Name(n - 1)));
    NamesDiffer(cfg, n - 1, n);
    assert FullKey(cfg, Name(n - 1)) !in t.entries.Keys;
    RunNext(cfg, Blanks(n), states, At(0, Set(Name(n), Blob(0))), t);
    states := states + [t];
  }

  lemma {:induction false} BlanksAtZero(j: nat)
    ensures forall e :: e in Blanks(j) ==> e.now == 0 && e.op.Set?
  {
    if j > 0 { BlanksAtZero(j - 1); }
  }

  lemma BlanksClocked(j: nat)
    ensures Clocked(Blanks(j))
  {
    BlanksAtZero(j);
  }

  // ---------------------------------------------------------------- the exact condition

  /** What a caller can check before any run. */
  predicate Compatible(small: Config, large: Config) {
    Limit(small) == 1 ||
    match large.strategy
    case Fifo => true
    case Lru => Limit(small) == Limit(large) || large.maxSize == 0
    case Lfu => false
  }

  lemma CompatibleContained(small: Config, large: Config, es: seq<Event>, ss: seq<Store>, ls: seq<Store>, i: nat)
    requires Alike(small, large) && Limit(small) <= Limit(large) && Compatible(small, large)
    requires Run(small, es, ss) && Run(large, es, ls) && i <= |es|
    ensures Contained(ss[i], ls[i])
  {
    if Limit(small) == 1 {
      OneEntryInclusion(small, large, es, ss, ls, i);
    } else if large.strategy.Fifo? {
      FifoInclusion(small, large, es, ss, ls, i);
    } else if Limit(small) == Limit(large) {
      SameRun(small, large, es, ss, ls, i);
    } else {
      NoBytesIdle(large, es, ls);
      LruInclusion(small, large, es, ss, ls, i);
    }
  }

  lemma Loses(small: Config, large: Config, es: seq<Event>, ss: seq<Store>, ls: seq<Store>, lost: Key)
    requires Run(small, es, ss) && Run(large, es, ls)
    requires lost in ss[|es|].entries && lost !in ls[|es|].entries
    ensures !Inclusive(small, large)
  {
    assert !Contained(ss[|es|], ls[|es|]);
  }

  /**
   * The smaller cache is contained in the larger one in every pair of runs if and only if it has
   * room for one entry, or the strategy is FIFO, or it is LRU and the capacities are equal or no
   * byte is ever stored.
   */
  lemma InclusionIff(small: Config, large: Config)
    requires Alike(small, large) && Limit(small) <= Limit(large)
    ensures Inclusive(small, large) <==> Compatible(small, large)
  {
    if Compatible(small, large) {
      forall es: seq<Event>, ss: seq<Store>, ls: seq<Store>, i: nat
        | Run(small, es, ss) && Run(large, es, ls) && i <= |es|
        ensures Contained(ss[i], ls[i])
      {
        CompatibleContained(small, large, es, ss, ls, i);
      }
    } else if large.strategy.Lru? {
      var es, ss, ls, lost := LruLosesInclusion(small, large);
      Loses(small, large, es, ss, ls, lost);
    } else {
      var es, ss, ls, lost := LfuLosesInclusion(small, large);
      Loses(small, large, es, ss, ls, lost);
    }
  }
}
