/** LRU inclusion while the byte limit is idle: the small queue is a subsequence of the large one. */
module CacheLruInclusion {
  import opened Base
  import opened KeyQueues
  import opened Cache
  import opened CacheInvariants
  import opened CacheInclusion

  /** The small access queue is a subsequence of the large one, which is not much longer. */
  ghost predicate Nested(small: Store, large: Store, gap: nat) {
    Subseq(small.access, large.access) && |large.access| - |small.access| <= gap
  }

  /** Removing one set of keys from both caches, or a larger one from the large cache only where the small has none. */
  lemma RemoveNested(s: Store, l: Store, gap: nat, ks: set<Key>, ls: set<Key>)
    requires Linked(s) && Nested(s, l, gap)
    requires forall k :: k in s.entries ==> (k in ks <==> k in ls)
    ensures Nested(Remove(s, ks), Remove(l, ls), gap)
  {
    WithoutSame(s.access, ks, ls);
    SubseqWithout(s.access, l.access, ls);
    SubseqGap(s.access, l.access, ls);
  }

  lemma {:induction false} SubseqTotal(e: map<Key, Entry>, f: map<Key, Entry>, a: seq<Key>, b: seq<Key>)
    requires Subseq(a, b)
    requires forall k :: k in a ==> Weight(e, k) == Weight(f, k)
    ensures Total(e, a) <= Total(f, b)
    decreases b
  {
    if a != [] {
      assert a[0] in a;
      if a[0] == b[0] && Subseq(a[1..], b[1..]) {
        forall k | k in a[1..] ensures Weight(e, k) == Weight(f, k) { assert k in a; }
        SubseqTotal(e, f, a[1..], b[1..]);
      } else {
        SubseqTotal(e, f, a, b[1..]);
      }
    }
  }

  /** How many keys the count limit forces out of a queue of `n` keys before an insertion. */
  function Overflow(n: nat, limit: nat): (o: nat)
    requires limit >= 1
    ensures o <= n
  {
    if n >= limit then n - limit + 1 else 0
  }

  /** What is left of the access queue without a key. */
  lemma Measured(cfg: Config, s: Store, k: Key)
    requires WellFormed(cfg, s)
    ensures var r, q := Remove(s, {k}), Without(s.access, {k});
      Linked(r) && Distinct(q) && |q| <= Limit(cfg) && Total(s.entries, q) == Used(r)
  {
    var r := Remove(s, {k});
    RemoveKeeps(s, {k});
    LinkedSizes(r);
    TotalFrame(s.entries, r.entries, r.access);
  }

  /** The access queue without a key, after popping its overflow. */
  function Popped(cfg: Config, s: Store, k: Key): seq<Key> {
    var q := Without(s.access, {k});
    q[Overflow(|q|, Limit(cfg))..]
  }

  /** With the byte limit idle an LRU `set` pops exactly the overflow from the front. */
  lemma LruSet(cfg: Config, s: Store, e: Event, t: Store)
    requires WellFormed(cfg, s) && cfg.strategy.Lru?
    requires e.op.Set? && |e.op.value| <= cfg.maxSize && Step(cfg, s, e, t)
    requires Used(Remove(s, {FullKey(cfg, e.op.key)})) + |e.op.value| <= cfg.maxSize
    ensures t.access == Popped(cfg, s, FullKey(cfg, e.op.key)) + [FullKey(cfg, e.op.key)]
  {
    var k, need := FullKey(cfg, e.op.key), |e.op.value|;
    var n := SetPopsFewest(cfg, s, e, t);
    Measured(cfg, s, k);
    PopsOverflow(cfg, s, k, need, n);
  }

  lemma PopsOverflow(cfg: Config, s: Store, k: Key, need: nat, n: nat)
    requires cfg.strategy.Lru? && Pops(cfg, s, k, need, n)
    requires Total(s.entries, Without(s.access, {k})) + need <= cfg.maxSize
    ensures n == Overflow(|Without(s.access, {k})|, Limit(cfg))
  {
    var q := Without(s.access, {k});
    CountLimitOnly(cfg, s.entries, q, need, n);
    CountLimitOnly(cfg, s.entries, q, need, Overflow(|q|, Limit(cfg)));
  }

  /** Without byte pressure only the count limit decides whether a popped prefix suffices. */
  lemma CountLimitOnly(cfg: Config, e: map<Key, Entry>, q: seq<Key>, need: nat, n: nat)
    requires n <= |q| && Total(e, q) + need <= cfg.maxSize
    ensures PrefixFits(cfg, e, q, need, n) <==> (|q| - n < cfg.maxEntries || n == |q|)
  {
    DropTotal(e, q, n);
  }

  lemma {:induction false} DropTotal(e: map<Key, Entry>, q: seq<Key>, n: nat)
    requires n <= |q|
    ensures Total(e, q[n..]) <= Total(e, q)
  {
    if n > 0 {
      DropTotal(e, q[1..], n - 1);
      assert q[1..][n - 1..] == q[n..];
    }
  }

  /** Two queues after popping their overflow: the shorter is still a subsequence of the longer. */
  lemma PopOverflow(a: seq<Key>, b: seq<Key>, m: nat, n: nat)
    requires Subseq(a, b) && Distinct(a) && Distinct(b)
    requires 1 <= m <= n && |a| <= m && |b| <= n && |b| - |a| <= n - m
    ensures Overflow(|a|, m) <= |a| && Overflow(|b|, n) <= |b|
    ensures Subseq(a[Overflow(|a|, m)..], b[Overflow(|b|, n)..])
    ensures |b[Overflow(|b|, n)..]| - |a[Overflow(|a|, m)..]| <= n - m
  {
    SubseqMembers(a, b);
    if |b| == n {
      PopBoth(a, b);
      assert a[1..] == a[Overflow(|a|, m)..] && b[1..] == b[Overflow(|b|, n)..];
    } else {
      assert b[0..] == b && a[0..] == a;
      if |a| == m {
        SubseqTail(a, b);
      }
    }
  }

  lemma PopBoth(a: seq<Key>, b: seq<Key>)
    requires Subseq(a, b) && Distinct(a) && Distinct(b) && a != [] && b != []
    ensures Subseq(a[1..], b[1..])
  {
    SubseqPop(a, b);
    if b[0] in a {
      SubseqFront(a, b);
      WithoutFront(a);
    } else {
      WithoutAbsent(a, {b[0]});
      SubseqTail(a, b[1..]);
    }
  }

  /** Both queues without a key, after popping their overflow. */
  lemma PoppedQueues(small: Config, large: Config, s: Store, l: Store, k: Key)
    requires Limit(small) <= Limit(large) && Alike(small, large)
    requires WellFormed(small, s) && WellFormed(large, l)
    requires Nested(s, l, Limit(large) - Limit(small))
    ensures Subseq(Popped(small, s, k), Popped(large, l, k))
    ensures |Popped(large, l, k)| - |Popped(small, s, k)| <= Limit(large) - Limit(small)
  {
    RemoveNested(s, l, Limit(large) - Limit(small), {k}, {k});
    Measured(small, s, k);
    Measured(large, l, k);
    PopOverflow(Without(s.access, {k}), Without(l.access, {k}), Limit(small), Limit(large));
  }

  /** Without a key the smaller cache uses no more bytes than the larger one. */
  lemma UsesLess(s: Store, l: Store, k: Key)
    requires Subseq(s.access, l.access) && Linked(s) && Contained(s, l)
    ensures Used(Remove(s, {k})) <= Used(Remove(l, {k}))
  {
    var a, b := Remove(s, {k}), Remove(l, {k});
    SubseqWithout(s.access, l.access, {k});
    SubseqTotal(a.entries, b.entries, a.access, b.access);
  }

  /** The access queues after a `set` on both caches. */
  lemma SetNested(small: Config, large: Config, s: Store, l: Store, e: Event, s': Store, l': Store)
    requires large.strategy.Lru? && Limit(small) <= Limit(large) && Alike(small, large)
    requires WellFormed(small, s) && WellFormed(large, l)
    requires Nested(s, l, Limit(large) - Limit(small)) && Contained(s, l)
    requires e.op.Set? && Step(small, s, e, s') && Step(large, l, e, l')
    requires IdleAt(large, l, e)
    ensures Nested(s', l', Limit(large) - Limit(small))
  {
    var k := FullKey(large, e.op.key);
    if |e.op.value| <= large.maxSize {
      UsesLess(s, l, k);
      PoppedQueues(small, large, s, l, k);
      LruSet(small, s, e, s');
      LruSet(large, l, e, l');
      SubseqAppend(Popped(small, s, k), Popped(large, l, k), k);
    }
  }

  lemma {:induction false} SubseqExtend(a: seq<Key>, b: seq<Key>, k: Key)
    requires Subseq(a, b)
    ensures Subseq(a, b + [k])
    decreases b
  {
    if a != [] {
      assert (b + [k])[1..] == b[1..] + [k];
      if a[0] == b[0] && Subseq(a[1..], b[1..]) {
        SubseqExtend(a[1..], b[1..], k);
      } else {
        SubseqExtend(a, b[1..], k);
      }
    }
  }

  lemma TouchSize(s: Store, k: Key, at: int)
    requires Linked(s) && k in s.entries
    ensures |Touch(s, k, at).access| == |s.access|
  {
    TouchKeeps(s, k, at);
    LinkedSizes(s);
    LinkedSizes(Touch(s, k, at));
  }

  /** A key that is used moves to the back of each queue that has it. */
  lemma TouchNested(s: Store, l: Store, k: Key, at: int, gap: nat)
    requires Linked(s) && Linked(l) && Nested(s, l, gap) && k in l.entries
    ensures Nested(if k in s.entries then Touch(s, k, at) else s, Touch(l, k, at), gap)
  {
    SubseqWithout(s.access, l.access, {k});
    TouchSize(l, k, at);
    if k in s.entries {
      SubseqAppend(Without(s.access, {k}), Without(l.access, {k}), k);
      TouchSize(s, k, at);
    } else {
      WithoutAbsent(s.access, {k});
      SubseqExtend(s.access, Without(l.access, {k}), k);
    }
  }

  lemma GetNested(small: Config, large: Config, s: Store, l: Store, e: Event, s': Store, l': Store, gap: nat)
    requires Alike(small, large) && Linked(s) && Linked(l) && Nested(s, l, gap) && Contained(s, l)
    requires e.op.Get? && Step(small, s, e, s') && Step(large, l, e, l')
    ensures Nested(s', l', gap)
  {
    var k := FullKey(large, e.op.key);
    if k in l.entries {
      if Expired(l.entries[k], e.now) {
        RemoveNested(s, l, gap, {k}, {k});
        if k !in s.entries { RemoveAbsent(s, k); }
      } else {
        TouchNested(s, l, k, End(e), gap);
      }
    }
  }

  lemma RemovalNested(small: Config, large: Config, s: Store, l: Store, e: Event, s': Store, l': Store, gap: nat)
    requires Alike(small, large) && Linked(s) && Nested(s, l, gap) && Contained(s, l)
    requires !e.op.Set? && !e.op.Get? && Step(small, s, e, s') && Step(large, l, e, l')
    ensures Nested(s', l', gap)
  {
    if !e.op.Clear? {
      DroppedAgree(small, large, s, l, e);
      RemoveNested(s, l, gap, Dropped(small, s, e), Dropped(large, l, e));
    }
  }

  /** What the small cache holds, the large one holds identically and in the same order. */
  ghost predicate Included(small: Store, large: Store, gap: nat) {
    Nested(small, large, gap) && Contained(small, large)
  }

  lemma SetIncluded(small: Config, large: Config, s: Store, l: Store, e: Event, s': Store, l': Store)
    requires large.strategy.Lru? && Limit(small) <= Limit(large) && Alike(small, large)
    requires WellFormed(small, s) && WellFormed(large, l) && Linked(s') && Linked(l')
    requires Included(s, l, Limit(large) - Limit(small))
    requires e.op.Set? && Step(small, s, e, s') && Step(large, l, e, l')
    requires IdleAt(large, l, e)
    ensures Included(s', l', Limit(large) - Limit(small))
  {
    SetNested(small, large, s, l, e, s', l');
    SubseqMembers(s'.access, l'.access);
    SetContained(small, large, s, l, e, s', l');
  }

  /** Every step but a `set` keeps the inclusion. */
  lemma OtherIncluded(small: Config, large: Config, s: Store, l: Store, e: Event, s': Store, l': Store, gap: nat)
    requires Alike(small, large) && Linked(s) && Linked(l) && Included(s, l, gap)
    requires !e.op.Set? && Step(small, s, e, s') && Step(large, l, e, l')
    ensures Included(s', l', gap)
  {
    OtherContained(small, large, s, l, e, s', l');
    if e.op.Get? {
      GetNested(small, large, s, l, e, s', l', gap);
    } else {
      RemovalNested(small, large, s, l, e, s', l', gap);
    }
  }

  lemma StepIncluded(small: Config, large: Config, s: Store, l: Store, e: Event, s': Store, l': Store)
    requires large.strategy.Lru? && Limit(small) <= Limit(large) && Alike(small, large)
    requires WellFormed(small, s) && WellFormed(large, l) && Linked(s') && Linked(l')
    requires Included(s, l, Limit(large) - Limit(small))
    requires Step(small, s, e, s') && Step(large, l, e, l')
    requires IdleAt(large, l, e)
    ensures Included(s', l', Limit(large) - Limit(small))
  {
    if e.op.Set? {
      SetIncluded(small, large, s, l, e, s', l');
    } else {
      OtherIncluded(small, large, s, l, e, s', l', Limit(large) - Limit(small));
    }
  }

  lemma IncludedNext(small: Config, large: Config, es: seq<Event>, ss: seq<Store>, ls: seq<Store>, i: nat)
    requires large.strategy.Lru? && Limit(small) <= Limit(large) && Alike(small, large)
    requires Run(small, es, ss) && Run(large, es, ls) && i < |es| && BytesIdle(large, es, ls)
    requires Included(ss[i], ls[i], Limit(large) - Limit(small))
    ensures Included(ss[i + 1], ls[i + 1], Limit(large) - Limit(small))
  {
    RunStep(small, es, ss, i);
    RunStep(large, es, ls, i);
    StepIncluded(small, large, ss[i], ls[i], es[i], ss[i + 1], ls[i + 1]);
  }

  /**
   * Two LRU caches that differ only in capacity, fed the same timed events while the byte limit is
   * idle: at every moment the small one is contained in the large one, entry for entry and in the
   * same order.
   */
  lemma {:induction false} LruInclusion(small: Config, large: Config, es: seq<Event>,
                                        ss: seq<Store>, ls: seq<Store>, i: nat)
    requires large.strategy.Lru? && Limit(small) <= Limit(large) && Alike(small, large)
    requires Run(small, es, ss) && Run(large, es, ls) && i <= |es|
    requires BytesIdle(large, es, ls)
    ensures Included(ss[i], ls[i], Limit(large) - Limit(small))
  {
    if i > 0 {
      LruInclusion(small, large, es, ss, ls, i - 1);
      IncludedNext(small, large, es, ss, ls, i - 1);
    }
  }
}
