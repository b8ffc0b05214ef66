/** Duplicate-free queues of cache keys: removal, subsequences, and their cardinality. */
module KeyQueues {

  /** A full cache key, the configured prefix included. */
  datatype Key = Key(text: string)

  /** No key occurs twice. */
  ghost predicate Distinct(q: seq<Key>) {
    q == [] || (q[0] !in q[1..] && Distinct(q[1..]))
  }

  lemma {:induction false} DistinctAppend(q: seq<Key>, k: Key)
    requires Distinct(q) && k !in q
    ensures Distinct(q + [k])
  {
    if q != [] {
      DistinctAppend(q[1..], k);
      assert (q + [k])[1..] == q[1..] + [k];
    }
  }

  /** The queue left by retaining only the keys outside `ks`. */
  function Without(q: seq<Key>, ks: set<Key>): (r: seq<Key>)
    ensures forall k :: k in r <==> k in q && k !in ks
    ensures |r| <= |q|
  {
    if q == [] then []
    else if q[0] in ks then Without(q[1..], ks)
    else [q[0]] + Without(q[1..], ks)
  }

  /** `a` can be obtained from `b` by deleting elements, keeping the order. */
  ghost predicate Subseq(a: seq<Key>, b: seq<Key>)
    decreases b
  {
    || a == []
    || (b != [] && ((a[0] == b[0] && Subseq(a[1..], b[1..])) || Subseq(a, b[1..])))
  }

  lemma {:induction false} WithoutDistinct(q: seq<Key>, ks: set<Key>)
    requires Distinct(q)
    ensures Distinct(Without(q, ks))
  {
    if q != [] {
      WithoutDistinct(q[1..], ks);
      var r := Without(q[1..], ks);
      assert ([q[0]] + r)[1..] == r;
    }
  }

  lemma {:induction false} WithoutAbsent(q: seq<Key>, ks: set<Key>)
    requires forall k :: k in q ==> k !in ks
    ensures Without(q, ks) == q
  {
    if q != [] {
      assert q[0] in q;
      forall k | k in q[1..] ensures k !in ks { assert k in q; }
      WithoutAbsent(q[1..], ks);
      assert q == [q[0]] + q[1..];
    }
  }

  /** Only the part of `ks` that meets the queue matters. */
  lemma {:induction false} WithoutSame(q: seq<Key>, ks: set<Key>, js: set<Key>)
    requires forall k :: k in q ==> (k in ks <==> k in js)
    ensures Without(q, ks) == Without(q, js)
  {
    if q != [] {
      assert q[0] in q;
      forall k | k in q[1..] ensures k in ks <==> k in js { assert k in q; }
      WithoutSame(q[1..], ks, js);
    }
  }

  lemma {:induction false} WithoutTwice(q: seq<Key>, ks: set<Key>, js: set<Key>)
    ensures Without(Without(q, ks), js) == Without(q, ks + js)
  {
    if q != [] {
      WithoutTwice(q[1..], ks, js);
      var r := Without(q[1..], ks);
      if q[0] !in ks {
        assert ([q[0]] + r)[1..] == r;
      }
    }
  }

  /** Removing the front of a duplicate-free queue pops it. */
  lemma {:induction false} WithoutFront(q: seq<Key>)
    requires q != [] && Distinct(q)
    ensures Without(q, {q[0]}) == q[1..]
  {
    WithoutAbsent(q[1..], {q[0]});
  }

  lemma {:induction false} DistinctSize(q: seq<Key>, ks: set<Key>)
    requires Distinct(q)
    requires forall k :: k in q <==> k in ks
    ensures |q| == |ks|
  {
    if q == [] {
      assert ks == {};
    } else {
      assert q[0] in q;
      forall k ensures k in q[1..] <==> k in ks - {q[0]} {
        if k in ks - {q[0]} { assert k in q; }
        if k in q[1..] { assert k in q; }
      }
      DistinctSize(q[1..], ks - {q[0]});
    }
  }

  lemma {:induction false} SubseqMembers(a: seq<Key>, b: seq<Key>)
    requires Subseq(a, b)
    ensures |a| <= |b|
    ensures forall k :: k in a ==> k in b
    decreases b
  {
    if a != [] {
      if a[0] == b[0] && Subseq(a[1..], b[1..]) {
        SubseqMembers(a[1..], b[1..]);
        forall k | k in a ensures k in b { if k != a[0] { assert k in a[1..]; } }
      } else {
        SubseqMembers(a, b[1..]);
      }
    }
  }

  lemma {:induction false} SubseqRefl(a: seq<Key>)
    ensures Subseq(a, a)
  {
    if a != [] { SubseqRefl(a[1..]); }
  }

  lemma {:induction false} SubseqTail(a: seq<Key>, b: seq<Key>)
    requires Subseq(a, b) && a != []
    ensures Subseq(a[1..], b)
    decreases b
  {
    if !(a[0] == b[0] && Subseq(a[1..], b[1..])) {
      SubseqTail(a, b[1..]);
    }
  }

  lemma {:induction false} SubseqAppend(a: seq<Key>, b: seq<Key>, k: Key)
    requires Subseq(a, b)
    ensures Subseq(a + [k], b + [k])
    decreases b
  {
    if b == [] {
      assert a + [k] == [k] && b + [k] == [k];
      SubseqRefl([k]);
    } else {
      assert (b + [k])[1..] == b[1..] + [k];
      if a == [] {
        SubseqAppend([], b[1..], k);
        assert a + [k] == [] + [k];
      } else {
        assert (a + [k])[1..] == a[1..] + [k];
        if a[0] == b[0] && Subseq(a[1..], b[1..]) {
          SubseqAppend(a[1..], b[1..], k);
        } else {
          SubseqAppend(a, b[1..], k);
        }
      }
    }
  }

  /** Removing the same keys from both sides keeps the order relation. */
  lemma {:induction false} SubseqWithout(a: seq<Key>, b: seq<Key>, ks: set<Key>)
    requires Subseq(a, b)
    ensures Subseq(Without(a, ks), Without(b, ks))
    decreases b
  {
    if a != [] {
      var rb := Without(b[1..], ks);
      if a[0] == b[0] && Subseq(a[1..], b[1..]) {
        SubseqWithout(a[1..], b[1..], ks);
        if a[0] !in ks {
          assert Without(a, ks)[1..] == Without(a[1..], ks);
          assert Without(b, ks)[1..] == rb;
        }
      } else {
        SubseqWithout(a, b[1..], ks);
        if b[0] !in ks {
          assert Without(b, ks)[1..] == rb;
        }
      }
    }
  }

  /** The front of the longer queue, if the shorter one still holds it, is the shorter one's front too. */
  lemma {:induction false} SubseqFront(a: seq<Key>, b: seq<Key>)
    requires Subseq(a, b) && Distinct(b) && b != [] && b[0] in a
    ensures a[0] == b[0]
  {
    if a[0] != b[0] {
      SubseqMembers(a, b[1..]);
    }
  }

  /** Losing the front of both queues, or of the longer one when the shorter does not hold it. */
  lemma {:induction false} SubseqPop(a: seq<Key>, b: seq<Key>)
    requires Subseq(a, b) && Distinct(a) && Distinct(b) && b != []
    ensures Subseq(Without(a, {b[0]}), b[1..])
  {
    SubseqWithout(a, b, {b[0]});
    WithoutFront(b);
  }

  /** How far the longer queue is ahead never grows by removing from both. */
  lemma {:induction false} SubseqGap(a: seq<Key>, b: seq<Key>, ks: set<Key>)
    requires Subseq(a, b)
    ensures |Without(b, ks)| - |Without(a, ks)| <= |b| - |a|
    decreases b
  {
    if a == [] {
    } else if a[0] == b[0] && Subseq(a[1..], b[1..]) {
      SubseqGap(a[1..], b[1..], ks);
    } else {
      SubseqGap(a, b[1..], ks);
    }
  }

  lemma SplitNext(q: seq<Key>, n: nat)
    requires n < |q|
    ensures q[..n] + [q[n]] == q[..n + 1]
    ensures q[n..] != [] && q[n..][0] == q[n] && q[n..][1..] == q[n + 1..]
  {
  }
}
