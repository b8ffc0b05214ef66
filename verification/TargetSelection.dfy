/** Choosing the cluster to promote: three strategies over the healthy non-primary clusters. */
module TargetSelection {
  import opened Base
  import opened ClusterHealth

  datatype Strategy = Sequential | LatencyBased | WeightedRandom

  datatype Candidate = Candidate(name: Name, status: Status, latencyMs: Option<nat>)

  const NO_LATENCY: nat := 0xFFFF_FFFF_FFFF_FFFF
  const NANO: real := 1000000000.0

  /** The healthy clusters other than the primary, in the order the map is scanned. */
  function Candidates(order: seq<Name>, clusters: map<Name, Cluster>, primary: Name): (r: seq<Candidate>)
    ensures forall i :: 0 <= i < |r| ==>
      && r[i].name in order && r[i].name in clusters && r[i].name != primary
      && clusters[r[i].name].status == Healthy
      && r[i] == Candidate(r[i].name, Healthy, clusters[r[i].name].latencyMs)
    ensures forall n :: n in order && n in clusters && n != primary && clusters[n].status == Healthy ==>
      Candidate(n, Healthy, clusters[n].latencyMs) in r
  {
    if order == [] then []
    else
      var rest := Candidates(order[1..], clusters, primary);
      var n := order[0];
      if n in clusters && n != primary && clusters[n].status == Healthy
      then [Candidate(n, Healthy, clusters[n].latencyMs)] + rest
      else rest
  }

  // ---------------------------------------------------------------- latency based

  function LatencyKey(c: Candidate): nat { if c.latencyMs.Some? then c.latencyMs.value else NO_LATENCY }

  /** `min_by_key`: the first candidate of least key. */
  function FirstMin(cs: seq<Candidate>): (i: nat)
    requires cs != []
    ensures i < |cs|
    ensures forall j :: 0 <= j < |cs| ==> LatencyKey(cs[i]) <= LatencyKey(cs[j])
    ensures forall j :: 0 <= j < i ==> LatencyKey(cs[i]) < LatencyKey(cs[j])
  {
    if |cs| == 1 then 0
    else
      var i := FirstMin(cs[..|cs| - 1]);
      if LatencyKey(cs[|cs| - 1]) < LatencyKey(cs[i]) then |cs| - 1 else i
  }

  // ---------------------------------------------------------------- weighted random

  function StatusFactor(s: Status): real {
    match s
    case Healthy => 1.0
    case Degraded => 0.5
    case Failed => 0.0
    case Unknown => 0.25
  }

  /** An unmeasured cluster is taken to be a second away. */
  function AssumedLatency(c: Candidate): nat { if c.latencyMs.Some? then c.latencyMs.value else 1000 }

  function Score(c: Candidate): real { 1.0 / (AssumedLatency(c) as real + 1.0) * StatusFactor(c.status) }

  function Scores(cs: seq<Candidate>): (ws: seq<real>)
    ensures |ws| == |cs| && forall i :: 0 <= i < |cs| ==> ws[i] == Score(cs[i])
  {
    seq(|cs|, i requires 0 <= i < |cs| => Score(cs[i]))
  }

  /** The sum of the first `n` weights. */
  function Prefix(ws: seq<real>, n: nat): real
    requires n <= |ws|
  {
    if n == 0 then 0.0 else Prefix(ws, n - 1) + ws[n - 1]
  }

  ghost predicate Positive(ws: seq<real>) { forall i :: 0 <= i < |ws| ==> ws[i] > 0.0 }

  lemma {:induction false} PrefixMonotone(ws: seq<real>, m: nat, n: nat)
    requires Positive(ws) && m <= n <= |ws|
    ensures Prefix(ws, m) <= Prefix(ws, n)
    ensures m < n ==> Prefix(ws, m) < Prefix(ws, n)
    decreases n
  {
    if m < n { PrefixMonotone(ws, m, n - 1); }
  }

  /** The first index whose cumulative weight reaches the target, or `|ws|` if none does. */
  function Scan(ws: seq<real>, target: real, from: nat): (i: nat)
    requires from <= |ws|
    ensures from <= i <= |ws|
    ensures i < |ws| ==> target <= Prefix(ws, i + 1)
    ensures forall j :: from < j <= i ==> target > Prefix(ws, j)
    decreases |ws| - from
  {
    if from == |ws| then from
    else if target <= Prefix(ws, from + 1) then from
    else Scan(ws, target, from + 1)
  }

  /** Index `i`'s share of the line: the half-open interval up to its cumulative weight, closed at zero. */
  ghost predicate InShare(ws: seq<real>, target: real, i: nat)
    requires i < |ws|
  {
    target <= Prefix(ws, i + 1) && (i == 0 || Prefix(ws, i) < target)
  }

  /** The scan stops inside the line, at the one index whose share holds the target. */
  lemma ScanFindsShare(ws: seq<real>, target: real)
    requires ws != [] && Positive(ws) && 0.0 <= target < Prefix(ws, |ws|)
    ensures Scan(ws, target, 0) < |ws|
    ensures forall i: nat :: i < |ws| ==> (InShare(ws, target, i) <==> i == Scan(ws, target, 0))
  {
    var k := Scan(ws, target, 0);
    assert k < |ws|;
    forall i: nat | i < |ws| && i != k ensures !InShare(ws, target, i) {
      if i < k {
        assert target > Prefix(ws, i + 1);
      } else {
        PrefixMonotone(ws, k + 1, i);
      }
    }
  }

  /** `x % y` on non-negative reals. */
  function Rem(x: real, y: real): real
    requires x >= 0.0 && y > 0.0
  {
    x - (x / y).Floor as real * y
  }

  lemma RemRange(x: real, y: real)
    requires x >= 0.0 && y > 0.0
    ensures 0.0 <= Rem(x, y) < y
  {
    Quotient(x, y);
    RemBetween(x, y, x / y, (x / y).Floor as real);
  }

  lemma Quotient(x: real, y: real)
    requires y > 0.0
    ensures x / y * y == x
  {
  }

  lemma RemBetween(x: real, y: real, q: real, f: real)
    requires y > 0.0 && q * y == x && f <= q < f + 1.0
    ensures 0.0 <= x - f * y < y
  {
    var d := q - f;
    RealProduct(d, y);
    assert d * y == x - f * y by {
      assert d * y == q * y - f * y;
    }
  }

  lemma RealProduct(a: real, y: real)
    requires 0.0 <= a < 1.0 && y > 0.0
    ensures 0.0 <= a * y < y
  {
    assert (1.0 - a) * y > 0.0;
  }

  /** The point drawn on the line from a 64-bit hash. */
  function Draw(rng: nat, total: real): real
    requires total > 0.0
  {
    Rem(rng as real, total * NANO) / NANO
  }

  /** The point is the hash in billionths, reduced to the line: it lies on the line, a whole number of lengths away. */
  lemma DrawCongruent(rng: nat, total: real) returns (k: int)
    requires total > 0.0
    ensures 0.0 <= Draw(rng, total) < total
    ensures rng as real == (Draw(rng, total) + k as real * total) * 1_000_000_000.0
  {
    DrawRange(rng, total);
    k := (rng as real / (total * NANO)).Floor;
    Distributes(k as real, total);
  }

  lemma Distributes(k: real, total: real)
    ensures k * (total * NANO) == k * total * NANO
  {
  }

  lemma DrawRange(rng: nat, total: real)
    requires total > 0.0
    ensures 0.0 <= Draw(rng, total) < total
  {
    RemRange(rng as real, total * NANO);
  }

  lemma {:induction false} ScoresPositive(cs: seq<Candidate>)
    requires cs != [] && forall i :: 0 <= i < |cs| ==> cs[i].status == Healthy
    ensures Positive(Scores(cs)) && Prefix(Scores(cs), |cs|) > 0.0
  {
    forall i | 0 <= i < |cs| ensures Scores(cs)[i] > 0.0 {
      Reciprocal(AssumedLatency(cs[i]) as real + 1.0);
    }
    PrefixMonotone(Scores(cs), 0, |cs|);
  }

  lemma Reciprocal(d: real)
    requires d > 0.0
    ensures 1.0 / d > 0.0
  {
  }

  // ---------------------------------------------------------------- the choice

  function WeightedIndex(cs: seq<Candidate>, rng: nat): (i: nat)
    requires cs != [] && Prefix(Scores(cs), |cs|) > 0.0
    ensures i < |cs|
  {
    var ws := Scores(cs);
    var i := Scan(ws, Draw(rng, Prefix(ws, |ws|)), 0);
    if i < |cs| then i else |cs| - 1
  }

  function Choose(strategy: Strategy, cs: seq<Candidate>, rng: nat): Option<Name> {
    if cs == [] then None
    else match strategy
      case Sequential => Some(cs[0].name)
      case LatencyBased => Some(cs[FirstMin(cs)].name)
      case WeightedRandom =>
        if Prefix(Scores(cs), |cs|) <= 0.0 then None else Some(cs[WeightedIndex(cs, rng)].name)
  }

  /** Whatever the strategy, a target is found exactly when some other cluster is healthy, and it is one. */
  lemma ChooseTotal(strategy: Strategy, order: seq<Name>, clusters: map<Name, Cluster>, primary: Name, rng: nat)
    requires forall n :: n in order <==> n in clusters
    ensures var r := Choose(strategy, Candidates(order, clusters, primary), rng);
      && (r.Some? <==> exists n :: n in clusters && n != primary && clusters[n].status == Healthy)
      && (r.Some? ==> r.value in clusters && r.value != primary && clusters[r.value].status == Healthy)
  {
    var cs := Candidates(order, clusters, primary);
    if cs != [] {
      assert cs[0].name in clusters;
      ScoresPositive(cs);
    }
  }

  /** The largest 64-bit number, which stands for an unknown latency. */
  predicate Measured(c: Cluster) { c.latencyMs.Some? && c.latencyMs.value < 0xFFFF_FFFF_FFFF_FFFF }

  /**
   * If a healthy cluster has a measured latency, the latency strategy promotes a measured one, no
   * slower than any; if none has, it takes the first eligible cluster of the scanning order.
   */
  lemma FastestChosen(order: seq<Name>, clusters: map<Name, Cluster>, primary: Name, rng: nat)
    requires forall m :: m in order <==> m in clusters
    ensures var r := Choose(LatencyBased, Candidates(order, clusters, primary), rng);
      && (r.Some? ==> r.value in clusters)
      && forall n :: Eligible(clusters, primary, n) && Measured(clusters[n]) ==>
           && r.Some? && clusters[r.value].latencyMs.Some?
           && clusters[r.value].latencyMs.value <= clusters[n].latencyMs.value
  {
    var cs := Candidates(order, clusters, primary);
    forall n | Eligible(clusters, primary, n) && Measured(clusters[n])
      ensures var r := Choose(LatencyBased, cs, rng);
        && r.Some? && clusters[r.value].latencyMs.Some?
        && clusters[r.value].latencyMs.value <= clusters[n].latencyMs.value
    {
      assert Candidate(n, Healthy, clusters[n].latencyMs) in cs;
    }
  }

  /** The latency strategy returns a cluster no slower than any other candidate. */
  lemma LatencyMinimal(order: seq<Name>, clusters: map<Name, Cluster>, primary: Name, rng: nat, n: Name)
    requires forall m :: m in order <==> m in clusters
    requires n in clusters && n != primary && clusters[n].status == Healthy
    ensures var r := Choose(LatencyBased, Candidates(order, clusters, primary), rng);
      && r.Some? && r.value in clusters
      && LatencyKey(Candidate(r.value, Healthy, clusters[r.value].latencyMs))
           <= LatencyKey(Candidate(n, Healthy, clusters[n].latencyMs))
  {
    var cs := Candidates(order, clusters, primary);
    assert Candidate(n, Healthy, clusters[n].latencyMs) in cs;
  }

  predicate Eligible(clusters: map<Name, Cluster>, primary: Name, n: Name) {
    n in clusters && n != primary && clusters[n].status == Healthy
  }

  /** The sequential strategy takes the first eligible cluster of the scanning order. */
  lemma {:induction false} SequentialFirst(order: seq<Name>, clusters: map<Name, Cluster>, primary: Name, rng: nat)
    returns (i: nat)
    requires Choose(Sequential, Candidates(order, clusters, primary), rng).Some?
    ensures i < |order| && Choose(Sequential, Candidates(order, clusters, primary), rng) == Some(order[i])
    ensures Eligible(clusters, primary, order[i]) && forall j :: 0 <= j < i ==> !Eligible(clusters, primary, order[j])
  {
    if Eligible(clusters, primary, order[0]) {
      i := 0;
    } else {
      i := SequentialFirst(order[1..], clusters, primary, rng);
      i := i + 1;
    }
  }

  /** One of the orders in which a map with these keys can be scanned. */
  ghost predicate Scans(order: seq<Name>, clusters: map<Name, Cluster>) {
    && (forall n :: n in order <==> n in clusters)
    && forall i, j :: 0 <= i < j < |order| ==> order[i] != order[j]
  }

  lemma {:induction false} ScanOf(ns: set<Name>) returns (order: seq<Name>)
    ensures forall n :: n in order <==> n in ns
    ensures forall i, j :: 0 <= i < j < |order| ==> order[i] != order[j]
  {
    if ns == {} {
      order := [];
    } else {
      var n :| n in ns;
      var rest := ScanOf(ns - {n});
      order := [n] + rest;
    }
  }

  /** An eligible cluster can come first, and then the sequential strategy takes it. */
  lemma ScanFrom(clusters: map<Name, Cluster>, primary: Name, n: Name, rng: nat) returns (order: seq<Name>)
    requires Eligible(clusters, primary, n)
    ensures Scans(order, clusters)
    ensures Choose(Sequential, Candidates(order, clusters, primary), rng) == Some(n)
  {
    var rest := ScanOf(clusters.Keys - {n});
    order := [n] + rest;
    assert order[0] == n;
  }

  ghost predicate AtMostOneEligible(clusters: map<Name, Cluster>, primary: Name) {
    forall a, b :: Eligible(clusters, primary, a) && Eligible(clusters, primary, b) ==> a == b
  }

  lemma OneEligibleChosen(clusters: map<Name, Cluster>, primary: Name, o: seq<Name>, p: seq<Name>, rng: nat)
    requires Scans(o, clusters) && Scans(p, clusters) && AtMostOneEligible(clusters, primary)
    ensures Choose(Sequential, Candidates(o, clusters, primary), rng)
         == Choose(Sequential, Candidates(p, clusters, primary), rng)
  {
    ChooseTotal(Sequential, o, clusters, primary, rng);
    ChooseTotal(Sequential, p, clusters, primary, rng);
    var x := Choose(Sequential, Candidates(o, clusters, primary), rng);
    var y := Choose(Sequential, Candidates(p, clusters, primary), rng);
    if x.Some? && y.Some? {
      assert Eligible(clusters, primary, x.value) && Eligible(clusters, primary, y.value);
    }
  }

  /**
   * No order is configured for the map scan: the sequential choice is independent of the scanning
   * order if and only if at most one cluster is eligible.
   */
  lemma SequentialOrderFreeIff(clusters: map<Name, Cluster>, primary: Name, rng: nat)
    ensures (forall o, p :: Scans(o, clusters) && Scans(p, clusters) ==>
               Choose(Sequential, Candidates(o, clusters, primary), rng)
               == Choose(Sequential, Candidates(p, clusters, primary), rng))
      <==> AtMostOneEligible(clusters, primary)
  {
    if AtMostOneEligible(clusters, primary) {
      forall o, p | Scans(o, clusters) && Scans(p, clusters) {
        OneEligibleChosen(clusters, primary, o, p, rng);
      }
    } else {
      var a, b :| Eligible(clusters, primary, a) && Eligible(clusters, primary, b) && a != b;
      var o := ScanFrom(clusters, primary, a, rng);
      var p := ScanFrom(clusters, primary, b, rng);
      assert Scans(o, clusters) && Scans(p, clusters);
    }
  }

  /** Two healthy clusters beside the primary: either can be the sequential choice. */
  lemma SequentialOrderMatters(rng: nat)
    ensures var a, b := Name("a"), Name("b");
      var clusters := map[a := Fresh(a, []).(status := Healthy), b := Fresh(b, []).(status := Healthy)];
      && Scans([a, b], clusters) && Scans([b, a], clusters)
      && Choose(Sequential, Candidates([a, b], clusters, Name("p")), rng) == Some(a)
      && Choose(Sequential, Candidates([b, a], clusters, Name("p")), rng) == Some(b)
  {
    var a, b := Name("a"), Name("b");
    assert a.text[0] != b.text[0] && a.text[0] != Name("p").text[0] && b.text[0] != Name("p").text[0];
    assert [a, b][1..] == [b] && [b, a][1..] == [a];
  }

  /** A healthy cluster's score is one over its latency in milliseconds plus one; an unmeasured one is a second away. */
  lemma ScoreIsReciprocal(c: Candidate)
    requires c.status == Healthy
    ensures Score(c) * ((if c.latencyMs.Some? then c.latencyMs.value else 1000) as real + 1.0) == 1.0
  {
  }

  /** Among healthy clusters a faster one scores higher; an unmeasured one counts as a second away. */
  lemma FasterScoresMore(a: Candidate, b: Candidate)
    requires a.status == Healthy && b.status == Healthy
    requires AssumedLatency(a) < AssumedLatency(b)
    ensures Score(a) > Score(b)
  {
    ReciprocalOrder(AssumedLatency(a) as real + 1.0, AssumedLatency(b) as real + 1.0);
  }

  lemma ReciprocalOrder(x: real, y: real)
    requires 0.0 < x < y
    ensures 1.0 / x > 1.0 / y
  {
    var u, v := 1.0 / x, 1.0 / y;
    assert u * x == 1.0 && v * y == 1.0 && u > 0.0;
    assert u * (y - x) > 0.0;
    assert (u - v) * y > 0.0;
  }

  /** Each candidate owns a share of the line as long as its score; the drawn point's owner is chosen. */
  lemma WeightedByScore(cs: seq<Candidate>, rng: nat, i: nat)
    requires i < |cs| && forall j :: 0 <= j < |cs| ==> cs[j].status == Healthy
    ensures Prefix(Scores(cs), |cs|) > 0.0
    ensures InShare(Scores(cs), Draw(rng, Prefix(Scores(cs), |cs|)), i) <==> WeightedIndex(cs, rng) == i
    ensures Prefix(Scores(cs), i + 1) - Prefix(Scores(cs), i) == Score(cs[i])
  {
    ScoresPositive(cs);
    DrawRange(rng, Prefix(Scores(cs), |cs|));
    ScanFindsShare(Scores(cs), Draw(rng, Prefix(Scores(cs), |cs|)));
  }

  /** The prefix-sum loop of the weighted strategy; its fallback to the last candidate is never needed. */
  method PickWeighted(cs: seq<Candidate>, rng: nat) returns (i: nat)
    requires cs != [] && forall j :: 0 <= j < |cs| ==> cs[j].status == Healthy
    ensures i < |cs|
    ensures Prefix(Scores(cs), |cs|) > 0.0 && i == WeightedIndex(cs, rng)
    ensures InShare(Scores(cs), Draw(rng, Prefix(Scores(cs), |cs|)), i)
  {
    var scored := Scores(cs);
    var total := 0.0;
    for k := 0 to |scored|
      invariant total == Prefix(scored, k)
    {
      total := total + scored[k];
    }
    ScoresPositive(cs);
    var target := Draw(rng, total);
    var cumulative := 0.0;
    i := 0;
    while i < |scored|
      invariant i <= |scored| && cumulative == Prefix(scored, i)
      invariant Scan(scored, target, 0) == Scan(scored, target, i)
    {
      cumulative := cumulative + scored[i];
      if target <= cumulative {
        break;
      }
      i := i + 1;
    }
    if i == |scored| {
      i := |scored| - 1;
    }
    WeightedByScore(cs, rng, i);
  }
}
