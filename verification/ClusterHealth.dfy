/** The cluster health rule of crates/failover-shim, which the source implements twice. */
module ClusterHealth {
  import opened Base

  datatype Name = Name(text: string)

  datatype Status = Healthy | Degraded | Failed | Unknown

  /** One endpoint probe: whether it connected, and after how many milliseconds. */
  datatype Probe = Probe(ok: bool, elapsedMs: nat)

  datatype Cluster = Cluster(
    name: Name,
    endpoints: seq<string>,
    status: Status,
    latencyMs: Option<nat>,
    failures: nat)

  function Fresh(name: Name, endpoints: seq<string>): Cluster {
    Cluster(name, endpoints, Unknown, None, 0)
  }

  function Reachable(ps: seq<Probe>): nat {
    if ps == [] then 0 else Reachable(ps[..|ps| - 1]) + if ps[|ps| - 1].ok then 1 else 0
  }

  function TotalLatency(ps: seq<Probe>): nat {
    if ps == [] then 0
    else TotalLatency(ps[..|ps| - 1]) + if ps[|ps| - 1].ok then ps[|ps| - 1].elapsedMs else 0
  }

  /** `check_all_clusters`, one cluster. */
  function CheckRule(threshold: nat, c: Cluster, ps: seq<Probe>): Cluster {
    var up := Reachable(ps);
    var c1 := c.(latencyMs := if up > 0 then Some(TotalLatency(ps) / up) else None);
    if up == |ps| then c1.(status := Healthy, failures := 0)
    else if up > 0 then c1.(status := Degraded, failures := 0)
    else c1.(status := if c.failures + 1 >= threshold then Failed else Degraded, failures := c.failures + 1)
  }

  /** The body of `start_loop`, one cluster: its status and failure counter live in separate maps. */
  function LoopRule(threshold: nat, failures: nat, ps: seq<Probe>): (Status, nat) {
    var up := Reachable(ps);
    if up == |ps| then (Healthy, if up > 0 then 0 else failures)
    else if up > 0 then (Degraded, 0)
    else (if failures + 1 >= threshold then Failed else Degraded, failures + 1)
  }

  /** On one round the two rules agree except where a cluster without endpoints has failures on record. */
  lemma RulesDifferOnlyWithoutEndpoints(threshold: nat, c: Cluster, ps: seq<Probe>)
    ensures var d := CheckRule(threshold, c, ps);
      LoopRule(threshold, c.failures, ps) == (d.status, d.failures) <==> (ps != [] || c.failures == 0)
  {
  }

  lemma {:induction false} ReachableBound(ps: seq<Probe>)
    ensures Reachable(ps) <= |ps|
    ensures Reachable(ps) == |ps| <==> AllUp(ps)
    ensures Reachable(ps) > 0 <==> SomeUp(ps)
  {
    if ps != [] {
      var before, p := ps[..|ps| - 1], ps[|ps| - 1];
      ReachableBound(before);
      assert ps == before + [p];
      assert SomeUp(ps) <==> SomeUp(before) || p.ok;
      assert AllUp(ps) <==> AllUp(before) && p.ok;
    }
  }

  // ---------------------------------------------------------------- the rule by history

  ghost predicate AllUp(ps: seq<Probe>) { forall p :: p in ps ==> p.ok }

  ghost predicate SomeUp(ps: seq<Probe>) { exists p :: p in ps && p.ok }

  /** Wholly unreachable: there are endpoints and none answered. */
  ghost predicate Down(ps: seq<Probe>) { !AllUp(ps) && !SomeUp(ps) }

  /** How many of the latest rounds found the cluster wholly unreachable. */
  ghost function DownSuffix(rounds: seq<seq<Probe>>): nat {
    if rounds == [] || !Down(rounds[|rounds| - 1]) then 0
    else DownSuffix(rounds[..|rounds| - 1]) + 1
  }

  lemma {:induction false} DownSuffixMeans(rounds: seq<seq<Probe>>)
    ensures var f := DownSuffix(rounds);
      && f <= |rounds|
      && (forall i :: |rounds| - f <= i < |rounds| ==> Down(rounds[i]))
      && (f < |rounds| ==> !Down(rounds[|rounds| - f - 1]))
  {
    if rounds != [] { DownSuffixMeans(rounds[..|rounds| - 1]); }
  }

  /** The status the latest round implies, given how long the cluster has been down. */
  ghost function StatusOf(threshold: nat, rounds: seq<seq<Probe>>): Status {
    if rounds == [] then Unknown
    else if AllUp(rounds[|rounds| - 1]) then Healthy
    else if SomeUp(rounds[|rounds| - 1]) then Degraded
    else if DownSuffix(rounds) >= Max(1, threshold) then Failed
    else Degraded
  }

  function Checked(threshold: nat, c: Cluster, rounds: seq<seq<Probe>>): Cluster {
    if rounds == [] then c
    else CheckRule(threshold, Checked(threshold, c, rounds[..|rounds| - 1]), rounds[|rounds| - 1])
  }

  function Looped(threshold: nat, rounds: seq<seq<Probe>>): (Status, nat) {
    if rounds == [] then (Unknown, 0)
    else LoopRule(threshold, Looped(threshold, rounds[..|rounds| - 1]).1, rounds[|rounds| - 1])
  }

  /** Both implementations compute the history rule, so they agree for ever. */
  lemma {:induction false} RulesBisimilar(threshold: nat, name: Name, endpoints: seq<string>, rounds: seq<seq<Probe>>)
    requires forall r :: r in rounds ==> |r| == |endpoints|
    ensures var c := Checked(threshold, Fresh(name, endpoints), rounds);
      && c.status == StatusOf(threshold, rounds)
      && c.failures == DownSuffix(rounds)
      && (c.status, c.failures) == Looped(threshold, rounds)
  {
    if rounds != [] {
      var before, last := rounds[..|rounds| - 1], rounds[|rounds| - 1];
      assert last in rounds;
      RulesBisimilar(threshold, name, endpoints, before);
      ReachableBound(last);
      DownSuffixMeans(before);
      if |endpoints| == 0 {
        assert before != [] ==> before[|before| - 1] in rounds;
        assert DownSuffix(before) == 0;
      }
    }
  }

  /** A measured latency lies between the fastest and the slowest answer; without answers there is none. */
  lemma LatencyIsMean(threshold: nat, c: Cluster, ps: seq<Probe>, lo: nat, hi: nat)
    requires forall p :: p in ps && p.ok ==> lo <= p.elapsedMs <= hi
    ensures var l := CheckRule(threshold, c, ps).latencyMs;
      (l.Some? <==> SomeUp(ps)) && (l.Some? ==> lo <= l.value <= hi)
  {
    ReachableBound(ps);
    LatencySum(ps, lo, hi);
    if Reachable(ps) > 0 {
      QuotientBetween(TotalLatency(ps), Reachable(ps), lo, hi);
    }
  }

  lemma {:induction false} LatencySum(ps: seq<Probe>, lo: nat, hi: nat)
    requires forall p :: p in ps && p.ok ==> lo <= p.elapsedMs <= hi
    ensures Reachable(ps) * lo <= TotalLatency(ps) <= Reachable(ps) * hi
  {
    if ps != [] {
      var before := ps[..|ps| - 1];
      assert ps[|ps| - 1] in ps && forall p :: p in before ==> p in ps;
      LatencySum(before, lo, hi);
      MulNext(Reachable(before), lo);
      MulNext(Reachable(before), hi);
    }
  }

  lemma QuotientBetween(total: nat, n: nat, lo: nat, hi: nat)
    requires n > 0 && n * lo <= total <= n * hi
    ensures lo <= total / n <= hi
  {
    var q := total / n;
    assert n * q <= total < n * (q + 1);
    if q < lo {
      MulMonotone(q + 1, lo, n);
    }
    if q > hi {
      MulMonotone(hi + 1, q, n);
    }
  }

  /** The times of the endpoints that answered. */
  function Times(ps: seq<Probe>): seq<nat> {
    if ps == [] then [] else Times(ps[..|ps| - 1]) + if ps[|ps| - 1].ok then [ps[|ps| - 1].elapsedMs] else []
  }

  function Sum(ts: seq<nat>): nat { if ts == [] then 0 else Sum(ts[..|ts| - 1]) + ts[|ts| - 1] }

  lemma {:induction false} TotalsAreSums(ps: seq<Probe>)
    ensures TotalLatency(ps) == Sum(Times(ps)) && Reachable(ps) == |Times(ps)|
  {
    if ps != [] {
      var before := Times(ps[..|ps| - 1]);
      TotalsAreSums(ps[..|ps| - 1]);
      assert before + [] == before && (before + [ps[|ps| - 1].elapsedMs])[..|before|] == before;
    }
  }

  /** A measured latency is the sum of the answering times divided by their number. */
  lemma LatencyIsQuotient(threshold: nat, c: Cluster, ps: seq<Probe>)
    ensures CheckRule(threshold, c, ps).latencyMs ==
      if Times(ps) == [] then None else Some(Sum(Times(ps)) / |Times(ps)|)
  {
    TotalsAreSums(ps);
  }
}
