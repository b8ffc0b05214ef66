/** The monitor object and the spawned task, with their loops over clusters and endpoints. */
module ClusterMonitor {
  import opened Base
  import opened ClusterHealth
  import opened TargetSelection
  import opened ClusterLoop

  /** Probe every endpoint of one cluster in turn. */
  method CountReachable(ps: seq<Probe>) returns (reachable: nat, totalLatency: nat)
    ensures reachable == Reachable(ps) && totalLatency == TotalLatency(ps)
    ensures (reachable == |ps| <==> AllUp(ps)) && (reachable > 0 <==> SomeUp(ps))
  {
    reachable, totalLatency := 0, 0;
    for i := 0 to |ps|
      invariant reachable == Reachable(ps[..i]) && totalLatency == TotalLatency(ps[..i])
    {
      assert ps[..i + 1][..i] == ps[..i];
      if ps[i].ok {
        reachable := reachable + 1;
        totalLatency := totalLatency + ps[i].elapsedMs;
      }
    }
    assert ps[..|ps|] == ps;
    ReachableBound(ps);
  }

  /** The body of the `check_all_clusters` loop. */
  method CheckCluster(threshold: nat, before: Cluster, ps: seq<Probe>) returns (c: Cluster)
    ensures c == CheckRule(threshold, before, ps)
  {
    var reachable, totalLatency := CountReachable(ps);
    c := before.(latencyMs := if reachable > 0 then Some(totalLatency / reachable) else None);
    if reachable == |ps| {
      c := c.(status := Healthy, failures := 0);
    } else if reachable > 0 {
      if c.status == Failed {
        c := c.(failures := 0);
      }
      c := c.(status := Degraded, failures := 0);
    } else {
      c := c.(failures := c.failures + 1);
      c := c.(status := if c.failures >= threshold then Failed else Degraded);
    }
  }

  class Monitor {
    var clusters: map<Name, Cluster>
    var primaryCluster: Name
    var currentPrimary: Name
    var promotionsTotal: nat
    const strategy: Strategy
    const threshold: nat

    constructor (clusters: map<Name, Cluster>, primary: Name, strategy: Strategy, threshold: nat)
      ensures this.clusters == clusters && primaryCluster == currentPrimary == primary && promotionsTotal == 0
      ensures this.strategy == strategy && this.threshold == threshold
    {
      this.clusters, this.strategy, this.threshold := clusters, strategy, threshold;
      primaryCluster, currentPrimary, promotionsTotal := primary, primary, 0;
    }

    /** One probe for each endpoint of each cluster. */
    method CheckAllClusters(probes: map<Name, seq<Probe>>)
      requires forall n :: n in clusters ==> n in probes && |probes[n]| == |clusters[n].endpoints|
      modifies this`clusters
      ensures clusters == CheckAll(threshold, old(clusters), probes)
    {
      ghost var before := clusters;
      var rest := clusters.Keys;
      while rest != {}
        invariant rest <= before.Keys == clusters.Keys
        invariant forall n :: n in clusters ==>
          clusters[n] == if n in rest then before[n] else CheckRule(threshold, before[n], probes[n])
        decreases rest
      {
        var n :| n in rest;
        var c := CheckCluster(threshold, clusters[n], probes[n]);
        clusters := clusters[n := c];
        rest := rest - {n};
      }
    }

    /** Promote the chosen secondary; `order` is the order the map happens to be scanned in. */
    method PromoteSecondary(order: seq<Name>, rng: nat) returns (promoted: Option<Name>)
      requires forall n :: n in order <==> n in clusters
      modifies this`primaryCluster, this`currentPrimary, this`promotionsTotal
      ensures promoted == Choose(strategy, Candidates(order, clusters, old(primaryCluster)), rng)
      ensures promoted.Some? <==> exists n :: n in clusters && n != old(primaryCluster) && clusters[n].status == Healthy
      ensures strategy == LatencyBased ==>
        forall n :: Eligible(clusters, old(primaryCluster), n) && Measured(clusters[n]) ==>
          && promoted.Some? && promoted.value in clusters && clusters[promoted.value].latencyMs.Some?
          && clusters[promoted.value].latencyMs.value <= clusters[n].latencyMs.value
      ensures promoted.Some? ==>
        && promoted.value in clusters && clusters[promoted.value].status == Healthy
        && primaryCluster == currentPrimary == promoted.value != old(primaryCluster)
        && promotionsTotal == old(promotionsTotal) + 1
      ensures promoted.None? ==>
        && primaryCluster == old(primaryCluster) && currentPrimary == old(currentPrimary)
        && promotionsTotal == old(promotionsTotal)
    {
      ChooseTotal(strategy, order, clusters, primaryCluster, rng);
      FastestChosen(order, clusters, primaryCluster, rng);
      promoted := Choose(strategy, Candidates(order, clusters, primaryCluster), rng);
      if promoted.None? {
        return;
      }
      primaryCluster := promoted.value;
      currentPrimary := promoted.value;
      promotionsTotal := promotionsTotal + 1;
    }
  }

  class LoopTask {
    const cfg: Config
    var primary: Name
    var status: map<Name, Status>
    const latency: map<Name, Option<nat>>
    var failures: map<Name, nat>

    ghost function Abs(): Loop
      reads this
    {
      Loop(primary, status, latency, failures)
    }

    constructor (cfg: Config, primary: Name)
      ensures this.cfg == cfg && Abs() == Boot(cfg, primary) && Knows(cfg, Abs())
    {
      this.cfg, this.primary := cfg, primary;
      status := map n | n in cfg.names :: Unknown;
      latency := map n | n in cfg.names :: None;
      failures := map n | n in cfg.names :: 0;
    }

    /** One tick: check every cluster in name order, then fail over if the primary has failed. */
    method Run(r: Round)
      requires Knows(cfg, Abs()) && Shaped(cfg, r)
      requires forall i, j :: 0 <= i < j < |cfg.names| ==> cfg.names[i] != cfg.names[j]
      modifies this
      ensures Knows(cfg, Abs()) && Abs() == Tick(cfg, old(Abs()), r)
    {
      CheckClusters(r);
      FailOver(r.rng);
    }

    /** The second half of a tick. */
    method FailOver(rng: nat)
      requires Knows(cfg, Abs())
      modifies this`primary
      ensures Abs() == if PrimaryFailed(old(Abs())) && Target(cfg, old(Abs()), rng).Some?
        then old(Abs()).(primary := Target(cfg, old(Abs()), rng).value)
        else old(Abs())
    {
      if primary in status && status[primary] == Failed {
        var promoted := SelectTarget(rng);
        if promoted.Some? {
          primary := promoted.value;
        }
      }
    }

    method SelectTarget(rng: nat) returns (promoted: Option<Name>)
      requires Knows(cfg, Abs())
      ensures promoted == Target(cfg, Abs(), rng)
    {
      var candidates := Candidates(cfg.names, View(cfg, Loop(primary, status, latency, failures)), primary);
      if candidates == [] {
        return None;
      }
      ScoresPositive(candidates);
      match cfg.strategy {
        case Sequential => promoted := Some(candidates[0].name);
        case LatencyBased => promoted := Some(candidates[FirstMin(candidates)].name);
        case WeightedRandom =>
          var i := PickWeighted(candidates, rng);
          promoted := Some(candidates[i].name);
      }
    }

    method CheckClusters(r: Round)
      requires Knows(cfg, Abs()) && Shaped(cfg, r)
      requires forall i, j :: 0 <= i < j < |cfg.names| ==> cfg.names[i] != cfg.names[j]
      modifies this`status, this`failures
      ensures Abs() == Observe(cfg, old(Abs()), r)
    {
      ghost var l := Abs();
      CheckNames(r.probes);
      PartlyAll(cfg, l, r, status, failures);
    }

    /** The loop over the names, one probe result for each endpoint of each cluster. */
    method CheckNames(probes: map<Name, seq<Probe>>)
      requires forall n :: n in cfg.names ==> n in status && n in failures && n in probes
      requires forall i, j :: 0 <= i < j < |cfg.names| ==> cfg.names[i] != cfg.names[j]
      modifies this`status, this`failures
      ensures status.Keys == old(status).Keys && failures.Keys == old(failures).Keys
      ensures Partly(cfg.names, cfg.threshold, old(failures), probes, |cfg.names|, status, failures)
    {
      for i := 0 to |cfg.names|
        invariant status.Keys == old(status).Keys && failures.Keys == old(failures).Keys
        invariant Partly(cfg.names, cfg.threshold, old(failures), probes, i, status, failures)
      {
        var n := cfg.names[i];
        PartlyNext(cfg.names, cfg.threshold, old(failures), probes, i, status, failures);
        CheckOne(n, probes[n]);
      }
    }

    method CheckOne(n: Name, ps: seq<Probe>)
      requires n in status && n in failures
      modifies this`status, this`failures
      ensures status == old(status)[n := LoopRule(cfg.threshold, old(failures)[n], ps).0]
      ensures failures == old(failures)[n := LoopRule(cfg.threshold, old(failures)[n], ps).1]
    {
      var reachable, _ := CountReachable(ps);
      var newStatus;
      if reachable == |ps| {
        newStatus := Healthy;
      } else if reachable > 0 {
        newStatus := Degraded;
      } else {
        failures := failures[n := failures[n] + 1];
        newStatus := if failures[n] >= cfg.threshold then Failed else Degraded;
      }
      if reachable > 0 {
        failures := failures[n := 0];
      }
      status := status[n := newStatus];
    }
  }

  /** The first `i` names have been checked this round, the others are as before. */
  ghost predicate Partly(names: seq<Name>, threshold: nat, before: map<Name, nat>, probes: map<Name, seq<Probe>>,
                         i: nat, status: map<Name, Status>, failures: map<Name, nat>)
    requires i <= |names|
  {
    forall n :: n in names ==>
      && n in before && n in probes && n in status && n in failures
      && if n in names[..i] then (status[n], failures[n]) == LoopRule(threshold, before[n], probes[n])
         else failures[n] == before[n]
  }

  lemma PartlyNext(names: seq<Name>, threshold: nat, before: map<Name, nat>, probes: map<Name, seq<Probe>>,
                   i: nat, status: map<Name, Status>, failures: map<Name, nat>)
    requires i < |names| && Partly(names, threshold, before, probes, i, status, failures)
    requires forall i, j :: 0 <= i < j < |names| ==> names[i] != names[j]
    ensures var n := names[i];
      && n in status && n in failures && n in probes
      && var (s, f) := LoopRule(threshold, failures[n], probes[n]);
         Partly(names, threshold, before, probes, i + 1, status[n := s], failures[n := f])
  {
    assert names[i] in names && names[i] !in names[..i];
    assert forall n :: n in names[..i + 1] <==> n in names[..i] || n == names[i];
  }

  lemma PartlyAll(cfg: Config, l: Loop, r: Round, status: map<Name, Status>, failures: map<Name, nat>)
    requires Knows(cfg, l) && Shaped(cfg, r) && status.Keys == l.status.Keys && failures.Keys == l.failures.Keys
    requires Partly(cfg.names, cfg.threshold, l.failures, r.probes, |cfg.names|, status, failures)
    ensures Loop(l.primary, status, l.latency, failures) == Observe(cfg, l, r)
  {
    assert cfg.names[..|cfg.names|] == cfg.names;
  }
}
