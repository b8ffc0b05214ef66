/** The multi-cluster monitoring loop: rounds of probes, promotion of a secondary, and its runs. */
module ClusterLoop {
  import opened Base
  import opened ClusterHealth
  import opened TargetSelection

  /** `names` is the sorted list of configured clusters the spawned task iterates over. */
  datatype Config = Config(names: seq<Name>, endpoints: map<Name, seq<string>>, threshold: nat, strategy: Strategy)

  datatype Round = Round(probes: map<Name, seq<Probe>>, rng: nat)

  /** The task's own variables; it never writes them back to the monitor object. */
  datatype Loop = Loop(
    primary: Name,
    status: map<Name, Status>,
    latency: map<Name, Option<nat>>,
    failures: map<Name, nat>)

  ghost predicate Shaped(cfg: Config, r: Round) {
    forall n :: n in cfg.names ==> n in cfg.endpoints && n in r.probes && |r.probes[n]| == |cfg.endpoints[n]|
  }

  ghost predicate ShapedAll(cfg: Config, rs: seq<Round>) {
    forall i :: 0 <= i < |rs| ==> Shaped(cfg, rs[i])
  }

  ghost predicate Knows(cfg: Config, l: Loop) {
    && (forall n :: n in cfg.names <==> n in l.status)
    && (forall n :: n in cfg.names <==> n in l.latency)
    && (forall n :: n in cfg.names <==> n in l.failures)
  }

  function Limit(cfg: Config): nat { Max(1, cfg.threshold) }

  function Boot(cfg: Config, primary: Name): Loop {
    Loop(primary, map n | n in cfg.names :: Unknown, map n | n in cfg.names :: None, map n | n in cfg.names :: 0)
  }

  /** The health half of a round. */
  function Observe(cfg: Config, l: Loop, r: Round): (o: Loop)
    requires Knows(cfg, l) && Shaped(cfg, r)
    ensures Knows(cfg, o)
  {
    l.(status := map n | n in cfg.names :: LoopRule(cfg.threshold, l.failures[n], r.probes[n]).0,
       failures := map n | n in cfg.names :: LoopRule(cfg.threshold, l.failures[n], r.probes[n]).1)
  }

  /** What the loop knows of each cluster when it selects. */
  function View(cfg: Config, l: Loop): map<Name, Cluster>
    requires Knows(cfg, l)
  {
    map n | n in cfg.names ::
      Cluster(n, if n in cfg.endpoints then cfg.endpoints[n] else [], l.status[n], l.latency[n], l.failures[n])
  }

  predicate PrimaryFailed(l: Loop) { l.primary in l.status && l.status[l.primary] == Failed }

  function Target(cfg: Config, l: Loop, rng: nat): Option<Name>
    requires Knows(cfg, l)
  {
    Choose(cfg.strategy, Candidates(cfg.names, View(cfg, l), l.primary), rng)
  }

  function Tick(cfg: Config, l: Loop, r: Round): (t: Loop)
    requires Knows(cfg, l) && Shaped(cfg, r)
    ensures Knows(cfg, t)
  {
    var o := Observe(cfg, l, r);
    if PrimaryFailed(o) && Target(cfg, o, r.rng).Some?
    then o.(primary := Target(cfg, o, r.rng).value)
    else o
  }

  function After(cfg: Config, primary: Name, rs: seq<Round>): (l: Loop)
    requires ShapedAll(cfg, rs)
    ensures Knows(cfg, l)
  {
    if rs == [] then Boot(cfg, primary)
    else Tick(cfg, After(cfg, primary, rs[..|rs| - 1]), rs[|rs| - 1])
  }

  /** The rounds as one cluster saw them. */
  function History(rs: seq<Round>, n: Name): (h: seq<seq<Probe>>)
    ensures |h| == |rs|
  {
    seq(|rs|, i requires 0 <= i < |rs| => if n in rs[i].probes then rs[i].probes[n] else [])
  }

  lemma HistorySnoc(rs: seq<Round>, n: Name)
    requires rs != []
    ensures History(rs, n)[..|rs| - 1] == History(rs[..|rs| - 1], n)
  {
  }

  lemma {:induction false} LoopedHistory(cfg: Config, primary: Name, rs: seq<Round>, n: Name)
    requires ShapedAll(cfg, rs) && n in cfg.names
    ensures var l := After(cfg, primary, rs); (l.status[n], l.failures[n]) == Looped(cfg.threshold, History(rs, n))
  {
    if rs != [] {
      LoopedHistory(cfg, primary, rs[..|rs| - 1], n);
      HistorySnoc(rs, n);
    }
  }

  /** After any rounds the loop's status and counter of a cluster are those its own history dictates. */
  lemma LoopTracksHistory(cfg: Config, primary: Name, rs: seq<Round>, n: Name)
    requires ShapedAll(cfg, rs) && n in cfg.names && n in cfg.endpoints
    ensures After(cfg, primary, rs).status[n] == StatusOf(cfg.threshold, History(rs, n))
    ensures After(cfg, primary, rs).failures[n] == DownSuffix(History(rs, n))
  {
    LoopedHistory(cfg, primary, rs, n);
    RulesBisimilar(cfg.threshold, n, cfg.endpoints[n], History(rs, n));
  }

  // ---------------------------------------------------------------- promotion safety

  ghost predicate OtherHealthy(cfg: Config, l: Loop)
    requires Knows(cfg, l)
  {
    exists n :: n in cfg.names && n != l.primary && l.status[n] == Healthy
  }

  lemma TargetIffHealthy(cfg: Config, l: Loop, rng: nat)
    requires Knows(cfg, l)
    ensures Target(cfg, l, rng).Some? <==> OtherHealthy(cfg, l)
    ensures Target(cfg, l, rng).Some? ==>
      var n := Target(cfg, l, rng).value; n in cfg.names && n != l.primary && l.status[n] == Healthy
  {
    ChooseTotal(cfg.strategy, cfg.names, View(cfg, l), l.primary, rng);
    if OtherHealthy(cfg, l) {
      var n :| n in cfg.names && n != l.primary && l.status[n] == Healthy;
      assert View(cfg, l)[n].status == Healthy;
    }
  }

  /** After every round the primary is not failed, or there was nothing healthy to promote. */
  lemma TickLeavesPrimaryServing(cfg: Config, l: Loop, r: Round)
    requires Knows(cfg, l) && Shaped(cfg, r)
    ensures var t := Tick(cfg, l, r); !PrimaryFailed(t) || !OtherHealthy(cfg, t)
  {
    TargetIffHealthy(cfg, Observe(cfg, l, r), r.rng);
  }

  /** A round that changes the primary found it Failed and the new one, another cluster, Healthy. */
  lemma TickPromotes(cfg: Config, l: Loop, r: Round, t: Loop)
    requires Knows(cfg, l) && Shaped(cfg, r) && t == Tick(cfg, l, r) && t.primary != l.primary
    ensures
      && l.primary in cfg.names && t.status[l.primary] == Failed
      && t.primary in cfg.names && t.status[t.primary] == Healthy
  {
    TargetIffHealthy(cfg, Observe(cfg, l, r), r.rng);
  }

  /** Failed means wholly unreachable for the last `threshold` rounds, Healthy that the last round reached all. */
  lemma StatusMeans(cfg: Config, primary: Name, rs: seq<Round>, n: Name)
    requires ShapedAll(cfg, rs) && n in cfg.names
    ensures After(cfg, primary, rs).status[n] == Failed ==>
      && |rs| >= Limit(cfg)
      && forall j :: |rs| - Limit(cfg) <= j < |rs| ==> n in rs[j].probes && Down(rs[j].probes[n])
    ensures After(cfg, primary, rs).status[n] == Healthy ==>
      rs != [] && n in rs[|rs| - 1].probes && AllUp(rs[|rs| - 1].probes[n])
  {
    if rs != [] {
      assert Shaped(cfg, rs[|rs| - 1]);
      LoopTracksHistory(cfg, primary, rs, n);
      var h := History(rs, n);
      DownSuffixMeans(h);
      if DownSuffix(h) >= Limit(cfg) {
        forall j | |rs| - Limit(cfg) <= j < |rs| ensures n in rs[j].probes && Down(rs[j].probes[n]) {
          assert Shaped(cfg, rs[j]) && Down(h[j]) && h[j] == rs[j].probes[n];
        }
      }
    }
  }

  /**
   * A promotion replaces a primary that was wholly unreachable in the round that made it and the
   * `threshold - 1` rounds before it, by another cluster every endpoint of which answered.
   */
  lemma PromotionIsJustified(cfg: Config, primary: Name, rs: seq<Round>, r: Round)
    requires ShapedAll(cfg, rs) && Shaped(cfg, r)
    requires Tick(cfg, After(cfg, primary, rs), r).primary != After(cfg, primary, rs).primary
    ensures var p, q := After(cfg, primary, rs).primary, Tick(cfg, After(cfg, primary, rs), r).primary;
      && p in cfg.names && q in cfg.names && |rs| + 1 >= Limit(cfg)
      && (forall j :: |rs| + 1 - Limit(cfg) <= j <= |rs| ==> p in (rs + [r])[j].probes && Down((rs + [r])[j].probes[p]))
      && q in r.probes && AllUp(r.probes[q])
  {
    var l := After(cfg, primary, rs);
    var t := Tick(cfg, l, r);
    TickPromotes(cfg, l, r, t);
    AfterSnoc(cfg, primary, rs, r);
    StatusMeans(cfg, primary, rs + [r], l.primary);
    StatusMeans(cfg, primary, rs + [r], t.primary);
  }

  lemma AfterSnoc(cfg: Config, primary: Name, rs: seq<Round>, r: Round)
    requires ShapedAll(cfg, rs) && Shaped(cfg, r)
    ensures ShapedAll(cfg, rs + [r]) && After(cfg, primary, rs + [r]) == Tick(cfg, After(cfg, primary, rs), r)
  {
    assert (rs + [r])[..|rs|] == rs;
  }

  function Promotions(cfg: Config, primary: Name, rs: seq<Round>): nat
    requires ShapedAll(cfg, rs)
  {
    if rs == [] then 0
    else
      var before := rs[..|rs| - 1];
      Promotions(cfg, primary, before)
      + if After(cfg, primary, rs).primary != After(cfg, primary, before).primary then 1 else 0
  }

  function PrimaryFailures(l: Loop): nat { if l.primary in l.failures then l.failures[l.primary] else 0 }

  ghost predicate Grounded(cfg: Config, l: Loop)
    requires Knows(cfg, l)
  {
    forall n :: n in cfg.names ==>
      && (l.status[n] == Healthy ==> l.failures[n] == 0)
      && (l.status[n] == Failed ==> l.failures[n] >= Limit(cfg))
  }

  lemma {:induction false} RunGrounded(cfg: Config, primary: Name, rs: seq<Round>)
    requires ShapedAll(cfg, rs)
    ensures Grounded(cfg, After(cfg, primary, rs))
  {
    if rs != [] {
      assert Shaped(cfg, rs[0]);
      forall n | n in cfg.names { LoopTracksHistory(cfg, primary, rs, n); }
    }
  }

  /** One round adds at most one failure of the primary, and a promotion trades `threshold` of them for none. */
  lemma TickSpends(cfg: Config, l: Loop, r: Round)
    requires Knows(cfg, l) && Shaped(cfg, r) && Grounded(cfg, Tick(cfg, l, r))
    ensures var t := Tick(cfg, l, r);
      PrimaryFailures(t) + (if t.primary != l.primary then Limit(cfg) else 0) <= PrimaryFailures(l) + 1
  {
    var o := Observe(cfg, l, r);
    assert PrimaryFailures(o) <= PrimaryFailures(l) + 1;
    if Tick(cfg, l, r).primary != l.primary {
      TickPromotes(cfg, l, r, Tick(cfg, l, r));
    }
  }

  lemma Account(n: nat, f: nat, n': nat, f': nat, limit: nat, rounds: nat)
    requires n * limit + f <= rounds
    requires (n' == n && f' <= f + 1) || (n' == n + 1 && f' + limit <= f + 1)
    ensures n' * limit + f' <= rounds + 1
  {
    MulNext(n, limit);
  }

  /** Every promotion uses up `threshold` rounds, so there are never more than rounds / threshold of them. */
  lemma {:induction false} PromotionAccounting(cfg: Config, primary: Name, rs: seq<Round>)
    requires ShapedAll(cfg, rs)
    ensures Promotions(cfg, primary, rs) * Limit(cfg) + PrimaryFailures(After(cfg, primary, rs)) <= |rs|
  {
    if rs != [] {
      var before, r := rs[..|rs| - 1], rs[|rs| - 1];
      PromotionAccounting(cfg, primary, before);
      var l, t, n := After(cfg, primary, before), After(cfg, primary, rs), Promotions(cfg, primary, before);
      RunGrounded(cfg, primary, rs);
      TickSpends(cfg, l, r);
      Account(n, PrimaryFailures(l), Promotions(cfg, primary, rs), PrimaryFailures(t), Limit(cfg), |before|);
    }
  }

  /** The sequential strategy promotes the first healthy cluster in name order, the primary aside. */
  lemma FirstHealthyPromoted(cfg: Config, l: Loop, rng: nat) returns (i: nat)
    requires Knows(cfg, l) && cfg.strategy == Sequential && Target(cfg, l, rng).Some?
    ensures i < |cfg.names| && Target(cfg, l, rng) == Some(cfg.names[i])
    ensures cfg.names[i] != l.primary && l.status[cfg.names[i]] == Healthy
    ensures forall j :: 0 <= j < i ==> cfg.names[j] == l.primary || l.status[cfg.names[j]] != Healthy
  {
    i := SequentialFirst(cfg.names, View(cfg, l), l.primary, rng);
    forall j | 0 <= j < i ensures cfg.names[j] == l.primary || l.status[cfg.names[j]] != Healthy {
      assert !Eligible(View(cfg, l), l.primary, cfg.names[j]);
    }
  }

  /** The latency map the loop starts with is never filled in. */
  lemma {:induction false} LatencyNeverMeasured(cfg: Config, primary: Name, rs: seq<Round>, n: Name)
    requires ShapedAll(cfg, rs) && n in cfg.names
    ensures After(cfg, primary, rs).latency[n] == None
  {
    if rs != [] { LatencyNeverMeasured(cfg, primary, rs[..|rs| - 1], n); }
  }

  /** Hence, in every run, the latency strategy would promote what the sequential one would: the first healthy name. */
  lemma LatencyIsSequential(cfg: Config, primary: Name, rs: seq<Round>, rng: nat)
    requires ShapedAll(cfg, rs)
    ensures var l := After(cfg, primary, rs);
      Target(cfg.(strategy := LatencyBased), l, rng) == Target(cfg.(strategy := Sequential), l, rng)
  {
    var l := After(cfg, primary, rs);
    forall n | n in cfg.names ensures l.latency[n] == None { LatencyNeverMeasured(cfg, primary, rs, n); }
    UnmeasuredIsSequential(cfg, l, rng);
  }

  lemma UnmeasuredIsSequential(cfg: Config, l: Loop, rng: nat)
    requires Knows(cfg, l) && forall n :: n in cfg.names ==> l.latency[n] == None
    ensures Target(cfg.(strategy := LatencyBased), l, rng) == Target(cfg.(strategy := Sequential), l, rng)
  {
    TargetOf(cfg, l, LatencyBased, rng);
    TargetOf(cfg, l, Sequential, rng);
    FirstIsLeast(Candidates(cfg.names, View(cfg, l), l.primary), rng);
  }

  lemma TargetOf(cfg: Config, l: Loop, strategy: Strategy, rng: nat)
    requires Knows(cfg, l)
    ensures Target(cfg.(strategy := strategy), l, rng)
      == Choose(strategy, Candidates(cfg.names, View(cfg, l), l.primary), rng)
  {
    assert View(cfg.(strategy := strategy), l) == View(cfg, l);
  }

  /** With no latency known the first candidate has a least one. */
  lemma FirstIsLeast(cs: seq<Candidate>, rng: nat)
    requires forall i :: 0 <= i < |cs| ==> cs[i].latencyMs == None
    ensures Choose(LatencyBased, cs, rng) == Choose(Sequential, cs, rng)
  {
    if cs != [] {
      var i := FirstMin(cs);
      assert LatencyKey(cs[i]) == LatencyKey(cs[0]);
    }
  }

  /** The share of a healthy cluster whose latency is unknown. */
  const UNMEASURED_SHARE: real := 1.0 / 1001.0

  lemma {:induction false} UniformShares(cs: seq<Candidate>, i: nat)
    requires i <= |cs| && forall j :: 0 <= j < |cs| ==> cs[j].latencyMs == None && cs[j].status == Healthy
    ensures Prefix(Scores(cs), i) == i as real * UNMEASURED_SHARE
  {
    if i > 0 {
      UniformShares(cs, i - 1);
      assert Score(cs[i - 1]) == UNMEASURED_SHARE;
    }
  }

  /** The drawn point falls on the `i`-th of `n` equal shares. */
  predicate Owns(n: nat, rng: nat, i: nat)
    requires n > 0
  {
    var point := Draw(rng, n as real * UNMEASURED_SHARE);
    point <= (i + 1) as real * UNMEASURED_SHARE && (i == 0 || i as real * UNMEASURED_SHARE < point)
  }

  /** The candidates the loop selects from. */
  function Selectable(cfg: Config, l: Loop): seq<Candidate>
    requires Knows(cfg, l)
  {
    Candidates(cfg.names, View(cfg, l), l.primary)
  }

  /**
   * In every run the weighted strategy is a uniform one: the healthy clusters own equal shares of
   * the line, and the one the drawn point falls on is promoted.
   */
  lemma WeightedIsUniform(cfg: Config, primary: Name, rs: seq<Round>, rng: nat) returns (i: nat)
    requires ShapedAll(cfg, rs) && Selectable(cfg, After(cfg, primary, rs)) != []
    ensures var l := After(cfg, primary, rs);
      var cs := Selectable(cfg, l);
      && i < |cs| && Target(cfg.(strategy := WeightedRandom), l, rng) == Some(cs[i].name)
      && forall j: nat :: j < |cs| ==> (Owns(|cs|, rng, j) <==> j == i)
  {
    var l := After(cfg, primary, rs);
    forall n | n in cfg.names ensures l.latency[n] == None { LatencyNeverMeasured(cfg, primary, rs, n); }
    TargetOf(cfg, l, WeightedRandom, rng);
    i := UniformOwner(Selectable(cfg, l), rng);
  }

  lemma UniformOwner(cs: seq<Candidate>, rng: nat) returns (i: nat)
    requires cs != [] && forall j :: 0 <= j < |cs| ==> cs[j].latencyMs == None && cs[j].status == Healthy
    ensures i < |cs| && Choose(WeightedRandom, cs, rng) == Some(cs[i].name)
    ensures forall j: nat :: j < |cs| ==> (Owns(|cs|, rng, j) <==> j == i)
  {
    UniformShares(cs, |cs|);
    ScoresPositive(cs);
    i := WeightedIndex(cs, rng);
    forall j: nat | j < |cs| ensures Owns(|cs|, rng, j) <==> j == i {
      WeightedByScore(cs, rng, j);
      UniformShares(cs, j);
      UniformShares(cs, j + 1);
    }
  }

  // ---------------------------------------------------------------- the monitor object's own check

  function CheckAll(threshold: nat, cs: map<Name, Cluster>, probes: map<Name, seq<Probe>>): map<Name, Cluster>
    requires forall n :: n in cs ==> n in probes
  {
    map n | n in cs :: CheckRule(threshold, cs[n], probes[n])
  }

  function CheckedAll(cfg: Config, cs: map<Name, Cluster>, rs: seq<Round>): (t: map<Name, Cluster>)
    requires ShapedAll(cfg, rs) && forall n :: n in cs ==> n in cfg.names
    ensures forall n :: n in t <==> n in cs
  {
    if rs == [] then cs
    else
      assert Shaped(cfg, rs[|rs| - 1]);
      CheckAll(cfg.threshold, CheckedAll(cfg, cs, rs[..|rs| - 1]), rs[|rs| - 1].probes)
  }

  lemma {:induction false} CheckedHistory(cfg: Config, cs: map<Name, Cluster>, rs: seq<Round>, n: Name)
    requires ShapedAll(cfg, rs) && (forall m :: m in cs ==> m in cfg.names) && n in cs
    ensures CheckedAll(cfg, cs, rs)[n] == Checked(cfg.threshold, cs[n], History(rs, n))
  {
    if rs != [] {
      CheckedHistory(cfg, cs, rs[..|rs| - 1], n);
      HistorySnoc(rs, n);
      assert Shaped(cfg, rs[|rs| - 1]);
    }
  }

  /** `check_all_clusters` and the loop, fed the same rounds, hold the same status and counter for every cluster. */
  lemma MonitorAndLoopAgree(cfg: Config, primary: Name, rs: seq<Round>, n: Name)
    requires ShapedAll(cfg, rs) && (forall m :: m in cfg.names ==> m in cfg.endpoints) && n in cfg.names
    ensures var initial := map m | m in cfg.names :: Fresh(m, cfg.endpoints[m]);
      var c, l := CheckedAll(cfg, initial, rs)[n], After(cfg, primary, rs);
      c.status == l.status[n] && c.failures == l.failures[n]
  {
    var cs := map m | m in cfg.names :: Fresh(m, cfg.endpoints[m]);
    CheckedHistory(cfg, cs, rs, n);
    LoopedHistory(cfg, primary, rs, n);
    RulesBisimilar(cfg.threshold, n, cfg.endpoints[n], History(rs, n));
  }
}
