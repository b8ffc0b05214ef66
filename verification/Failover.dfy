/** TCP failover and failback of crates/failover-shim: one step per health check, runs from start-up. */
module Failover {
  import opened Base

  datatype Phase = Healthy | Suspect | FailingOver | FailedOver | Recovering | Recovered

  datatype Config = Config(primary: string, replica: string, threshold: nat)

  /** The shared atomics plus the loop's own count of healthy checks on the promoted node. */
  datatype Node = Node(failures: nat, failovers: nat, phase: Phase, current: string, streak: nat)

  /** The observations of one round: is the current primary up, is the original one up, does promotion work. */
  datatype Check = Check(healthy: bool, originalUp: bool, promotes: bool)

  const FAILBACK_CHECKS: nat := 10

  function Limit(cfg: Config): nat { Max(1, cfg.threshold) }

  function Start(cfg: Config): Node { Node(0, 0, Healthy, cfg.primary, 0) }

  /** This check triggers a failover that succeeds. */
  predicate Promotes(cfg: Config, n: Node, c: Check) {
    !c.healthy && n.failures + 1 >= cfg.threshold && c.promotes
  }

  /** This check hands service back to the original primary. */
  predicate FailsBack(cfg: Config, n: Node, c: Check) {
    && c.healthy && n.phase == FailedOver && n.current != cfg.primary
    && n.streak + 1 >= FAILBACK_CHECKS && c.originalUp
  }

  function Step(cfg: Config, n: Node, c: Check): Node {
    if c.healthy then
      var calm := n.(failures := 0);
      if n.phase == FailedOver && n.current != cfg.primary then
        if FailsBack(cfg, n, c) then calm.(current := cfg.primary, phase := Recovered, streak := 0)
        else calm.(streak := n.streak + 1)
      else if n.phase == Suspect || n.phase == FailingOver then calm.(phase := Healthy, streak := 0)
      else calm.(streak := 0)
    else if n.failures + 1 < cfg.threshold then
      n.(failures := n.failures + 1, phase := Suspect, streak := 0)
    else if c.promotes then
      Node(0, n.failovers + 1, FailedOver, cfg.replica, 0)
    else
      n.(failures := n.failures + 1, phase := FailingOver, streak := 0)
  }

  function From(cfg: Config, n: Node, cs: seq<Check>): Node {
    if cs == [] then n else Step(cfg, From(cfg, n, cs[..|cs| - 1]), cs[|cs| - 1])
  }

  /** The state after the checks `cs`, starting from a fresh monitor. */
  function After(cfg: Config, cs: seq<Check>): Node { From(cfg, Start(cfg), cs) }

  predicate PromotesAt(cfg: Config, cs: seq<Check>, i: nat)
    requires i < |cs|
  {
    Promotes(cfg, After(cfg, cs[..i]), cs[i])
  }

  predicate FailsBackAt(cfg: Config, cs: seq<Check>, i: nat)
    requires i < |cs|
  {
    FailsBack(cfg, After(cfg, cs[..i]), cs[i])
  }

  // ---------------------------------------------------------------- counting

  function Bit(b: bool): nat { if b then 1 else 0 }

  function Healthies(cs: seq<Check>): nat {
    if cs == [] then 0 else Healthies(cs[..|cs| - 1]) + Bit(cs[|cs| - 1].healthy)
  }

  function Failbacks(cfg: Config, cs: seq<Check>): nat {
    if cs == [] then 0 else Failbacks(cfg, cs[..|cs| - 1]) + Bit(FailsBackAt(cfg, cs, |cs| - 1))
  }

  // ---------------------------------------------------------------- invariants of every run

  /** The phase is a function of the failure counter, and it fixes where traffic goes. */
  ghost predicate Consistent(cfg: Config, n: Node) {
    && (n.phase == Suspect <==> 0 < n.failures < Limit(cfg))
    && (n.phase == FailingOver <==> n.failures >= Limit(cfg))
    && (n.phase !in {Suspect, FailingOver} ==> n.failures == 0)
    && (n.phase == FailedOver ==> n.current == cfg.replica)
    && (n.phase == Recovered ==> n.current == cfg.primary)
    && n.phase != Recovering
    && n.current in {cfg.primary, cfg.replica}
    && (n.streak > 0 ==> n.phase == FailedOver && n.current != cfg.primary)
  }

  lemma {:induction false} RunConsistent(cfg: Config, cs: seq<Check>)
    ensures Consistent(cfg, After(cfg, cs))
  {
    if cs != [] { RunConsistent(cfg, cs[..|cs| - 1]); }
  }

  /** The failure counter's worth of checks at the end all failed, on the current primary, without a promotion. */
  lemma {:induction false} FailuresAreSuffix(cfg: Config, cs: seq<Check>)
    ensures var f := After(cfg, cs).failures;
      && f <= |cs|
      && (forall i :: |cs| - f <= i < |cs| ==>
            && !cs[i].healthy && !PromotesAt(cfg, cs, i)
            && After(cfg, cs[..i]).current == After(cfg, cs).current)
  {
    if cs != [] {
      var before, c := cs[..|cs| - 1], cs[|cs| - 1];
      var n := After(cfg, before);
      FailuresAreSuffix(cfg, before);
      if !c.healthy && !Promotes(cfg, n, c) {
        forall i | |before| - n.failures <= i < |before|
          ensures !cs[i].healthy && !PromotesAt(cfg, cs, i) && After(cfg, cs[..i]).current == n.current
        {
          assert before[..i] == cs[..i] && before[i] == cs[i];
        }
      }
    }
  }

  /** That suffix is the longest: what precedes it is a healthy check or a successful promotion. */
  lemma {:induction false} FailuresAreMaximal(cfg: Config, cs: seq<Check>)
    ensures var f := After(cfg, cs).failures;
      f < |cs| ==> cs[|cs| - f - 1].healthy || PromotesAt(cfg, cs, |cs| - f - 1)
  {
    if cs != [] {
      var before := cs[..|cs| - 1];
      var n := After(cfg, before);
      FailuresAreMaximal(cfg, before);
      if After(cfg, cs).failures == n.failures + 1 && n.failures < |before| {
        var j := |before| - n.failures - 1;
        assert before[..j] == cs[..j] && before[j] == cs[j];
      }
    }
  }

  /** A node is replaced only after `threshold` consecutive failed checks, all of them of that node. */
  lemma PromotionIsEarned(cfg: Config, cs: seq<Check>, i: nat)
    requires i < |cs| && PromotesAt(cfg, cs, i)
    ensures i + 1 >= Limit(cfg)
    ensures forall j :: i + 1 - Limit(cfg) <= j <= i ==>
      !cs[j].healthy && After(cfg, cs[..j]).current == After(cfg, cs[..i]).current
    ensures After(cfg, cs[..i + 1]).current == cfg.replica
  {
    FailuresAreSuffix(cfg, cs[..i]);
    assert forall j {:trigger cs[..j]} :: 0 <= j <= i ==> cs[..i][..j] == cs[..j];
    assert cs[..i + 1][..i] == cs[..i];
    forall j | i + 1 - Limit(cfg) <= j <= i
      ensures !cs[j].healthy && After(cfg, cs[..j]).current == After(cfg, cs[..i]).current
    {
      if j < i { assert cs[..i][j] == cs[j]; }
    }
  }

  /** The healthy streak counts checks made while failed over, all of them healthy and off the original primary. */
  lemma {:induction false} StreakIsSuffix(cfg: Config, cs: seq<Check>)
    ensures var k := After(cfg, cs).streak;
      && k <= |cs|
      && forall i :: |cs| - k <= i < |cs| ==>
           && cs[i].healthy && After(cfg, cs[..i]).phase == FailedOver
           && After(cfg, cs[..i]).current == cfg.replica != cfg.primary
  {
    if cs != [] {
      var before := cs[..|cs| - 1];
      StreakIsSuffix(cfg, before);
      RunConsistent(cfg, before);
      assert forall i {:trigger cs[..i]} :: 0 <= i <= |before| ==> before[..i] == cs[..i];
    }
  }

  /** That streak is the longest: the check before it failed, found service elsewhere, or handed it back. */
  lemma {:induction false} StreakIsMaximal(cfg: Config, cs: seq<Check>)
    ensures var k := After(cfg, cs).streak;
      k < |cs| ==>
        var i := |cs| - k - 1;
        !cs[i].healthy || FailsBackAt(cfg, cs, i)
        || !(After(cfg, cs[..i]).phase == FailedOver && After(cfg, cs[..i]).current != cfg.primary)
  {
    if cs != [] {
      var before := cs[..|cs| - 1];
      var n := After(cfg, before);
      StreakIsMaximal(cfg, before);
      if After(cfg, cs).streak == n.streak + 1 && n.streak < |before| {
        var i := |before| - n.streak - 1;
        assert before[..i] == cs[..i] && before[i] == cs[i];
      }
    }
  }

  /** Check `i` is the last of `k` healthy checks of the replica in a row, made while failed over. */
  ghost predicate Steady(cfg: Config, cs: seq<Check>, i: nat, k: nat)
    requires i < |cs|
  {
    && i + 1 >= k && cfg.replica != cfg.primary
    && forall j :: i + 1 - k <= j <= i ==>
         cs[j].healthy && After(cfg, cs[..j]).phase == FailedOver && After(cfg, cs[..j]).current == cfg.replica
  }

  lemma FailbackMoves(cfg: Config, cs: seq<Check>, j: nat)
    requires j < |cs|
    ensures FailsBackAt(cfg, cs, j) ==> After(cfg, cs[..j + 1]).current == cfg.primary
  {
    assert cs[..j + 1][..j] == cs[..j];
  }

  /** Ten steady checks leave a streak of nine before the last of them. */
  lemma SteadyStreak(cfg: Config, cs: seq<Check>, i: nat)
    requires i < |cs| && Steady(cfg, cs, i, 10)
    ensures After(cfg, cs[..i]).streak >= 9
  {
    var before := cs[..i];
    StreakIsMaximal(cfg, before);
    assert forall j {:trigger cs[..j]} :: 0 <= j <= i ==> before[..j] == cs[..j];
    var j := i - After(cfg, before).streak - 1;
    if i - 9 <= j {
      FailbackMoves(cfg, cs, j);
    }
  }

  /** Exactly when service goes back: at a check with the original up that ends ten steady ones. */
  lemma FailbackIff(cfg: Config, cs: seq<Check>, i: nat)
    requires i < |cs|
    ensures FailsBackAt(cfg, cs, i) <==> cs[i].originalUp && Steady(cfg, cs, i, 10)
  {
    if FailsBackAt(cfg, cs, i) {
      FailbackIsEarned(cfg, cs, i);
      RunConsistent(cfg, cs[..i]);
    } else if Steady(cfg, cs, i, 10) {
      SteadyStreak(cfg, cs, i);
    }
  }

  /** Check `i` is the last of `k` failed ones in a row, the earlier of which led to no failover. */
  ghost predicate Failing(cfg: Config, cs: seq<Check>, i: nat, k: nat)
    requires i < |cs|
  {
    i + 1 >= k && forall j :: i + 1 - k <= j <= i ==> !cs[j].healthy && (j < i ==> !PromotesAt(cfg, cs, j))
  }

  lemma PromotesBefore(cfg: Config, cs: seq<Check>, i: nat, j: nat)
    requires j < i < |cs|
    ensures PromotesAt(cfg, cs[..i], j) <==> PromotesAt(cfg, cs, j)
  {
    assert cs[..i][..j] == cs[..j];
  }

  /** So many failed checks in a row have all been counted when the last of them is made. */
  lemma FailingCounts(cfg: Config, cs: seq<Check>, i: nat, k: nat)
    requires i < |cs| && k >= 1 && Failing(cfg, cs, i, k)
    ensures After(cfg, cs[..i]).failures >= k - 1
  {
    var f := After(cfg, cs[..i]).failures;
    FailuresAreSuffix(cfg, cs[..i]);
    FailuresAreMaximal(cfg, cs[..i]);
    if f < k - 1 {
      PromotesBefore(cfg, cs, i, i - f - 1);
    }
  }

  /** Exactly when a failover succeeds: the promotion works and ends `threshold` failed checks without another. */
  lemma PromotionIff(cfg: Config, cs: seq<Check>, i: nat)
    requires i < |cs|
    ensures PromotesAt(cfg, cs, i) <==> cs[i].promotes && Failing(cfg, cs, i, Limit(cfg))
  {
    if PromotesAt(cfg, cs, i) {
      FailuresAreSuffix(cfg, cs[..i]);
      forall j | i + 1 - Limit(cfg) <= j < i ensures !cs[j].healthy && !PromotesAt(cfg, cs, j) {
        PromotesBefore(cfg, cs, i, j);
        assert cs[..i][j] == cs[j];
      }
    } else if Failing(cfg, cs, i, Limit(cfg)) {
      FailingCounts(cfg, cs, i, Limit(cfg));
    }
  }

  /** Service goes back only after ten healthy checks of the replica in a row, the original being up at the last. */
  lemma FailbackIsEarned(cfg: Config, cs: seq<Check>, i: nat)
    requires i < |cs| && FailsBackAt(cfg, cs, i)
    ensures i + 1 >= FAILBACK_CHECKS && cs[i].originalUp
    ensures forall j :: i + 1 - FAILBACK_CHECKS <= j <= i ==>
      cs[j].healthy && After(cfg, cs[..j]).phase == FailedOver && After(cfg, cs[..j]).current == cfg.replica
    ensures After(cfg, cs[..i + 1]).current == cfg.primary
  {
    StreakIsSuffix(cfg, cs[..i]);
    RunConsistent(cfg, cs[..i]);
    assert forall j {:trigger cs[..j]} :: 0 <= j <= i ==> cs[..i][..j] == cs[..j];
    assert cs[..i + 1][..i] == cs[..i];
    forall j | i + 1 - FAILBACK_CHECKS <= j <= i
      ensures cs[j].healthy && After(cfg, cs[..j]).phase == FailedOver && After(cfg, cs[..j]).current == cfg.replica
    {
      if j < i { assert cs[..i][j] == cs[j]; }
    }
  }

  /** Failed checks used up by the failovers so far and by the current run of failures. */
  function Spent(cfg: Config, n: Node): nat { n.failovers * Limit(cfg) + n.failures }

  lemma StepSpends(cfg: Config, n: Node, c: Check)
    ensures Spent(cfg, Step(cfg, n, c)) <= Spent(cfg, n) + Bit(!c.healthy)
  {
    MulNext(n.failovers, Limit(cfg));
  }

  /** Failed checks pay for failovers, healthy ones for failbacks, and every failback needs its own failover. */
  lemma {:induction false} Accounting(cfg: Config, cs: seq<Check>)
    ensures var n := After(cfg, cs);
      && n.failovers * Limit(cfg) + n.failures <= |cs| - Healthies(cs)
      && FAILBACK_CHECKS * Failbacks(cfg, cs) + n.streak <= Healthies(cs)
      && Failbacks(cfg, cs) + Bit(n.phase == FailedOver) <= n.failovers
  {
    if cs != [] {
      var before := cs[..|cs| - 1];
      Accounting(cfg, before);
      StepSpends(cfg, After(cfg, before), cs[|cs| - 1]);
      assert Spent(cfg, After(cfg, cs)) <= |cs| - Healthies(cs);
    }
  }

  /** A bound on flapping: each failover-failback cycle costs `threshold` failed and ten healthy checks. */
  lemma FlappingBound(cfg: Config, cs: seq<Check>)
    ensures Failbacks(cfg, cs) * Limit(cfg) + Failbacks(cfg, cs) * FAILBACK_CHECKS <= |cs|
  {
    Accounting(cfg, cs);
    MulMonotone(Failbacks(cfg, cs), After(cfg, cs).failovers, Limit(cfg));
  }

  // ---------------------------------------------------------------- when failback happens

  /** Every check finds the current and the original primary up. */
  ghost predicate AllUp(cs: seq<Check>) { forall c :: c in cs ==> c.healthy && c.originalUp }

  lemma {:induction false} UpFromFailedOver(cfg: Config, n: Node, cs: seq<Check>)
    requires AllUp(cs) && n.phase == FailedOver && n.current == cfg.replica != cfg.primary
    ensures var m := From(cfg, n, cs);
      if cs != [] && n.streak + |cs| >= FAILBACK_CHECKS then m.phase == Recovered && m.current == cfg.primary
      else m.phase == FailedOver && m.current == cfg.replica && m.streak == n.streak + |cs|
  {
    if cs != [] {
      assert cs[|cs| - 1] in cs;
      UpFromFailedOver(cfg, n, cs[..|cs| - 1]);
    }
  }

  lemma {:induction false} UpFromElsewhere(cfg: Config, n: Node, cs: seq<Check>)
    requires AllUp(cs) && n.phase != FailedOver
    ensures From(cfg, n, cs).current == n.current && From(cfg, n, cs).phase != FailedOver
  {
    if cs != [] {
      assert cs[|cs| - 1] in cs;
      UpFromElsewhere(cfg, n, cs[..|cs| - 1]);
    }
  }

  /**
   * While the replica serves, ten or more checks with everything up return service to the original
   * primary if and only if the monitor is still in the FailedOver phase when they begin.
   */
  lemma FailbackOnlyFromFailedOver(cfg: Config, n: Node, cs: seq<Check>)
    requires AllUp(cs) && |cs| >= FAILBACK_CHECKS && n.current == cfg.replica != cfg.primary
    ensures From(cfg, n, cs).current == cfg.primary <==> n.phase == FailedOver
  {
    if n.phase == FailedOver {
      UpFromFailedOver(cfg, n, cs);
    } else {
      UpFromElsewhere(cfg, n, cs);
    }
  }

  /**
   * The phase is FailedOver exactly when some promotion happened and every check since was healthy
   * and no failback.
   */
  lemma {:induction false} FailedOverIff(cfg: Config, cs: seq<Check>)
    ensures After(cfg, cs).phase == FailedOver <==> exists i: nat :: i < |cs| && HeldSince(cfg, cs, i)
  {
    if cs != [] {
      var before, last := cs[..|cs| - 1], |cs| - 1;
      FailedOverIff(cfg, before);
      forall i: nat | i < last
        ensures HeldSince(cfg, cs, i) <==> HeldSince(cfg, before, i) && Quiet(cfg, cs, last)
      {
        HeldNext(cfg, cs, i);
      }
      assert HeldSince(cfg, cs, last) <==> PromotesAt(cfg, cs, last);
    }
  }

  /** Check `i` hands service back, and all later ones are healthy. */
  ghost predicate RestoredSince(cfg: Config, cs: seq<Check>, i: nat)
    requires i < |cs|
  {
    FailsBackAt(cfg, cs, i) && forall j :: i < j < |cs| ==> cs[j].healthy
  }

  /** The phase is Recovered exactly when service was handed back and every check since was healthy. */
  lemma {:induction false} RecoveredIff(cfg: Config, cs: seq<Check>)
    ensures After(cfg, cs).phase == Recovered <==> exists i: nat :: i < |cs| && RestoredSince(cfg, cs, i)
  {
    if cs != [] {
      var before, last := cs[..|cs| - 1], |cs| - 1;
      RecoveredIff(cfg, before);
      forall i: nat | i < last
        ensures RestoredSince(cfg, cs, i) <==> RestoredSince(cfg, before, i) && cs[last].healthy
      {
        assert before[..i] == cs[..i] && before[i] == cs[i];
        assert forall j :: i < j < last ==> before[j] == cs[j];
      }
      assert RestoredSince(cfg, cs, last) <==> FailsBackAt(cfg, cs, last);
    }
  }

  /** Check `j` is healthy and hands nothing back. */
  predicate Quiet(cfg: Config, cs: seq<Check>, j: nat)
    requires j < |cs|
  {
    cs[j].healthy && !FailsBackAt(cfg, cs, j)
  }

  /** Check `i` promotes, and all later ones are quiet. */
  ghost predicate HeldSince(cfg: Config, cs: seq<Check>, i: nat)
    requires i < |cs|
  {
    PromotesAt(cfg, cs, i) && forall j: nat :: i < j < |cs| ==> Quiet(cfg, cs, j)
  }

  lemma HeldNext(cfg: Config, cs: seq<Check>, i: nat)
    requires i < |cs| - 1
    ensures HeldSince(cfg, cs, i) <==> HeldSince(cfg, cs[..|cs| - 1], i) && Quiet(cfg, cs, |cs| - 1)
  {
    var before := cs[..|cs| - 1];
    assert before[..i] == cs[..i];
    forall j: nat | j < |before| ensures Quiet(cfg, before, j) <==> Quiet(cfg, cs, j) {
      assert before[..j] == cs[..j];
    }
  }

  /** That phase can be lost: after one failed check the replica stays in charge while everything is up. */
  lemma StrandedOnReplica(cs: seq<Check>)
    requires AllUp(cs)
    ensures var cfg := Config("a:1", "b:2", 2);
      var bad := Check(false, true, true);
      After(cfg, [bad, bad]).phase == FailedOver && From(cfg, After(cfg, [bad, bad, bad]), cs).current == "b:2"
  {
    var cfg := Config("a:1", "b:2", 2);
    var bad := Check(false, true, true);
    assert [bad][..0] == [] && [bad, bad][..1] == [bad] && [bad, bad, bad][..2] == [bad, bad];
    assert After(cfg, []) == Start(cfg);
    assert After(cfg, [bad]) == Node(1, 0, Suspect, "a:1", 0);
    assert After(cfg, [bad, bad]) == Node(0, 1, FailedOver, "b:2", 0);
    assert After(cfg, [bad, bad, bad]) == Node(1, 1, Suspect, "b:2", 0);
    UpFromElsewhere(cfg, After(cfg, [bad, bad, bad]), cs);
  }
}
