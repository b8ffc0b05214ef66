/** The monitor object: atomics updated in place by the check handler and the failover trigger. */
module FailoverShim {
  import opened Failover

  function Encode(p: Phase): int {
    match p
    case Healthy => 0
    case Suspect => 1
    case FailingOver => 2
    case FailedOver => 3
    case Recovering => 4
    case Recovered => 5
  }

  function Decode(code: int): (p: Phase)
    ensures 0 <= code <= 5 ==> Encode(p) == code
    ensures !(0 <= code <= 5) ==> p == Healthy
  {
    if code == 1 then Suspect
    else if code == 2 then FailingOver
    else if code == 3 then FailedOver
    else if code == 4 then Recovering
    else if code == 5 then Recovered
    else Healthy
  }

  class Monitor {
    const cfg: Config
    var consecutiveFailures: nat
    var failoverCount: nat
    var state: int
    var currentPrimary: string
    var consecutivePrimaryHealthy: nat

    ghost function Abs(): Node
      reads this
    {
      Node(consecutiveFailures, failoverCount, Decode(state), currentPrimary, consecutivePrimaryHealthy)
    }

    constructor (cfg: Config)
      ensures this.cfg == cfg && Abs() == Start(cfg)
    {
      this.cfg := cfg;
      consecutiveFailures, failoverCount, state := 0, 0, 0;
      currentPrimary, consecutivePrimaryHealthy := cfg.primary, 0;
    }

    method SetState(p: Phase)
      modifies this`state
      ensures Decode(state) == p
    {
      state := Encode(p);
    }

    method HandleCheckResult(healthy: bool, originalUp: bool, promotionWorks: bool)
      modifies this
      ensures Abs() == Step(cfg, old(Abs()), Check(healthy, originalUp, promotionWorks))
    {
      if healthy {
        consecutiveFailures := 0;
        var phase := Decode(state);
        if phase == FailedOver && currentPrimary != cfg.primary {
          consecutivePrimaryHealthy := consecutivePrimaryHealthy + 1;
          if consecutivePrimaryHealthy >= FAILBACK_CHECKS && originalUp {
            currentPrimary := cfg.primary;
            SetState(Recovered);
            consecutivePrimaryHealthy := 0;
          }
        } else if phase == Suspect || phase == FailingOver {
          SetState(Healthy);
          consecutivePrimaryHealthy := 0;
        } else {
          consecutivePrimaryHealthy := 0;
        }
      } else {
        consecutivePrimaryHealthy := 0;
        consecutiveFailures := consecutiveFailures + 1;
        if consecutiveFailures >= cfg.threshold {
          TriggerFailover(promotionWorks);
        } else {
          SetState(Suspect);
        }
      }
    }

    method TriggerFailover(promotionWorks: bool)
      modifies this`state, this`currentPrimary, this`failoverCount, this`consecutiveFailures
      ensures Abs() == if promotionWorks
        then old(Abs()).(failures := 0, failovers := old(failoverCount) + 1, phase := FailedOver,
                         current := cfg.replica)
        else old(Abs()).(phase := FailingOver)
    {
      SetState(FailingOver);
      if promotionWorks {
        currentPrimary := cfg.replica;
        failoverCount := failoverCount + 1;
        SetState(FailedOver);
        consecutiveFailures := 0;
      } else {
        SetState(FailingOver);
      }
    }

    /** The check loop: one observation per tick, in order. */
    method Watch(checks: seq<Check>)
      requires Abs() == Start(cfg)
      modifies this
      ensures Abs() == After(cfg, checks) && Consistent(cfg, Abs())
    {
      for i := 0 to |checks|
        invariant Abs() == After(cfg, checks[..i])
      {
        HandleCheckResult(checks[i].healthy, checks[i].originalUp, checks[i].promotes);
        assert checks[..i + 1][..i] == checks[..i];
      }
      assert checks[..|checks|] == checks;
      RunConsistent(cfg, checks);
    }
  }

  /** The codes of the shared atomic. */
  lemma Codes()
    ensures Decode(0) == Healthy && Decode(1) == Suspect && Decode(2) == FailingOver
    ensures Decode(3) == FailedOver && Decode(4) == Recovering && Decode(5) == Recovered
  {
  }
}
