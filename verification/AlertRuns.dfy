/** Whole runs of `process_alert`: deduplication and delivery together, with the cleaner interleaved. */
module AlertRuns {
  import opened Base
  import opened Text
  import opened Alerting
  import opened AlertDelivery
  import AlertingShim

  datatype Setup = Setup(window: nat, cfg: Config, hasClient: bool)

  /** A step of the deduplication; recording an accepted alert goes on to deliver it. */
  datatype Turn = Turn(event: Event, net: Network, at: Clock)

  datatype Pipe = Pipe(dedup: State, sent: nat, failed: nat, endpoints: map<string, Endpoint>)

  const IDLE := Pipe(FRESH, 0, 0, map[])

  function Events(xs: seq<Turn>): (es: seq<Event>)
    ensures |es| == |xs| && forall i :: 0 <= i < |es| ==> es[i] == xs[i].event
  {
    seq(|xs|, i requires 0 <= i < |xs| => xs[i].event)
  }

  /** The outcomes a step adds: those of the alert it records, if any. */
  ghost function Delivered(u: Setup, s: State, x: Turn): seq<Outcome> {
    if x.event.op.Record? && s.inFlight.Some?
    then Outcomes(u.cfg, u.hasClient, s.inFlight.value.severity, x.net, x.at)
    else []
  }

  lemma {:induction false} SuccessesBound(os: seq<Outcome>)
    ensures Successes(os) <= |os|
  {
    if os != [] { SuccessesBound(os[..|os| - 1]); }
  }

  ghost function Process(u: Setup, p: Pipe, x: Turn): Pipe {
    var os := Delivered(u, p.dedup, x);
    SuccessesBound(os);
    Pipe(Step(u.window, p.dedup, x.event), p.sent + Successes(os), p.failed + |os| - Successes(os),
         SettleAll(u.cfg, p.endpoints, os))
  }

  ghost function ProcessAll(u: Setup, xs: seq<Turn>): Pipe {
    if xs == [] then IDLE else Process(u, ProcessAll(u, xs[..|xs| - 1]), xs[|xs| - 1])
  }

  // ---------------------------------------------------------------- what a run amounts to

  /** The alerts accepted and recorded, in order. */
  function Accepted(window: nat, es: seq<Event>): seq<Alert> {
    if es == [] then []
    else
      var s := After(window, es[..|es| - 1]);
      Accepted(window, es[..|es| - 1])
      + if es[|es| - 1].op.Record? && s.inFlight.Some? then [s.inFlight.value] else []
  }

  /** The alerts offered while none was in flight. */
  function Offered(window: nat, es: seq<Event>): nat {
    if es == [] then 0
    else
      Offered(window, es[..|es| - 1])
      + if es[|es| - 1].op.Check? && After(window, es[..|es| - 1]).inFlight.None? then 1 else 0
  }

  /** Those of them suppressed by the full-history rule. */
  ghost function Suppressions(window: nat, es: seq<Event>): nat {
    if es == [] then 0
    else
      var before, e := es[..|es| - 1], es[|es| - 1];
      Suppressions(window, before)
      + if e.op.Check? && After(window, before).inFlight.None?
           && Suppressed(window, Log(window, before), DedupKey(e.op.alert), e.now)
        then 1 else 0
  }

  /** Deliveries due: one for each webhook that accepts each alert. */
  function Due(cfg: Config, alerts: seq<Alert>): nat {
    if alerts == [] then 0
    else Due(cfg, alerts[..|alerts| - 1]) + |Route(cfg.webhooks, alerts[|alerts| - 1].severity)|
  }

  /** The outcomes of all deliveries of a run, in order. */
  ghost function AllOutcomes(u: Setup, xs: seq<Turn>): seq<Outcome> {
    if xs == [] then []
    else
      var before, x := xs[..|xs| - 1], xs[|xs| - 1];
      AllOutcomes(u, before) + Delivered(u, After(u.window, Events(before)), x)
  }

  lemma EventsSnoc(xs: seq<Turn>)
    requires xs != []
    ensures Events(xs)[..|xs| - 1] == Events(xs[..|xs| - 1])
  {
  }

  lemma {:induction false} RunDedup(u: Setup, xs: seq<Turn>)
    ensures ProcessAll(u, xs).dedup == After(u.window, Events(xs))
  {
    if xs != [] {
      RunDedup(u, xs[..|xs| - 1]);
      EventsSnoc(xs);
    }
  }

  lemma {:induction false} SuccessesAppend(a: seq<Outcome>, b: seq<Outcome>)
    ensures Successes(a + b) == Successes(a) + Successes(b)
  {
    if b == [] {
      assert a + b == a;
    } else {
      SuccessesAppend(a, b[..|b| - 1]);
      assert (a + b)[..|a + b| - 1] == a + b[..|b| - 1];
    }
  }

  lemma DueNext(cfg: Config, alerts: seq<Alert>, a: Alert)
    ensures Due(cfg, alerts + [a]) == Due(cfg, alerts) + |Route(cfg.webhooks, a.severity)|
  {
    assert (alerts + [a])[..|alerts|] == alerts;
  }

  lemma {:induction false} RunSettles(u: Setup, xs: seq<Turn>)
    ensures ProcessAll(u, xs).endpoints == SettleAll(u.cfg, map[], AllOutcomes(u, xs))
  {
    if xs != [] {
      var before := xs[..|xs| - 1];
      RunSettles(u, before);
      RunDedup(u, before);
      SettleAppend(u.cfg, map[], AllOutcomes(u, before), Delivered(u, After(u.window, Events(before)), xs[|xs| - 1]));
    }
  }

  lemma {:induction false} RunCounts(u: Setup, xs: seq<Turn>)
    ensures ProcessAll(u, xs).sent == Successes(AllOutcomes(u, xs))
    ensures ProcessAll(u, xs).sent + ProcessAll(u, xs).failed == |AllOutcomes(u, xs)|
  {
    if xs != [] {
      var before := xs[..|xs| - 1];
      RunCounts(u, before);
      RunDedup(u, before);
      SuccessesAppend(AllOutcomes(u, before), Delivered(u, After(u.window, Events(before)), xs[|xs| - 1]));
    }
  }

  lemma {:induction false} RunIsDue(u: Setup, xs: seq<Turn>)
    ensures |AllOutcomes(u, xs)| == Due(u.cfg, Accepted(u.window, Events(xs)))
  {
    if xs != [] {
      var before := xs[..|xs| - 1];
      RunIsDue(u, before);
      EventsSnoc(xs);
      var s, alerts := After(u.window, Events(before)), Accepted(u.window, Events(before));
      if xs[|xs| - 1].event.op.Record? && s.inFlight.Some? {
        DueNext(u.cfg, alerts, s.inFlight.value);
      } else {
        assert alerts + [] == alerts;
      }
    }
  }

  /**
   * In every run, whatever the cleaner does: each webhook that accepts an accepted alert is settled
   * exactly once, as sent or as failed, and the endpoint states are those of all outcomes in order.
   */
  lemma RunDelivers(u: Setup, xs: seq<Turn>)
    ensures var p, os := ProcessAll(u, xs), AllOutcomes(u, xs);
      && p.sent + p.failed == Due(u.cfg, Accepted(u.window, Events(xs))) == |os|
      && p.sent == Successes(os)
      && p.endpoints == SettleAll(u.cfg, map[], os)
  {
    RunSettles(u, xs);
    RunCounts(u, xs);
    RunIsDue(u, xs);
  }

  /** Every alert offered is accepted, still in flight, or counted as a duplicate, as the full history demands. */
  lemma {:induction false} RunDecides(window: nat, es: seq<Event>)
    requires Clocked(es)
    ensures After(window, es).deduplicated == Suppressions(window, es)
    ensures Offered(window, es) == |Accepted(window, es)| + After(window, es).deduplicated
      + if After(window, es).inFlight.Some? then 1 else 0
  {
    if es != [] {
      var before, e := es[..|es| - 1], es[|es| - 1];
      RunDecides(window, before);
      if e.op.Check? {
        assert forall i :: 0 <= i < |before| ==> es[i].now <= es[|es| - 1].now;
        DedupIsFullHistory(window, before, e.op.alert, e.now);
      }
    }
  }

  /** Over a whole run each endpoint's record is a function of the outcomes under its own name. */
  lemma RunEndpoints(u: Setup, xs: seq<Turn>, name: string)
    ensures RecordOf(u.cfg, AllOutcomes(u, xs), name, ProcessAll(u, xs).endpoints)
  {
    RunSettles(u, xs);
    EndpointIsHistory(u.cfg, AllOutcomes(u, xs), name);
  }

  // ---------------------------------------------------------------- backoff is recorded, not obeyed

  /** Whatever the endpoints' records say, a step sends and fails the same. */
  lemma BackoffIgnored(u: Setup, p: Pipe, q: Pipe, x: Turn)
    requires p == q.(endpoints := p.endpoints)
    ensures Process(u, p, x) == Process(u, q, x).(endpoints := Process(u, p, x).endpoints)
  {
  }

  const OPS := Webhook("ops", "u", "", "info", map[])

  const ONE_HOOK := Setup(0, Config([OPS], 30, 3600), true)

  function Stopped(now: int): Clock { (d: nat) => now }

  /** All webhooks answer, or none. */
  function AnswersIf(up: bool): Network { (d: nat, w: Webhook, k: nat) => up }

  function Moment(now: int, op: Op, up: bool): Turn { Turn(At(now, op), AnswersIf(up), Stopped(now)) }

  function Offer(a: Alert, now: int, up: bool): seq<Turn> {
    [Moment(now, Check(a), up), Moment(now, Record, up)]
  }

  /** A failed delivery starts a backoff, and an alert a second later is posted all the same. */
  lemma PostsInBackoff(a: Alert)
    ensures var first := Offer(a, 0, false);
      && InBackoff(ProcessAll(ONE_HOOK, first).endpoints, "ops", 1)
      && ProcessAll(ONE_HOOK, first).sent == 0
      && ProcessAll(ONE_HOOK, first + Offer(a, 1, true)).sent == 1
  {
    OfferDelivers(a, [], 0, false);
    assert [] + Offer(a, 0, false) == Offer(a, 0, false);
    OfferDelivers(a, Offer(a, 0, false), 1, true);
    BackoffOfOne();
  }

  lemma BackoffOfOne()
    ensures Backoff(ONE_HOOK.cfg, 1) == 60
  {
    assert Pow2(1) == 2;
  }

  /** An alert that is new is settled with the one webhook, which answers as the network does. */
  lemma OfferDelivers(a: Alert, xs: seq<Turn>, now: int, up: bool)
    requires ProcessAll(ONE_HOOK, xs).dedup.inFlight.None?
    requires !IsDuplicate(0, ProcessAll(ONE_HOOK, xs).dedup.cache, DedupKey(a), now)
    ensures var p, q := ProcessAll(ONE_HOOK, xs), ProcessAll(ONE_HOOK, xs + Offer(a, now, up));
      && q.dedup.inFlight.None? && q.dedup.cache == p.dedup.cache[DedupKey(a) := now]
      && q.sent == p.sent + (if up then 1 else 0)
      && q.endpoints == Settle(ONE_HOOK.cfg, p.endpoints, Outcome("ops", up, now))
  {
    var p, check, record := ProcessAll(ONE_HOOK, xs), Moment(now, Check(a), up), Moment(now, Record, up);
    ProcessTwo(ONE_HOOK, xs, check, record);
    CheckAccepts(p, check);
    RecordDelivers(p.(dedup := p.dedup.(inFlight := Some(a))), a, now, up);
  }

  lemma ProcessNext(u: Setup, xs: seq<Turn>, x: Turn)
    ensures ProcessAll(u, xs + [x]) == Process(u, ProcessAll(u, xs), x)
  {
    assert (xs + [x])[..|xs|] == xs;
  }

  lemma ProcessTwo(u: Setup, xs: seq<Turn>, x: Turn, y: Turn)
    ensures ProcessAll(u, xs + [x, y]) == Process(u, Process(u, ProcessAll(u, xs), x), y)
  {
    ProcessNext(u, xs, x);
    ProcessNext(u, xs + [x], y);
    assert xs + [x] + [y] == xs + [x, y];
  }

  lemma CheckAccepts(p: Pipe, x: Turn)
    requires p.dedup.inFlight.None? && x.event.op.Check?
    requires !IsDuplicate(0, p.dedup.cache, DedupKey(x.event.op.alert), x.event.now)
    ensures Process(ONE_HOOK, p, x) == p.(dedup := p.dedup.(inFlight := Some(x.event.op.alert)))
  {
  }

  lemma RecordDelivers(p: Pipe, a: Alert, now: int, up: bool)
    requires p.dedup.inFlight == Some(a)
    ensures var q := Process(ONE_HOOK, p, Moment(now, Record, up));
      && q.dedup.inFlight.None? && q.dedup.cache == p.dedup.cache[DedupKey(a) := now]
      && q.sent == p.sent + (if up then 1 else 0)
      && q.endpoints == Settle(ONE_HOOK.cfg, p.endpoints, Outcome("ops", up, now))
  {
    OneOutcome(a.severity, AnswersIf(up), Stopped(now), now, up);
    var os := [Outcome("ops", up, now)];
    assert os[..0] == [] && Successes(os) == if up then 1 else 0;
    assert SettleAll(ONE_HOOK.cfg, p.endpoints, []) == p.endpoints;
  }

  lemma OneOutcome(s: Severity, net: Network, at: Clock, now: int, up: bool)
    requires at(0) == now && forall d, w, k :: net(d, w, k) == up
    ensures Outcomes(ONE_HOOK.cfg, true, s, net, at) == [Outcome("ops", up, now)]
  {
    LowerFixed("info");
    assert Route([OPS], s) == [OPS];
    RecipientsAt([OPS], s);
    assert net(0, OPS, 0) == up;
  }

  // ---------------------------------------------------------------- the cleaner changes no delivery

  function Unswept(xs: seq<Turn>): seq<Turn> {
    if xs == [] then []
    else if xs[|xs| - 1].event.op.Sweep? then Unswept(xs[..|xs| - 1])
    else Unswept(xs[..|xs| - 1]) + [xs[|xs| - 1]]
  }

  lemma {:induction false} UnsweptEvents(xs: seq<Turn>)
    ensures Events(Unswept(xs)) == NoSweeps(Events(xs))
  {
    if xs != [] {
      UnsweptEvents(xs[..|xs| - 1]);
      EventsSnoc(xs);
    }
  }

  lemma {:induction false} UnsweptOutcomes(u: Setup, xs: seq<Turn>)
    requires Clocked(Events(xs))
    ensures AllOutcomes(u, Unswept(xs)) == AllOutcomes(u, xs)
  {
    if xs != [] {
      var before, x := xs[..|xs| - 1], xs[|xs| - 1];
      EventsSnoc(xs);
      UnsweptOutcomes(u, before);
      SweepsChangeNothing(u.window, Events(before));
      UnsweptEvents(before);
      if !x.event.op.Sweep? {
        var kept := Unswept(before);
        assert (kept + [x])[..|kept|] == kept;
      }
    }
  }

  /** Without the cleaner's sweeps a run sends, fails and settles exactly the same. */
  lemma SweepsChangeNoDelivery(u: Setup, xs: seq<Turn>)
    requires Clocked(Events(xs))
    ensures ProcessAll(u, Unswept(xs)).sent == ProcessAll(u, xs).sent
    ensures ProcessAll(u, Unswept(xs)).failed == ProcessAll(u, xs).failed
    ensures ProcessAll(u, Unswept(xs)).endpoints == ProcessAll(u, xs).endpoints
  {
    RunDelivers(u, xs);
    RunDelivers(u, Unswept(xs));
    UnsweptOutcomes(u, xs);
  }

  // ---------------------------------------------------------------- the method

  /** The whole object: the deduplication half and the delivery half. */
  class Processor {
    const dedup: AlertingShim.Shim
    const sender: Sender

    ghost function Abs(): Pipe
      reads dedup, sender
    {
      Pipe(dedup.Abs(), sender.alertsSent, sender.alertsFailed, sender.endpointStates)
    }

    function Env(): Setup { Setup(dedup.window, sender.cfg, sender.hasClient) }

    constructor (window: nat, cfg: Config, hasClient: bool)
      ensures Env() == Setup(window, cfg, hasClient) && Abs() == IDLE && dedup.inFlight.None?
      ensures fresh(dedup) && fresh(sender)
    {
      dedup := new AlertingShim.Shim(window);
      sender := new Sender(cfg, hasClient);
    }

    /** A duplicate is dropped; another alert is recorded and then delivered. */
    method ProcessAlert(alert: Alert, now: int, recordedAt: int, net: Network, at: Clock) returns (count: nat)
      requires dedup.inFlight.None?
      modifies dedup, sender
      ensures dedup.inFlight.None?
      ensures Abs() ==
        Process(Env(), Process(Env(), old(Abs()), Turn(At(now, Check(alert)), net, at)),
                Turn(At(recordedAt, Record), net, at))
      ensures count == if old(IsDuplicate(dedup.window, dedup.dedupCache, DedupKey(alert), now)) then 0
        else |Route(sender.cfg.webhooks, alert.severity)|
    {
      var accepted := dedup.Begin(alert, now);
      if !accepted {
        return 0;
      }
      dedup.RecordAlert(recordedAt);
      count := sender.Deliver(alert.severity, net, at);
    }
  }
}
