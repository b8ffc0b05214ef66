/** Delivery of an accepted alert: routing, bounded retries, and the state kept per endpoint. */
module AlertDelivery {
  import opened Base
  import opened Text
  import opened Alerting

  /** `minSeverity` is the text of the configuration. */
  datatype Webhook = Webhook(
    name: string,
    url: string,
    channel: string,
    minSeverity: string,
    headers: map<string, string>)

  datatype Endpoint = Endpoint(failures: nat, lastAttempt: Option<int>, backoffUntil: Option<int>)

  /** How a delivery to one webhook ended, and when its outcome was recorded. */
  datatype Outcome = Outcome(name: string, ok: bool, at: int)

  datatype Config = Config(webhooks: seq<Webhook>, backoffBase: nat, backoffMax: nat)

  const ATTEMPTS: nat := 3

  /** Whether a webhook, posted to in a given delivery, answers a given attempt. */
  type Network = (nat, Webhook, nat) -> bool

  predicate Answered(net: Network, delivery: nat, w: Webhook) {
    exists k: nat :: k < ATTEMPTS && net(delivery, w, k)
  }

  function Rank(s: Severity): nat {
    match s
    case Info => 0
    case Warning => 1
    case Critical => 2
  }

  /** Case is ignored; the names hold no letter that a character beyond ASCII lowers to. */
  function ParseSeverity(s: string): Option<Severity> {
    var t := Lower(s);
    if t == "info" then Some(Info)
    else if t in {"warning", "warn"} then Some(Warning)
    else if t in {"critical", "fatal", "error"} then Some(Critical)
    else None
  }

  /** A minimum that cannot be read counts as info. */
  predicate Accepts(w: Webhook, s: Severity) {
    var least := ParseSeverity(w.minSeverity);
    Rank(s) >= Rank(if least.Some? then least.value else Info)
  }

  /** The webhooks that accept the severity, in configuration order. */
  function Route(webhooks: seq<Webhook>, s: Severity): seq<Webhook> {
    if webhooks == [] then []
    else
      var rest := Route(webhooks[1..], s);
      if Accepts(webhooks[0], s) then [webhooks[0]] + rest else rest
  }

  /** Routing goes webhook by webhook in configuration order. */
  lemma {:induction false} RouteAppend(a: seq<Webhook>, b: seq<Webhook>, s: Severity)
    ensures Route(a + b, s) == Route(a, s) + Route(b, s)
  {
    if a == [] {
      assert a + b == b;
    } else {
      assert (a + b)[1..] == a[1..] + b;
      RouteAppend(a[1..], b, s);
    }
  }

  /** One of the words, in any case. */
  ghost predicate Reads(text: string, words: set<string>) { exists w :: w in words && SameButCase(text, w) }

  /** A webhook accepts an alert unless its text, in any case, asks for more. */
  lemma AcceptsIff(w: Webhook, s: Severity)
    ensures Accepts(w, s) <==>
      && (Reads(w.minSeverity, {"warning", "warn"}) ==> s != Info)
      && (Reads(w.minSeverity, {"critical", "fatal", "error"}) ==> s == Critical)
  {
    var t := w.minSeverity;
    LowerIsIff(t, "info");
    LowerIsIff(t, "warning");
    LowerIsIff(t, "warn");
    LowerIsIff(t, "critical");
    LowerIsIff(t, "fatal");
    LowerIsIff(t, "error");
  }

  /** The printed severities are read back. */
  lemma SeverityReadsBack(s: Severity)
    ensures ParseSeverity(SeverityName(s)) == Some(s)
  {
    LowerFixed(SeverityName(s));
  }

  /** Exactly the configured webhooks are routed to whose text, in any case, does not ask for more than the alert. */
  lemma {:induction false} RouteBySeverity(ws: seq<Webhook>, s: Severity, worse: Severity)
    ensures forall w :: w in Route(ws, s) <==>
      && w in ws
      && (Reads(w.minSeverity, {"warning", "warn"}) ==> s != Info)
      && (Reads(w.minSeverity, {"critical", "fatal", "error"}) ==> s == Critical)
    ensures Rank(s) <= Rank(worse) ==> |Route(ws, s)| <= |Route(ws, worse)|
  {
    if ws != [] {
      RouteBySeverity(ws[1..], s, worse);
      assert forall w :: w in ws <==> w == ws[0] || w in ws[1..];
      AcceptsIff(ws[0], s);
    }
  }

  // ---------------------------------------------------------------- delivery goes by name

  /** The first webhook configured under a name. */
  function FirstNamed(ws: seq<Webhook>, name: string): Option<Webhook> {
    if ws == [] then None else if ws[0].name == name then Some(ws[0]) else FirstNamed(ws[1..], name)
  }

  /** The webhooks found by looking up the name of each of `routed`; a name not found is skipped. */
  function Lookup(ws: seq<Webhook>, routed: seq<Webhook>): seq<Webhook> {
    if routed == [] then []
    else
      var last := |routed| - 1;
      var w := FirstNamed(ws, routed[last].name);
      Lookup(ws, routed[..last]) + if w.Some? then [w.value] else []
  }

  /** The webhooks an alert is posted to. */
  function Recipients(ws: seq<Webhook>, s: Severity): seq<Webhook> { Lookup(ws, Route(ws, s)) }

  lemma {:induction false} FirstNamedFound(ws: seq<Webhook>, w: Webhook)
    requires w in ws
    ensures FirstNamed(ws, w.name).Some? && FirstNamed(ws, w.name).value in ws
    ensures FirstNamed(ws, w.name).value.name == w.name
  {
    if ws[0].name != w.name {
      FirstNamedFound(ws[1..], w);
    }
  }

  /** Nothing routed is skipped: the i-th post goes to the first webhook of the i-th routed name. */
  lemma {:induction false} LookupAt(ws: seq<Webhook>, routed: seq<Webhook>)
    requires forall w :: w in routed ==> w in ws
    ensures |Lookup(ws, routed)| == |routed|
    ensures forall i :: 0 <= i < |routed| ==> FirstNamed(ws, routed[i].name) == Some(Lookup(ws, routed)[i])
  {
    if routed != [] {
      LookupAt(ws, routed[..|routed| - 1]);
      FirstNamedFound(ws, routed[|routed| - 1]);
    }
  }

  lemma RecipientsAt(ws: seq<Webhook>, s: Severity)
    ensures var routed := Route(ws, s);
      && |Recipients(ws, s)| == |routed|
      && forall i :: 0 <= i < |routed| ==> FirstNamed(ws, routed[i].name) == Some(Recipients(ws, s)[i])
  {
    RouteBySeverity(ws, s, s);
    LookupAt(ws, Route(ws, s));
  }

  /** Alerts of every severity are posted to the webhooks that accept them if and only if a name tells its webhook. */
  lemma RecipientsAsRoutedIff(ws: seq<Webhook>)
    ensures (forall s :: Recipients(ws, s) == Route(ws, s)) <==>
      (forall v, w :: v in ws && w in ws && v.name == w.name ==> v == w)
  {
    if forall v, w :: v in ws && w in ws && v.name == w.name ==> v == w {
      forall s ensures Recipients(ws, s) == Route(ws, s) {
        RecipientsAt(ws, s);
        RouteBySeverity(ws, s, s);
        forall i | 0 <= i < |Route(ws, s)| ensures Recipients(ws, s)[i] == Route(ws, s)[i] {
          FirstNamedFound(ws, Route(ws, s)[i]);
        }
      }
    }
    if forall s :: Recipients(ws, s) == Route(ws, s) {
      forall w | w in ws ensures FirstNamed(ws, w.name) == Some(w) {
        RecipientsAt(ws, Critical);
        RouteBySeverity(ws, Critical, Critical);
        var i :| 0 <= i < |Route(ws, Critical)| && Route(ws, Critical)[i] == w;
        assert Recipients(ws, Critical)[i] == w;
      }
    }
  }

  /** An info alert that only the second webhook accepts is posted to the first, which asks for critical. */
  lemma PostedToNamesake()
    ensures var first, second := Webhook("ops", "a", "", "critical", map[]), Webhook("ops", "b", "", "info", map[]);
      && !Accepts(first, Info)
      && Route([first, second], Info) == [second]
      && Recipients([first, second], Info) == [first]
  {
    LowerFixed("critical");
    LowerFixed("info");
    var first, second := Webhook("ops", "a", "", "critical", map[]), Webhook("ops", "b", "", "info", map[]);
    RouteAppend([first], [second], Info);
    assert [first] + [second] == [first, second];
    assert Route([first], Info) == [] && Route([second], Info) == [second];
    assert Lookup([first, second], [second][..0]) == [];
  }

  /** Exponential in the failures up to ten of them, capped. */
  function Backoff(cfg: Config, failures: nat): nat {
    Min(cfg.backoffBase * Pow2(Min(failures, 10)), cfg.backoffMax)
  }

  /** More failures never shorten the wait, which never exceeds the cap. */
  lemma {:induction false} BackoffMonotone(cfg: Config, m: nat, n: nat)
    requires m <= n
    ensures Backoff(cfg, m) <= Backoff(cfg, n) <= cfg.backoffMax
    ensures m >= 10 ==> Backoff(cfg, m) == Backoff(cfg, n)
  {
    Pow2Monotone(Min(m, 10), Min(n, 10));
    MulMonotone(Pow2(Min(m, 10)), Pow2(Min(n, 10)), cfg.backoffBase);
  }

  /** The first wait is the base, each further failure up to the tenth doubles it, and the cap holds throughout. */
  lemma BackoffDoubles(cfg: Config, n: nat)
    ensures Backoff(cfg, 0) == Min(cfg.backoffBase, cfg.backoffMax)
    ensures n < 10 ==> Backoff(cfg, n + 1) == Min(2 * Backoff(cfg, n), cfg.backoffMax)
    ensures n >= 10 ==> Backoff(cfg, n + 1) == Backoff(cfg, n)
  {
    if n < 10 {
      assert Pow2(n + 1) == 2 * Pow2(n);
      DoubledProduct(cfg.backoffBase, Pow2(n));
    }
  }

  lemma DoubledProduct(a: nat, b: nat)
    ensures a * (2 * b) == 2 * (a * b)
  {
  }

  function Settle(cfg: Config, states: map<string, Endpoint>, o: Outcome): map<string, Endpoint> {
    if o.ok then states[o.name := Endpoint(0, Some(o.at), None)]
    else
      var f := (if o.name in states then states[o.name].failures else 0) + 1;
      states[o.name := Endpoint(f, Some(o.at), Some(o.at + Backoff(cfg, f)))]
  }

  function SettleAll(cfg: Config, states: map<string, Endpoint>, os: seq<Outcome>): map<string, Endpoint> {
    if os == [] then states else Settle(cfg, SettleAll(cfg, states, os[..|os| - 1]), os[|os| - 1])
  }

  lemma SettleNext(cfg: Config, states: map<string, Endpoint>, os: seq<Outcome>, i: nat)
    requires i < |os|
    ensures SettleAll(cfg, states, os[..i + 1]) == Settle(cfg, SettleAll(cfg, states, os[..i]), os[i])
    ensures Successes(os[..i + 1]) == Successes(os[..i]) + if os[i].ok then 1 else 0
  {
    assert os[..i + 1][..i] == os[..i];
  }

  /** Successive deliveries act as one. */
  lemma {:induction false} SettleAppend(cfg: Config, states: map<string, Endpoint>, a: seq<Outcome>, b: seq<Outcome>)
    ensures SettleAll(cfg, SettleAll(cfg, states, a), b) == SettleAll(cfg, states, a + b)
  {
    if b == [] {
      assert a + b == a;
    } else {
      SettleAppend(cfg, states, a, b[..|b| - 1]);
      assert (a + b)[..|a + b| - 1] == a + b[..|b| - 1];
    }
  }

  function Successes(os: seq<Outcome>): nat {
    if os == [] then 0 else Successes(os[..|os| - 1]) + if os[|os| - 1].ok then 1 else 0
  }

  // ---------------------------------------------------------------- endpoint state by history

  /** The latest outcome for a webhook. */
  function Latest(os: seq<Outcome>, name: string): Option<Outcome> {
    if os == [] then None
    else if os[|os| - 1].name == name then Some(os[|os| - 1])
    else Latest(os[..|os| - 1], name)
  }

  /** Failed deliveries to a webhook since its last successful one. */
  function FailureRun(os: seq<Outcome>, name: string): nat {
    if os == [] then 0
    else
      var o := os[|os| - 1];
      if o.name != name then FailureRun(os[..|os| - 1], name)
      else if o.ok then 0
      else FailureRun(os[..|os| - 1], name) + 1
  }

  /** What is recorded under a name is what its own outcomes say: failures, last attempt and end of the backoff. */
  ghost predicate RecordOf(cfg: Config, os: seq<Outcome>, name: string, states: map<string, Endpoint>) {
    && (name in states <==> Latest(os, name).Some?)
    && (name !in states ==> FailureRun(os, name) == 0)
    && (name in states ==>
          var o, f := Latest(os, name).value, FailureRun(os, name);
          && (o.ok <==> f == 0)
          && states[name] == Endpoint(f, Some(o.at), if o.ok then None else Some(o.at + Backoff(cfg, f))))
  }

  /** An endpoint's whole state is determined by the outcomes of its own deliveries. */
  lemma {:induction false} EndpointIsHistory(cfg: Config, os: seq<Outcome>, name: string)
    ensures RecordOf(cfg, os, name, SettleAll(cfg, map[], os))
  {
    if os != [] {
      EndpointIsHistory(cfg, os[..|os| - 1], name);
    }
  }

  /** `is_in_backoff`: the latest delivery failed and its backoff has not run out. */
  predicate InBackoff(states: map<string, Endpoint>, name: string, now: int) {
    name in states && states[name].backoffUntil.Some? && now < states[name].backoffUntil.value
  }

  /** By history: in backoff exactly while the wait earned by the current run of failures lasts. */
  lemma InBackoffIff(cfg: Config, os: seq<Outcome>, name: string, now: int)
    ensures InBackoff(SettleAll(cfg, map[], os), name, now) <==>
      var o := Latest(os, name);
      o.Some? && !o.value.ok && now < o.value.at + Backoff(cfg, FailureRun(os, name))
  {
    EndpointIsHistory(cfg, os, name);
  }

  // ---------------------------------------------------------------- the delivery loops

  /** The clock readings at the end of the deliveries of one alert. */
  type Clock = nat -> int

  /**
   * How the deliveries of one alert end: each outcome bears the name of a routed webhook and is a
   * success if the webhook looked up under that name answers an attempt.
   */
  ghost function Outcomes(cfg: Config, hasClient: bool, s: Severity, net: Network, at: Clock): (os: seq<Outcome>)
    ensures |os| == |Route(cfg.webhooks, s)|
  {
    var routed, recipients := Route(cfg.webhooks, s), Recipients(cfg.webhooks, s);
    RecipientsAt(cfg.webhooks, s);
    seq(|routed|, i requires 0 <= i < |routed| =>
      Outcome(routed[i].name, !hasClient || Answered(net, i, recipients[i]), at(i)))
  }

  /** Without a client every delivery counts as sent; with one it takes an answer to one of three attempts. */
  lemma OutcomeIff(cfg: Config, hasClient: bool, s: Severity, net: Network, at: Clock, i: nat)
    requires i < |Route(cfg.webhooks, s)|
    ensures var o, name := Outcomes(cfg, hasClient, s, net, at)[i], Route(cfg.webhooks, s)[i].name;
      && o.name == name && o.at == at(i) && FirstNamed(cfg.webhooks, name).Some?
      && var w := FirstNamed(cfg.webhooks, name).value;
         o.ok <==> (hasClient ==> net(i, w, 0) || net(i, w, 1) || net(i, w, 2))
  {
    RecipientsAt(cfg.webhooks, s);
  }

  class Sender {
    const cfg: Config
    const hasClient: bool
    var alertsSent: nat
    var alertsFailed: nat
    var endpointStates: map<string, Endpoint>

    constructor (cfg: Config, hasClient: bool)
      ensures this.cfg == cfg && this.hasClient == hasClient
      ensures alertsSent == alertsFailed == 0 && endpointStates == map[]
    {
      this.cfg, this.hasClient := cfg, hasClient;
      alertsSent, alertsFailed, endpointStates := 0, 0, map[];
    }

    method RecordSuccess(name: string, at: int)
      modifies this`endpointStates
      ensures endpointStates == Settle(cfg, old(endpointStates), Outcome(name, true, at))
    {
      endpointStates := endpointStates[name := Endpoint(0, Some(at), None)];
    }

    method RecordFailure(name: string, at: int)
      modifies this`endpointStates
      ensures endpointStates == Settle(cfg, old(endpointStates), Outcome(name, false, at))
    {
      var state := if name in endpointStates then endpointStates[name] else Endpoint(0, None, None);
      var failures := state.failures + 1;
      endpointStates := endpointStates[name := Endpoint(failures, Some(at), Some(at + Backoff(cfg, failures)))];
    }

    /** Up to three attempts, stopping at the first success. */
    method Attempt(net: Network, delivery: nat, w: Webhook) returns (success: bool, attempts: nat)
      ensures success <==> Answered(net, delivery, w)
      ensures success <==> net(delivery, w, 0) || net(delivery, w, 1) || net(delivery, w, 2)
      ensures 1 <= attempts <= 3
      ensures forall k: nat :: k < attempts - 1 ==> !net(delivery, w, k)
      ensures success ==> net(delivery, w, attempts - 1)
      ensures !success ==> attempts == 3
    {
      success, attempts := false, 0;
      while attempts < ATTEMPTS && !success
        invariant attempts <= ATTEMPTS && (success ==> attempts > 0 && net(delivery, w, attempts - 1))
        invariant forall k: nat :: k < attempts && !(success && k == attempts - 1) ==> !net(delivery, w, k)
        decreases ATTEMPTS - attempts, !success
      {
        success := net(delivery, w, attempts);
        attempts := attempts + 1;
      }
    }

    /** Count the end of one delivery and note it on the endpoint. */
    method Conclude(name: string, success: bool, at: int)
      modifies this
      ensures alertsSent == old(alertsSent) + if success then 1 else 0
      ensures alertsFailed == old(alertsFailed) + if success then 0 else 1
      ensures endpointStates == Settle(cfg, old(endpointStates), Outcome(name, success, at))
    {
      if success {
        alertsSent := alertsSent + 1;
        RecordSuccess(name, at);
      } else {
        alertsFailed := alertsFailed + 1;
        RecordFailure(name, at);
      }
    }

    /** One delivery under a name, which goes to the first webhook of that name. */
    method DeliverTo(name: string, ghost recipient: Webhook, net: Network, delivery: nat, at: int)
        returns (ghost o: Outcome)
      requires FirstNamed(cfg.webhooks, name) == Some(recipient)
      modifies this
      ensures o == Outcome(name, !hasClient || Answered(net, delivery, recipient), at)
      ensures alertsSent == old(alertsSent) + if o.ok then 1 else 0
      ensures alertsFailed == old(alertsFailed) + if o.ok then 0 else 1
      ensures endpointStates == Settle(cfg, old(endpointStates), o)
    {
      var success := true;
      if hasClient {
        var webhook, attempts := FirstNamed(cfg.webhooks, name), 0;
        success, attempts := Attempt(net, delivery, webhook.value);
      }
      Conclude(name, success, at);
      o := Outcome(name, success, at);
    }

    /**
     * Deliver to every routed webhook, each looked up by its name. Each delivery ends as exactly one
     * success or failure, the counters grow by those numbers, and the endpoint states record the
     * outcomes in order.
     */
    method Deliver(severity: Severity, net: Network, at: Clock) returns (count: nat)
      modifies this
      ensures count == |Route(cfg.webhooks, severity)|
      ensures var os := Outcomes(cfg, hasClient, severity, net, at);
        && alertsSent == old(alertsSent) + Successes(os)
        && alertsSent + alertsFailed == old(alertsSent) + old(alertsFailed) + count
        && endpointStates == SettleAll(cfg, old(endpointStates), os)
    {
      var routed := Route(cfg.webhooks, severity);
      count := |routed|;
      ghost var os, recipients := Outcomes(cfg, hasClient, severity, net, at), Recipients(cfg.webhooks, severity);
      RecipientsAt(cfg.webhooks, severity);
      for i := 0 to |routed|
        invariant alertsSent == old(alertsSent) + Successes(os[..i])
        invariant alertsSent + alertsFailed == old(alertsSent) + old(alertsFailed) + i
        invariant endpointStates == SettleAll(cfg, old(endpointStates), os[..i])
      {
        ghost var o := DeliverTo(routed[i].name, recipients[i], net, i, at(i));
        assert o == os[i];
        SettleNext(cfg, old(endpointStates), os, i);
      }
      assert os[..|routed|] == os;
    }
  }
}
