/** The capture and publish pipeline of crates/cdc-shim as a state machine, and its runs. */
module Cdc {
  import opened Base
  import opened Text
  import opened Numbers
  import opened Lsn

  datatype Operation = Insert | Update | Delete

  datatype Event = Event(
    id: string,
    lsn: string,
    table: string,
    operation: Operation,
    before: Option<string>,
    after: Option<string>,
    published: bool)

  datatype Output = Webhook | Logged

  /** `serializes` says which events the JSON serializer accepts. */
  datatype Config = Config(
    output: Output,
    tables: seq<string>,
    batchSize: nat,
    ringCapacity: nat,
    serializes: Event -> bool)

  datatype State = State(
    wal: Wal,
    pending: seq<Event>,
    ring: seq<Event>,
    captured: nat,
    published: nat,
    failed: nat,
    counter: nat)

  const FRESH := State(ORIGIN, [], [], 0, 0, 0, 0)

  predicate SameTable(a: string, b: string) { Lower(a) == Lower(b) }

  /** An empty table list captures everything. */
  predicate ShouldCapture(cfg: Config, table: string) {
    cfg.tables == [] || exists t :: t in cfg.tables && SameTable(t, table)
  }

  /** With a table list exactly the listed tables are captured, in any case. */
  lemma CaptureIff(cfg: Config, table: string)
    ensures ShouldCapture(cfg, table) <==> cfg.tables == [] || exists t :: t in cfg.tables && SameButCase(t, table)
  {
    forall t | t in cfg.tables ensures SameTable(t, table) <==> SameButCase(t, table) {
      LowerEqualIff(t, table);
    }
  }

  function Batch(cfg: Config, s: State): seq<Event> { s.pending[..Min(cfg.batchSize, |s.pending|)] }

  function Serialized(cfg: Config, es: seq<Event>): nat {
    if es == [] then 0 else Serialized(cfg, es[..|es| - 1]) + if cfg.serializes(es[|es| - 1]) then 1 else 0
  }

  lemma {:induction false} SerializedBound(cfg: Config, es: seq<Event>)
    ensures Serialized(cfg, es) <= |es|
  {
    if es != [] { SerializedBound(cfg, es[..|es| - 1]); }
  }

  /** How many events of the batch count as published. A webhook batch with one delivery counts whole. */
  function PublishedOf(cfg: Config, batch: seq<Event>, delivered: nat): nat {
    match cfg.output
    case Webhook => if delivered > 0 then |batch| else 0
    case Logged => Serialized(cfg, batch)
  }

  /** The log transport keeps the whole batch in the ring, the webhook only a batch counted as published. */
  function Ringed(cfg: Config, batch: seq<Event>, delivered: nat): seq<Event> {
    if cfg.output == Webhook && delivered == 0 then [] else batch
  }

  /** The last `cap` elements. */
  function Last(cap: nat, es: seq<Event>): seq<Event> { es[|es| - Min(cap, |es|)..] }

  datatype Op =
    | Advance(delta: nat)
    | SetWal(lsn: string, segment: nat, offset: nat)
    | Capture(event: Event)
    | Publish(delivered: nat)
    | FailPending

  /** What an operation appends to the three logs: accepted events, events leaving the queue, events put in the ring. */
  function Accepts(cfg: Config, s: State, op: Op): seq<Event> {
    if op.Capture? && ShouldCapture(cfg, op.event.table) then [op.event.(lsn := s.wal.lsn)] else []
  }

  function Releases(cfg: Config, s: State, op: Op): seq<Event> {
    match op
    case Publish(_) => Batch(cfg, s)
    case FailPending => s.pending
    case _ => []
  }

  function Rings(cfg: Config, s: State, op: Op): seq<Event> {
    if op.Publish? then Ringed(cfg, Batch(cfg, s), op.delivered) else []
  }

  function Step(cfg: Config, s: State, op: Op): State {
    match op
    case Advance(delta) => s.(wal := Lsn.Advance(s.wal, delta))
    case SetWal(lsn, segment, offset) => s.(wal := Wal(lsn, segment, offset))
    case Capture(event) =>
      if ShouldCapture(cfg, event.table)
      then s.(pending := s.pending + [event.(lsn := s.wal.lsn)], captured := s.captured + 1)
      else s
    case Publish(delivered) =>
      var batch := Batch(cfg, s);
      var n := PublishedOf(cfg, batch, delivered);
      SerializedBound(cfg, batch);
      s.(pending := s.pending[|batch|..],
         ring := Last(cfg.ringCapacity, s.ring + Ringed(cfg, batch, delivered)),
         published := s.published + n,
         failed := s.failed + (|batch| - n))
    case FailPending => s.(pending := [], failed := s.failed + |s.pending|)
  }

  function After(cfg: Config, ops: seq<Op>): State {
    if ops == [] then FRESH else Step(cfg, After(cfg, ops[..|ops| - 1]), ops[|ops| - 1])
  }

  function Accepted(cfg: Config, ops: seq<Op>): seq<Event> {
    if ops == [] then []
    else Accepted(cfg, ops[..|ops| - 1]) + Accepts(cfg, After(cfg, ops[..|ops| - 1]), ops[|ops| - 1])
  }

  function Released(cfg: Config, ops: seq<Op>): seq<Event> {
    if ops == [] then []
    else Released(cfg, ops[..|ops| - 1]) + Releases(cfg, After(cfg, ops[..|ops| - 1]), ops[|ops| - 1])
  }

  function Pushed(cfg: Config, ops: seq<Op>): seq<Event> {
    if ops == [] then []
    else Pushed(cfg, ops[..|ops| - 1]) + Rings(cfg, After(cfg, ops[..|ops| - 1]), ops[|ops| - 1])
  }

  // ---------------------------------------------------------------- conservation and order

  lemma LastOfLast(cap: nat, es: seq<Event>, more: seq<Event>)
    ensures Last(cap, Last(cap, es) + more) == Last(cap, es + more)
  {
  }

  /**
   * In every run the accepted events are, in order, those that left the queue followed by those
   * still in it; the counters count them; and the ring holds the last ones pushed to it.
   */
  lemma {:induction false} Conservation(cfg: Config, ops: seq<Op>)
    ensures var s := After(cfg, ops);
      && Accepted(cfg, ops) == Released(cfg, ops) + s.pending
      && s.captured == |Accepted(cfg, ops)|
      && s.published + s.failed == |Released(cfg, ops)|
      && s.captured == s.published + s.failed + |s.pending|
      && s.ring == Last(cfg.ringCapacity, Pushed(cfg, ops))
  {
    if ops != [] {
      var before, op := ops[..|ops| - 1], ops[|ops| - 1];
      Conservation(cfg, before);
      var s := After(cfg, before);
      LastOfLast(cfg.ringCapacity, Pushed(cfg, before), Rings(cfg, s, op));
      StepMovesQueue(cfg, s, op);
      var t := After(cfg, ops);
      QueueConserved(Released(cfg, before), s.pending, Accepts(cfg, s, op), Releases(cfg, s, op), t.pending);
      assert Rings(cfg, s, op) == [] ==> Pushed(cfg, ops) == Pushed(cfg, before);
    }
  }

  lemma {:induction false} SerializedAppend(cfg: Config, a: seq<Event>, b: seq<Event>)
    ensures Serialized(cfg, a + b) == Serialized(cfg, a) + Serialized(cfg, b)
  {
    if b == [] {
      assert a + b == a;
    } else {
      assert (a + b)[..|a + b| - 1] == a + b[..|b| - 1];
      SerializedAppend(cfg, a, b[..|b| - 1]);
    }
  }

  /** What was counted as published: every event put in the ring by the webhook, the serializable ones by the log. */
  lemma {:induction false} PublishedCount(cfg: Config, ops: seq<Op>)
    ensures After(cfg, ops).published ==
      if cfg.output == Webhook then |Pushed(cfg, ops)| else Serialized(cfg, Pushed(cfg, ops))
  {
    if ops != [] {
      var before, op := ops[..|ops| - 1], ops[|ops| - 1];
      PublishedCount(cfg, before);
      SerializedAppend(cfg, Pushed(cfg, before), Rings(cfg, After(cfg, before), op));
    }
  }

  lemma {:induction false} SerializedAll(cfg: Config, es: seq<Event>)
    ensures Serialized(cfg, es) == |es| <==> forall e :: e in es ==> cfg.serializes(e)
  {
    if es != [] {
      var before, last := es[..|es| - 1], es[|es| - 1];
      SerializedAll(cfg, before);
      SerializedBound(cfg, before);
      assert es == before + [last];
    }
  }

  /** The batch is empty, the webhook made a delivery, or the log can serialize every event. */
  ghost predicate CountsWhole(cfg: Config, batch: seq<Event>, delivered: nat) {
    || batch == []
    || (cfg.output == Webhook && delivered > 0)
    || (cfg.output == Logged && forall e :: e in batch ==> cfg.serializes(e))
  }

  lemma PublishedWholeIff(cfg: Config, batch: seq<Event>, delivered: nat)
    ensures PublishedOf(cfg, batch, delivered) == |batch| <==> CountsWhole(cfg, batch, delivered)
    ensures PublishedOf(cfg, batch, delivered) <= |batch|
  {
    SerializedAll(cfg, batch);
    SerializedBound(cfg, batch);
  }

  /**
   * The size of the batch, which `publish_batch` returns, is the number of events published if and
   * only if the batch is empty, the webhook made a delivery, or the log serialized every event.
   */
  lemma ReturnedIsPublishedIff(cfg: Config, s: State, delivered: nat)
    ensures |Batch(cfg, s)| == Step(cfg, s, Publish(delivered)).published - s.published
      <==> CountsWhole(cfg, Batch(cfg, s), delivered)
  {
    PublishedWholeIff(cfg, Batch(cfg, s), delivered);
  }

  /** The webhook's published count is the number of deliveries made only when none was or all were. */
  lemma PublishedIsDeliveredIff(cfg: Config, s: State, delivered: nat)
    requires cfg.output == Webhook && delivered <= |Batch(cfg, s)|
    ensures Step(cfg, s, Publish(delivered)).published - s.published == delivered
      <==> delivered == 0 || delivered == |Batch(cfg, s)|
  {
  }

  /** Two events waiting: no delivery returns two and publishes none, one delivery publishes both. */
  lemma ReturnedOverstates(e: Event, serializes: Event -> bool)
    ensures var cfg := Config(Webhook, [], 100, 1000, serializes);
      var s := FRESH.(pending := [e, e]);
      && |Batch(cfg, s)| == 2
      && Step(cfg, s, Publish(0)).published == 0 && Step(cfg, s, Publish(0)).failed == 2
      && Step(cfg, s, Publish(1)).published == 2
  {
  }

  lemma QueueConserved(gone: seq<Event>, queue: seq<Event>, enter: seq<Event>, leave: seq<Event>, rest: seq<Event>)
    requires queue + enter == leave + rest
    ensures gone + queue + enter == gone + leave + rest
  {
    assert gone + queue + enter == gone + (queue + enter);
    assert gone + leave + rest == gone + (leave + rest);
  }

  lemma StepMovesQueue(cfg: Config, s: State, op: Op)
    ensures s.pending + Accepts(cfg, s, op) == Releases(cfg, s, op) + Step(cfg, s, op).pending
    ensures Step(cfg, s, op).captured == s.captured + |Accepts(cfg, s, op)|
    ensures Step(cfg, s, op).published + Step(cfg, s, op).failed == s.published + s.failed + |Releases(cfg, s, op)|
  {
    if op.Publish? {
      SerializedBound(cfg, Batch(cfg, s));
    }
  }

  function PublishN(cfg: Config, s: State, deliveries: seq<nat>): State {
    if deliveries == [] then s
    else Step(cfg, PublishN(cfg, s, deliveries[..|deliveries| - 1]), Publish(deliveries[|deliveries| - 1]))
  }

  /** What `k` batches of size `b` hold. */
  function Taken(b: nat, k: nat): nat { if k == 0 then 0 else Taken(b, k - 1) + b }

  /** How many batches of size `b` hold `n` events. */
  function Batches(n: nat, b: nat): nat
    requires b >= 1
  {
    if n == 0 then 0 else 1 + Batches(n - Min(n, b), b)
  }

  /** That number is the quotient, rounded up. */
  lemma {:induction false} BatchesIsQuotient(n: nat, b: nat)
    requires b >= 1
    ensures Batches(n, b) == (n + b - 1) / b
  {
    BatchesBounds(n, b);
    QuotientUnique(n + b - 1, b, Batches(n, b));
  }

  lemma {:induction false} BatchesBounds(n: nat, b: nat)
    requires b >= 1
    ensures n <= Batches(n, b) * b < n + b
  {
    if n > 0 {
      BatchesBounds(n - Min(n, b), b);
      MulNext(Batches(n - Min(n, b), b), b);
    }
  }

  lemma QuotientUnique(n: nat, b: nat, q: nat)
    requires b >= 1 && q * b <= n < q * b + b
    ensures n / b == q
  {
    var d := n / b;
    assert d * b <= n < d * b + b;
    ProductsBelow(d, q, b);
    ProductsBelow(q, d, b);
  }

  lemma ProductsBelow(p: nat, q: nat, b: nat)
    requires p * b < q * b + b
    ensures p <= q
  {
    MulNext(q, b);
    if p > q {
      MulMonotone(q + 1, p, b);
    }
  }

  lemma {:induction false} TakenCoversIff(n: nat, b: nat, k: nat)
    requires b >= 1
    ensures Taken(b, k) >= n <==> k >= Batches(n, b)
  {
    if k > 0 {
      TakenCoversIff(n - Min(n, b), b, k - 1);
    }
  }

  lemma NextBatch(q: seq<Event>, taken: nat, b: nat)
    ensures var rest := q[Min(taken, |q|)..]; rest[Min(b, |rest|)..] == q[Min(taken + b, |q|)..]
  {
  }

  lemma {:induction false} PublishTakesBatches(cfg: Config, s: State, deliveries: seq<nat>)
    ensures PublishN(cfg, s, deliveries).pending == s.pending[Min(Taken(cfg.batchSize, |deliveries|), |s.pending|)..]
  {
    if deliveries != [] {
      var before := deliveries[..|deliveries| - 1];
      PublishTakesBatches(cfg, s, before);
      OneBatch(cfg, PublishN(cfg, s, before), deliveries[|deliveries| - 1], s.pending, Taken(cfg.batchSize, |before|));
    }
  }

  lemma OneBatch(cfg: Config, s: State, delivered: nat, q: seq<Event>, taken: nat)
    requires s.pending == q[Min(taken, |q|)..]
    ensures Step(cfg, s, Publish(delivered)).pending == q[Min(taken + cfg.batchSize, |q|)..]
  {
    NextBatch(q, taken, cfg.batchSize);
  }

  lemma DrainedIff(cfg: Config, s: State, deliveries: seq<nat>)
    ensures PublishN(cfg, s, deliveries).pending == [] <==> Taken(cfg.batchSize, |deliveries|) >= |s.pending|
  {
    PublishTakesBatches(cfg, s, deliveries);
  }

  /** Repeated `publish_batch` empties a queue of `n` exactly when called n / batch_size times, rounded up, or more. */
  lemma DrainCalls(cfg: Config, s: State, deliveries: seq<nat>)
    requires cfg.batchSize >= 1
    ensures PublishN(cfg, s, deliveries).pending == [] <==> |deliveries| >= Batches(|s.pending|, cfg.batchSize)
  {
    DrainedIff(cfg, s, deliveries);
    TakenCoversIff(|s.pending|, cfg.batchSize, |deliveries|);
  }

  // ---------------------------------------------------------------- log order

  /** Where an event stands in the log, read back from its printed position. */
  const LOG_POSITION: Event -> nat := (e: Event) => ParseLsn(e.lsn)

  ghost predicate Ascending(pos: Event -> nat, es: seq<Event>) {
    forall i, j :: 0 <= i < j < |es| ==> pos(es[i]) <= pos(es[j])
  }

  ghost predicate Below(pos: Event -> nat, es: seq<Event>, bound: nat) {
    forall i :: 0 <= i < |es| ==> pos(es[i]) <= bound
  }

  /** Only `advance_wal` moves the position. */
  ghost predicate AdvanceOnly(ops: seq<Op>) { forall op :: op in ops ==> !op.SetWal? }

  lemma {:induction false} WalRegular(cfg: Config, ops: seq<Op>)
    requires AdvanceOnly(ops)
    ensures Regular(After(cfg, ops).wal)
  {
    if ops == [] {
      OriginRegular();
    } else {
      var op := ops[|ops| - 1];
      assert op in ops;
      WalRegular(cfg, ops[..|ops| - 1]);
      StepWal(cfg, After(cfg, ops[..|ops| - 1]), op);
    }
  }

  /** One step keeps the position regular and, while its segment fits the word, moves it forward. */
  lemma StepWal(cfg: Config, s: State, op: Op)
    requires !op.SetWal? && Regular(s.wal)
    ensures var t := Step(cfg, s, op);
      && Regular(t.wal) && s.wal.segment <= t.wal.segment
      && (t.wal.segment < U32_LIMIT ==> ParseLsn(s.wal.lsn) <= ParseLsn(t.wal.lsn))
  {
    if op.Advance? {
      AdvanceOrdered(s.wal, op.delta);
      if Lsn.Advance(s.wal, op.delta).segment < U32_LIMIT {
        AdvanceKeepsParsed(s.wal, op.delta);
      }
    }
  }

  /** One step keeps the ring's input followed by the queue in order: it appends at the end or drops from the middle. */
  lemma StepInOrder(cfg: Config, s: State, op: Op, pos: Event -> nat, pushed: seq<Event>, here: nat)
    requires Ascending(pos, pushed + s.pending) && Below(pos, pushed + s.pending, here)
    requires forall e :: e in Accepts(cfg, s, op) ==> pos(e) == here
    ensures Ascending(pos, pushed + Rings(cfg, s, op) + Step(cfg, s, op).pending)
    ensures Below(pos, pushed + Rings(cfg, s, op) + Step(cfg, s, op).pending, here)
  {
    var all, t := pushed + s.pending, Step(cfg, s, op);
    match op
    case Capture(_) =>
      assert pushed + [] + t.pending == all + Accepts(cfg, s, op);
    case Publish(d) =>
      TakeInOrder(pos, pushed, s.pending, |Batch(cfg, s)|, here);
    case FailPending =>
      assert pushed + [] + [] == all[..|pushed|];
    case _ =>
      assert pushed + [] + t.pending == all;
  }

  /** Moving a prefix of the queue into the ring's input, or dropping it. */
  lemma TakeInOrder(pos: Event -> nat, pushed: seq<Event>, queue: seq<Event>, k: nat, here: nat)
    requires k <= |queue| && Ascending(pos, pushed + queue) && Below(pos, pushed + queue, here)
    ensures pushed + queue[..k] + queue[k..] == pushed + queue
    ensures Ascending(pos, pushed + [] + queue[k..]) && Below(pos, pushed + [] + queue[k..], here)
  {
    var b, c := queue[..k], queue[k..];
    assert pushed + b + c == pushed + queue;
    DropMiddle(pos, pushed, b, c, here);
    assert pushed + [] + c == pushed + c;
  }

  lemma DropMiddle(pos: Event -> nat, a: seq<Event>, b: seq<Event>, c: seq<Event>, bound: nat)
    requires Ascending(pos, a + b + c) && Below(pos, a + b + c, bound)
    ensures Ascending(pos, a + c) && Below(pos, a + c, bound)
  {
    var all := a + b + c;
    assert forall k :: 0 <= k < |a + c| ==> (a + c)[k] == all[if k < |a| then k else k + |b|];
  }

  lemma StillBelow(pos: Event -> nat, es: seq<Event>, bound: nat, later: nat)
    requires Below(pos, es, bound) && bound <= later
    ensures Below(pos, es, later)
  {
  }

  /** What is accepted is stamped with the current position. */
  lemma AcceptsHere(cfg: Config, s: State, op: Op)
    ensures forall e :: e in Accepts(cfg, s, op) ==> LOG_POSITION(e) == ParseLsn(s.wal.lsn)
  {
  }

  lemma AppendInOrder(pos: Event -> nat, es: seq<Event>, more: seq<Event>, here: nat)
    requires Ascending(pos, es) && Below(pos, es, here) && forall e :: e in more ==> pos(e) == here
    ensures Ascending(pos, es + more) && Below(pos, es + more, here)
  {
  }

  /** While the segment fits the word, the position read back never goes back over the last step. */
  lemma LastMove(cfg: Config, ops: seq<Op>)
    requires ops != [] && AdvanceOnly(ops) && After(cfg, ops).wal.segment < U32_LIMIT
    ensures var s := After(cfg, ops[..|ops| - 1]);
      s.wal.segment < U32_LIMIT && ParseLsn(s.wal.lsn) <= ParseLsn(After(cfg, ops).wal.lsn)
  {
    var before, op := ops[..|ops| - 1], ops[|ops| - 1];
    assert op in ops;
    WalRegular(cfg, before);
    StepWal(cfg, After(cfg, before), op);
  }

  lemma {:induction false} AcceptedInOrder(cfg: Config, ops: seq<Op>)
    requires AdvanceOnly(ops) && After(cfg, ops).wal.segment < U32_LIMIT
    ensures Ascending(LOG_POSITION, Accepted(cfg, ops))
    ensures Below(LOG_POSITION, Accepted(cfg, ops), ParseLsn(After(cfg, ops).wal.lsn))
  {
    if ops != [] {
      var before, op := ops[..|ops| - 1], ops[|ops| - 1];
      var s := After(cfg, before);
      LastMove(cfg, ops);
      AcceptedInOrder(cfg, before);
      AcceptsHere(cfg, s, op);
      AppendInOrder(LOG_POSITION, Accepted(cfg, before), Accepts(cfg, s, op), ParseLsn(s.wal.lsn));
      StillBelow(LOG_POSITION, Accepted(cfg, ops), ParseLsn(s.wal.lsn), ParseLsn(After(cfg, ops).wal.lsn));
    }
  }

  lemma {:induction false} PushedInOrder(cfg: Config, ops: seq<Op>)
    requires AdvanceOnly(ops) && After(cfg, ops).wal.segment < U32_LIMIT
    ensures Ascending(LOG_POSITION, Pushed(cfg, ops) + After(cfg, ops).pending)
    ensures Below(LOG_POSITION, Pushed(cfg, ops) + After(cfg, ops).pending, ParseLsn(After(cfg, ops).wal.lsn))
  {
    if ops != [] {
      var before, op := ops[..|ops| - 1], ops[|ops| - 1];
      var s, t := After(cfg, before), After(cfg, ops);
      LastMove(cfg, ops);
      PushedInOrder(cfg, before);
      AcceptsHere(cfg, s, op);
      StepInOrder(cfg, s, op, LOG_POSITION, Pushed(cfg, before), ParseLsn(s.wal.lsn));
      StillBelow(LOG_POSITION, Pushed(cfg, ops) + t.pending, ParseLsn(s.wal.lsn), ParseLsn(t.wal.lsn));
    }
  }

  lemma LastInOrder(pos: Event -> nat, cap: nat, p: seq<Event>, q: seq<Event>)
    requires Ascending(pos, p + q)
    ensures Ascending(pos, Last(cap, p) + q)
  {
    var k := |p| - Min(cap, |p|);
    assert Last(cap, p) + q == (p + q)[k..];
    SuffixInOrder(pos, p + q, k);
  }

  lemma SuffixInOrder(pos: Event -> nat, es: seq<Event>, k: nat)
    requires k <= |es| && Ascending(pos, es)
    ensures Ascending(pos, es[k..])
  {
  }

  /** Events reach the queue, leave it and stand in the ring in non-decreasing parsed log order. */
  lemma PublishedInLogOrder(cfg: Config, ops: seq<Op>)
    requires AdvanceOnly(ops) && After(cfg, ops).wal.segment < U32_LIMIT
    ensures Ascending(LOG_POSITION, Released(cfg, ops) + After(cfg, ops).pending)
    ensures Ascending(LOG_POSITION, After(cfg, ops).ring + After(cfg, ops).pending)
  {
    AcceptedInOrder(cfg, ops);
    PushedInOrder(cfg, ops);
    Conservation(cfg, ops);
    LastInOrder(LOG_POSITION, cfg.ringCapacity, Pushed(cfg, ops), After(cfg, ops).pending);
  }

  // ---------------------------------------------------------------- event identifiers

  function EventId(counter: nat): string { "cdc-" + PadTo(10, counter) }

  /** An identifier is the prefix followed by the counter in at least ten digits. */
  lemma EventIdReads(n: nat)
    ensures EventId(n)[..4] == "cdc-" && |EventId(n)[4..]| >= 10 && Value(EventId(n)[4..]) == Some(n)
  {
    assert EventId(n)[4..] == PadTo(10, n);
    ValueOfDec(n);
    ValueOfPadded(if |Dec(n)| < 10 then 10 - |Dec(n)| else 0, Dec(n));
  }

  /** Distinct counters print as distinct identifiers, past ten digits too. */
  lemma EventIdsDistinct(m: nat, n: nat)
    requires EventId(m) == EventId(n)
    ensures m == n
  {
    assert EventId(m)[4..] == PadTo(10, m) && EventId(n)[4..] == PadTo(10, n);
    PadToInjective(10, m, n);
  }
}
