/** Alert deduplication of crates/alerting-shim, with the cleaner task interleaved anywhere. */
module Alerting {
  import opened Base

  datatype Severity = Info | Warning | Critical

  datatype Alert = Alert(
    id: string,
    title: string,
    message: string,
    severity: Severity,
    source: string,
    labels: map<string, string>,
    timestamp: int)

  datatype Key = Key(text: string)

  function SeverityName(s: Severity): string {
    match s
    case Info => "info"
    case Warning => "warning"
    case Critical => "critical"
  }

  function DedupKey(a: Alert): Key { Key(a.source + ":" + a.title + ":" + SeverityName(a.severity)) }

  /** `inFlight` is the alert `process_alert` has found new and is about to record. */
  datatype State = State(cache: map<Key, int>, inFlight: Option<Alert>, deduplicated: nat)

  const FRESH := State(map[], None, 0)

  /** The steps between which the cleaner can run: each holds the cache lock once. */
  datatype Op = Check(alert: Alert) | Record | Sweep | Clear

  datatype Event = At(now: int, op: Op)

  datatype Entry = Entry(key: Key, at: int)

  predicate IsDuplicate(window: nat, cache: map<Key, int>, key: Key, now: int) {
    key in cache && now - cache[key] < window
  }

  function Swept(window: nat, cache: map<Key, int>, now: int): map<Key, int> {
    map k | k in cache && now - cache[k] < window :: cache[k]
  }

  /** `process_alert` borrows the shim exclusively: no second check starts while one is in flight. */
  function Step(window: nat, s: State, e: Event): State {
    match e.op
    case Check(a) =>
      if s.inFlight.Some? then s
      else if IsDuplicate(window, s.cache, DedupKey(a), e.now) then s.(deduplicated := s.deduplicated + 1)
      else s.(inFlight := Some(a))
    case Record =>
      if s.inFlight.None? then s
      else s.(cache := s.cache[DedupKey(s.inFlight.value) := e.now], inFlight := None)
    case Sweep => s.(cache := Swept(window, s.cache, e.now))
    case Clear => s.(cache := map[])
  }

  function After(window: nat, es: seq<Event>): State {
    if es == [] then FRESH else Step(window, After(window, es[..|es| - 1]), es[|es| - 1])
  }

  /** Every alert accepted since the cache was last cleared, in order; sweeps do not touch it. */
  function Log(window: nat, es: seq<Event>): seq<Entry> {
    if es == [] then []
    else
      var s, e := After(window, es[..|es| - 1]), es[|es| - 1];
      match e.op
      case Record =>
        if s.inFlight.Some? then Log(window, es[..|es| - 1]) + [Entry(DedupKey(s.inFlight.value), e.now)]
        else Log(window, es[..|es| - 1])
      case Clear => []
      case _ => Log(window, es[..|es| - 1])
  }

  ghost predicate Clocked(es: seq<Event>) { forall i, j :: 0 <= i <= j < |es| ==> es[i].now <= es[j].now }

  /** The full-history rule: some accepted alert with the key is younger than the window. */
  ghost predicate Suppressed(window: nat, log: seq<Entry>, key: Key, now: int) {
    exists i :: 0 <= i < |log| && log[i].key == key && now - log[i].at < window
  }

  /** The cache holds the latest entry of a key, or that entry has outlived the window. */
  ghost predicate Mirrors(window: nat, cache: map<Key, int>, log: seq<Entry>, clock: int) {
    && (forall k :: k in cache ==> cache[k] <= clock && Entry(k, cache[k]) in log)
    && (forall i :: 0 <= i < |log| ==>
          if log[i].key in cache then log[i].at <= cache[log[i].key] else clock - log[i].at >= window)
  }

  lemma StepMirrors(window: nat, s: State, log: seq<Entry>, clock: int, e: Event)
    requires Mirrors(window, s.cache, log, clock) && clock <= e.now
    requires !(e.op.Record? && s.inFlight.Some?) && !e.op.Clear?
    ensures Mirrors(window, Step(window, s, e).cache, log, e.now)
  {
  }

  lemma RecordMirrors(window: nat, cache: map<Key, int>, log: seq<Entry>, clock: int, key: Key, now: int)
    requires Mirrors(window, cache, log, clock) && clock <= now
    ensures Mirrors(window, cache[key := now], log + [Entry(key, now)], now)
  {
    var log1 := log + [Entry(key, now)];
    assert log1[|log|] == Entry(key, now);
    forall k | k in cache && k != key ensures Entry(k, cache[k]) in log1 {
      assert Entry(k, cache[k]) in log;
    }
    forall i | 0 <= i < |log| ensures log[i].at <= now {
      if log[i].key in cache { assert cache[log[i].key] <= clock; }
    }
  }

  lemma {:induction false} RunMirrors(window: nat, es: seq<Event>, clock: int)
    requires Clocked(es) && forall i :: 0 <= i < |es| ==> es[i].now <= clock
    ensures Mirrors(window, After(window, es).cache, Log(window, es), clock)
  {
    if es != [] {
      var before, e := es[..|es| - 1], es[|es| - 1];
      assert forall i :: 0 <= i < |before| ==> es[i].now <= es[|es| - 1].now;
      RunMirrors(window, before, e.now);
      var s, log := After(window, before), Log(window, before);
      if e.op.Record? && s.inFlight.Some? {
        RecordMirrors(window, s.cache, log, e.now, DedupKey(s.inFlight.value), e.now);
      } else if !e.op.Clear? {
        StepMirrors(window, s, log, e.now, e);
      }
      LaterMirrors(window, After(window, es).cache, Log(window, es), e.now, clock);
    }
  }

  lemma LaterMirrors(window: nat, cache: map<Key, int>, log: seq<Entry>, clock: int, later: int)
    requires Mirrors(window, cache, log, clock) && clock <= later
    ensures Mirrors(window, cache, log, later)
  {
  }

  /**
   * An alert is suppressed exactly when the full history holds an accepted alert with the same
   * key younger than the window, whatever sweeps have run.
   */
  lemma DedupIsFullHistory(window: nat, es: seq<Event>, alert: Alert, now: int)
    requires Clocked(es) && forall i :: 0 <= i < |es| ==> es[i].now <= now
    ensures IsDuplicate(window, After(window, es).cache, DedupKey(alert), now) <==>
      Suppressed(window, Log(window, es), DedupKey(alert), now)
  {
    RunMirrors(window, es, now);
    var cache, log, k := After(window, es).cache, Log(window, es), DedupKey(alert);
    if IsDuplicate(window, cache, k, now) {
      var i :| 0 <= i < |log| && log[i] == Entry(k, cache[k]);
    }
  }

  function NoSweeps(es: seq<Event>): (r: seq<Event>)
    ensures forall e :: e in r ==> e in es
  {
    if es == [] then []
    else if es[|es| - 1].op.Sweep? then NoSweeps(es[..|es| - 1])
    else NoSweeps(es[..|es| - 1]) + [es[|es| - 1]]
  }

  lemma {:induction false} NoSweepsClocked(es: seq<Event>, clock: int)
    requires Clocked(es) && forall i :: 0 <= i < |es| ==> es[i].now <= clock
    ensures Clocked(NoSweeps(es)) && forall i :: 0 <= i < |NoSweeps(es)| ==> NoSweeps(es)[i].now <= clock
  {
    if es != [] {
      assert forall i :: 0 <= i < |es| - 1 ==> es[i].now <= es[|es| - 1].now;
      NoSweepsClocked(es[..|es| - 1], es[|es| - 1].now);
    }
  }

  /** Running the cleaner changes no decision: without its sweeps the run accepts and suppresses the same alerts. */
  lemma {:induction false} SweepsChangeNothing(window: nat, es: seq<Event>)
    requires Clocked(es)
    ensures Log(window, NoSweeps(es)) == Log(window, es)
    ensures After(window, NoSweeps(es)).inFlight == After(window, es).inFlight
    ensures After(window, NoSweeps(es)).deduplicated == After(window, es).deduplicated
  {
    if es != [] {
      var before, e := es[..|es| - 1], es[|es| - 1];
      SweepsChangeNothing(window, before);
      if !e.op.Sweep? {
        var kept := NoSweeps(before);
        assert NoSweeps(es) == kept + [e];
        assert (kept + [e])[..|kept|] == kept && (kept + [e])[|kept|] == e;
        if e.op.Check? {
          assert forall i :: 0 <= i < |before| ==> es[i].now <= es[|es| - 1].now;
          NoSweepsClocked(before, e.now);
          DedupIsFullHistory(window, before, e.op.alert, e.now);
          DedupIsFullHistory(window, NoSweeps(before), e.op.alert, e.now);
        }
      }
    }
  }

  /** Accepted alerts with one key are at least a window apart. */
  ghost predicate Spaced(window: nat, log: seq<Entry>) {
    forall i, j :: 0 <= i < j < |log| && log[i].key == log[j].key ==> log[j].at - log[i].at >= window
  }

  lemma {:induction false} AcceptedSpaced(window: nat, es: seq<Event>)
    requires Clocked(es)
    ensures Spaced(window, Log(window, es))
    ensures var s := After(window, es);
      s.inFlight.Some? ==>
        es != [] && !Suppressed(window, Log(window, es), DedupKey(s.inFlight.value), es[|es| - 1].now)
  {
    if es != [] {
      var before, e := es[..|es| - 1], es[|es| - 1];
      AcceptedSpaced(window, before);
      if before != [] {
        assert before[|before| - 1].now <= e.now;
      }
      if e.op.Check? {
        assert forall i :: 0 <= i < |before| ==> es[i].now <= es[|es| - 1].now;
        DedupIsFullHistory(window, before, e.op.alert, e.now);
      }
    }
  }

  // ---------------------------------------------------------------- what the key distinguishes

  ghost predicate SameSubject(a: Alert, b: Alert) {
    a.source == b.source && a.title == b.title && a.severity == b.severity
  }

  lemma KeySplits(a: Alert, b: Alert)
    ensures DedupKey(a) == DedupKey(b) <==>
      a.severity == b.severity && a.source + ":" + a.title == b.source + ":" + b.title
  {
    var x, y := a.source + ":" + a.title, b.source + ":" + b.title;
    var u, v := ":" + SeverityName(a.severity), ":" + SeverityName(b.severity);
    assert DedupKey(a).text == x + u && DedupKey(b).text == y + v;
    if x + u == y + v {
      assert (x + u)[|x + u| - 1] == u[|u| - 1] && (y + v)[|y + v| - 1] == v[|v| - 1];
      assert a.severity == b.severity;
      assert (x + u)[..|x|] == x && (y + v)[..|y|] == y;
    }
  }

  /** A colon inside `s` can be taken for the separator. */
  lemma ColonAt(s: string) returns (i: nat)
    requires ':' in s
    ensures i < |s| && s == s[..i] + ":" + s[i + 1..]
  {
    i :| i < |s| && s[i] == ':';
  }

  /**
   * The key of `a` belongs to alerts of its source, title and severity only if and only if neither
   * its source nor its title contains a colon.
   */
  lemma KeyUnambiguousIff(a: Alert)
    ensures (forall b: Alert :: DedupKey(b) == DedupKey(a) ==> SameSubject(a, b)) <==>
      ':' !in a.source && ':' !in a.title
  {
    if ':' in a.source {
      var i := ColonAt(a.source);
      var b := a.(source := a.source[..i], title := a.source[i + 1..] + ":" + a.title);
      assert b.source + ":" + b.title == a.source + ":" + a.title;
      KeySplits(b, a);
      assert |b.source| < |a.source|;
      assert DedupKey(b) == DedupKey(a) && !SameSubject(a, b);
    } else if ':' in a.title {
      var i := ColonAt(a.title);
      var b := a.(source := a.source + ":" + a.title[..i], title := a.title[i + 1..]);
      assert b.source + ":" + b.title == a.source + ":" + a.title;
      KeySplits(b, a);
      assert |b.title| < |a.title|;
      assert DedupKey(b) == DedupKey(a) && !SameSubject(a, b);
    } else {
      forall b: Alert | DedupKey(b) == DedupKey(a) ensures SameSubject(a, b) {
        KeySplits(b, a);
        UniqueColon(a.source, a.title, b.source, b.title);
      }
    }
  }

  lemma UniqueColon(p: string, q: string, r: string, s: string)
    requires ':' !in p && ':' !in q && p + ":" + q == r + ":" + s
    ensures p == r && q == s
  {
    var x := p + ":" + q;
    assert x[|r|] == (r + ":" + s)[|r|] == ':';
    assert forall i :: 0 <= i < |x| ==> (i < |p| ==> x[i] in p) && (i > |p| ==> x[i] in q);
    assert x[..|p|] == p && x[|p| + 1..] == q;
    assert (r + ":" + s)[..|r|] == r && (r + ":" + s)[|r| + 1..] == s;
  }

  /** A colon moved from the source to the title: two subjects, one key. */
  lemma SubjectsClash(a: Alert)
    ensures var x, y := a.(source := "db:main", title := "lag"), a.(source := "db", title := "main:lag");
      !SameSubject(x, y) && DedupKey(x) == DedupKey(y)
  {
    var x, y := a.(source := "db:main", title := "lag"), a.(source := "db", title := "main:lag");
    assert x.source + ":" + x.title == "db:main:lag" == y.source + ":" + y.title;
    KeySplits(x, y);
    assert |x.source| != |y.source|;
  }

  /** Identifier, message, labels and timestamp are not in the key, colons or not. */
  lemma SubjectIsKey(a: Alert, b: Alert)
    requires SameSubject(a, b)
    ensures DedupKey(a) == DedupKey(b)
  {
  }

  /** Hence no key tells its alert from all others. */
  lemma KeyNeverUnique(a: Alert)
    ensures exists b: Alert :: b != a && SameSubject(a, b) && DedupKey(a) == DedupKey(b)
  {
    var b := a.(message := a.message + "!");
    assert |b.message| != |a.message|;
    SubjectIsKey(a, b);
  }
}
