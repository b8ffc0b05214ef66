/** Retention bookkeeping of crates/backup-shim over timed runs, and the retry loop of one backup. */
module Backup {
  import opened Base

  datatype Entry = Entry(filename: string, createdAt: int, sizeBytes: nat, checksum: string)

  datatype State = State(
    success: nat,
    failure: nat,
    retained: nat,
    expired: nat,
    last: Option<int>,
    lastSize: nat,
    history: seq<Entry>)

  const FRESH := State(0, 0, 0, 0, None, 0, [])

  const NANOS_PER_DAY: nat := 86_400 * NANOS_PER_SEC

  /** `delay` is the time between the two clock readings of `record_backup`. */
  datatype Op =
    | Recorded(filename: string, sizeBytes: nat, checksum: string, delay: nat)
    | Failed
    | Cleanup(retentionDays: nat)

  datatype Event = At(now: int, op: Op)

  function Kept(history: seq<Entry>, cutoff: int): (r: seq<Entry>)
    ensures |r| <= |history|
  {
    if history == [] then []
    else
      var r := Kept(history[..|history| - 1], cutoff);
      if history[|history| - 1].createdAt >= cutoff then r + [history[|history| - 1]] else r
  }

  function ExpiredNames(history: seq<Entry>, cutoff: int): seq<string> {
    if history == [] then []
    else
      var r := ExpiredNames(history[..|history| - 1], cutoff);
      if history[|history| - 1].createdAt < cutoff then r + [history[|history| - 1].filename] else r
  }

  lemma CutNext(history: seq<Entry>, cutoff: int, i: nat)
    requires i < |history|
    ensures var kept, names := Kept(history[..i], cutoff), ExpiredNames(history[..i], cutoff);
      if history[i].createdAt < cutoff
      then Kept(history[..i + 1], cutoff) == kept
        && ExpiredNames(history[..i + 1], cutoff) == names + [history[i].filename]
      else Kept(history[..i + 1], cutoff) == kept + [history[i]] && ExpiredNames(history[..i + 1], cutoff) == names
  {
    assert history[..i + 1][..i] == history[..i];
  }

  function Cutoff(now: int, days: nat): int { now - days * NANOS_PER_DAY }

  lemma {:induction false} KeptMembers(h: seq<Entry>, cutoff: int)
    ensures forall e :: e in Kept(h, cutoff) <==> e in h && e.createdAt >= cutoff
    ensures forall f :: f in ExpiredNames(h, cutoff) <==> exists e :: e in h && e.filename == f && e.createdAt < cutoff
  {
    if h != [] {
      var before, last := h[..|h| - 1], h[|h| - 1];
      KeptMembers(before, cutoff);
      assert forall e :: e in h <==> e in before || e == last;
      forall f ensures f in ExpiredNames(h, cutoff) <==> exists e :: e in h && e.filename == f && e.createdAt < cutoff {
        assert f in ExpiredNames(h, cutoff)
          <==> f in ExpiredNames(before, cutoff) || (last.createdAt < cutoff && f == last.filename);
      }
    }
  }

  /** Cleanup keeps what is at most so many days old, to the nanosecond, and reports the rest. */
  lemma KeptByDays(h: seq<Entry>, now: int, days: nat)
    ensures var cutoff := Cutoff(now, days);
      && (forall e :: e in Kept(h, cutoff) <==> e in h && now - e.createdAt <= days * 86_400_000_000_000)
      && (forall f :: f in ExpiredNames(h, cutoff) <==>
            exists e :: e in h && e.filename == f && now - e.createdAt > days * 86_400_000_000_000)
  {
    KeptMembers(h, Cutoff(now, days));
    assert Cutoff(now, days) == now - days * 86_400_000_000_000;
  }

  function Step(s: State, e: Event): State {
    match e.op
    case Recorded(filename, size, checksum, delay) =>
      var h := s.history + [Entry(filename, e.now, size, checksum)];
      State(s.success + 1, s.failure, |h|, s.expired, Some(e.now + delay), size, h)
    case Failed => s.(failure := s.failure + 1)
    case Cleanup(days) =>
      var h := Kept(s.history, Cutoff(e.now, days));
      s.(history := h, expired := s.expired + (|s.history| - |h|), retained := |h|)
  }

  function After(es: seq<Event>): State {
    if es == [] then FRESH else Step(After(es[..|es| - 1]), es[|es| - 1])
  }

  ghost predicate Clocked(es: seq<Event>) { forall i, j :: 0 <= i <= j < |es| ==> es[i].now <= es[j].now }

  /** The entry an event records, if any. */
  function Adds(e: Event): seq<Entry> {
    if e.op.Recorded? then [Entry(e.op.filename, e.now, e.op.sizeBytes, e.op.checksum)] else []
  }

  /** Everything ever recorded, in order. */
  function AllRecorded(es: seq<Event>): seq<Entry> {
    if es == [] then [] else AllRecorded(es[..|es| - 1]) + Adds(es[|es| - 1])
  }

  ghost predicate ByAge(h: seq<Entry>) { forall i, j :: 0 <= i < j < |h| ==> h[i].createdAt <= h[j].createdAt }

  function Names(h: seq<Entry>): seq<string> {
    if h == [] then [] else Names(h[..|h| - 1]) + [h[|h| - 1].filename]
  }

  lemma {:induction false} NamesAppend(a: seq<Entry>, b: seq<Entry>)
    ensures Names(a + b) == Names(a) + Names(b)
  {
    if b == [] {
      assert a + b == a;
    } else {
      assert (a + b)[..|a + b| - 1] == a + b[..|b| - 1];
      NamesAppend(a, b[..|b| - 1]);
    }
  }

  lemma SnocSlices(h: seq<Entry>, e: Entry, n: nat)
    requires n <= |h|
    ensures (h + [e])[n..] == h[n..] + [e] && (h + [e])[..n] == h[..n]
  {
  }

  lemma ByAgeSnoc(h: seq<Entry>, e: Entry)
    requires ByAge(h) && forall i :: 0 <= i < |h| ==> h[i].createdAt <= e.createdAt
    ensures ByAge(h + [e])
  {
  }

  /** The cutoff falls before entry `n`. */
  ghost predicate CutsAt(h: seq<Entry>, cutoff: int, n: nat) {
    && n <= |h|
    && (forall i :: 0 <= i < n ==> h[i].createdAt < cutoff)
    && (forall i :: n <= i < |h| ==> h[i].createdAt >= cutoff)
  }

  lemma {:induction false} CutExists(h: seq<Entry>, cutoff: int) returns (n: nat)
    requires ByAge(h)
    ensures CutsAt(h, cutoff, n)
  {
    n := 0;
    while n < |h| && h[n].createdAt < cutoff
      invariant n <= |h| && forall i :: 0 <= i < n ==> h[i].createdAt < cutoff
    {
      n := n + 1;
    }
  }

  lemma {:induction false} KeptIsSuffix(h: seq<Entry>, cutoff: int, n: nat)
    requires CutsAt(h, cutoff, n)
    ensures Kept(h, cutoff) == h[n..]
  {
    if h != [] {
      var before, e := h[..|h| - 1], h[|h| - 1];
      if n == |h| {
        KeptIsSuffix(before, cutoff, n - 1);
      } else {
        KeptIsSuffix(before, cutoff, n);
        assert h[n..] == before[n..] + [e];
      }
    }
  }

  lemma {:induction false} ExpiredIsPrefix(h: seq<Entry>, cutoff: int, n: nat)
    requires CutsAt(h, cutoff, n)
    ensures ExpiredNames(h, cutoff) == Names(h[..n])
  {
    if h != [] {
      var before := h[..|h| - 1];
      if n == |h| {
        ExpiredIsPrefix(before, cutoff, n - 1);
        assert h[..n] == h && before[..n - 1] == before;
      } else {
        ExpiredIsPrefix(before, cutoff, n);
        assert h[..n] == before[..n];
      }
    }
  }

  /** On a history sorted by age, cleanup cuts it in two: the expired prefix is reported, the suffix kept. */
  lemma CleanupSplits(h: seq<Entry>, cutoff: int) returns (n: nat)
    requires ByAge(h)
    ensures CutsAt(h, cutoff, n) && Kept(h, cutoff) == h[n..] && ExpiredNames(h, cutoff) == Names(h[..n])
  {
    n := CutExists(h, cutoff);
    KeptIsSuffix(h, cutoff, n);
    ExpiredIsPrefix(h, cutoff, n);
  }

  lemma SuffixByAge(h: seq<Entry>, n: nat)
    requires ByAge(h) && n <= |h|
    ensures ByAge(h[n..])
  {
  }

  lemma CleanupConserves(h: seq<Entry>, cutoff: int)
    requires ByAge(h)
    ensures ExpiredNames(h, cutoff) + Names(Kept(h, cutoff)) == Names(h) && ByAge(Kept(h, cutoff))
  {
    var n := CleanupSplits(h, cutoff);
    assert h[..n] + h[n..] == h;
    NamesAppend(h[..n], h[n..]);
    SuffixByAge(h, n);
  }

  /** The history is what was recorded minus the expired front, sorted by age and not later than the clock. */
  ghost predicate IsSuffix(s: State, all: seq<Entry>, clock: int) {
    && s.expired <= |all| && s.history == all[s.expired..]
    && ByAge(all) && (forall i :: 0 <= i < |all| ==> all[i].createdAt <= clock)
  }

  lemma RecordSuffix(s: State, all: seq<Entry>, e: Event)
    requires IsSuffix(s, all, e.now) && e.op.Recorded?
    ensures IsSuffix(Step(s, e), all + Adds(e), e.now)
  {
    ByAgeSnoc(all, Adds(e)[0]);
    SnocSlices(all, Adds(e)[0], s.expired);
  }

  lemma CleanupSuffix(s: State, all: seq<Entry>, e: Event)
    requires IsSuffix(s, all, e.now) && e.op.Cleanup?
    ensures IsSuffix(Step(s, e), all, e.now)
  {
    var n := CleanupSplits(s.history, Cutoff(e.now, e.op.retentionDays));
    assert all[s.expired..][n..] == all[s.expired + n..];
  }

  /** Nothing recorded is lost or reordered, in any timed run. */
  lemma {:induction false} HistoryIsSuffix(es: seq<Event>, clock: int)
    requires Clocked(es) && forall i :: 0 <= i < |es| ==> es[i].now <= clock
    ensures IsSuffix(After(es), AllRecorded(es), clock)
  {
    if es != [] {
      var before, e := es[..|es| - 1], es[|es| - 1];
      assert forall i :: 0 <= i < |before| ==> es[i].now <= es[|es| - 1].now;
      HistoryIsSuffix(before, e.now);
      var s, all := After(before), AllRecorded(before);
      if e.op.Recorded? {
        RecordSuffix(s, all, e);
      } else {
        assert all + [] == all;
        if e.op.Cleanup? {
          CleanupSuffix(s, all, e);
        }
      }
    }
  }

  /** Every success is either still retained or was expired, and the gauge agrees with the history. */
  lemma {:induction false} Bookkeeping(es: seq<Event>)
    ensures var s := After(es); s.success == |s.history| + s.expired && s.retained == |s.history|
  {
    if es != [] { Bookkeeping(es[..|es| - 1]); }
  }

  lemma {:induction false} SuccessesRecorded(es: seq<Event>)
    ensures After(es).success == |AllRecorded(es)|
  {
    if es != [] { SuccessesRecorded(es[..|es| - 1]); }
  }

  /** The last-backup fields are those of the latest record. */
  lemma {:induction false} LastIsLatest(es: seq<Event>)
    ensures AllRecorded(es) != [] ==>
      var latest := AllRecorded(es)[|AllRecorded(es)| - 1];
      After(es).lastSize == latest.sizeBytes && After(es).last.Some? && latest.createdAt <= After(es).last.value
  {
    if es != [] {
      LastIsLatest(es[..|es| - 1]);
      assert Adds(es[|es| - 1]) == [] ==> AllRecorded(es) == AllRecorded(es[..|es| - 1]);
    }
  }

  /** In every timed run the entry `history_summary` looks at first is the oldest one. */
  lemma {:induction false} FirstIsOldest(es: seq<Event>, clock: int)
    requires Clocked(es) && forall i :: 0 <= i < |es| ==> es[i].now <= clock
    ensures ByAge(After(es).history)
    ensures forall e :: e in After(es).history ==> After(es).history[0].createdAt <= e.createdAt <= clock
  {
    HistoryIsSuffix(es, clock);
  }

  function TotalBytes(h: seq<Entry>): nat {
    if h == [] then 0 else TotalBytes(h[..|h| - 1]) + h[|h| - 1].sizeBytes
  }

  /** The byte total of a history is that of its parts, down to single entries. */
  lemma {:induction false} TotalBytesAppend(a: seq<Entry>, b: seq<Entry>)
    ensures TotalBytes(a + b) == TotalBytes(a) + TotalBytes(b)
    ensures |b| == 1 ==> TotalBytes(b) == b[0].sizeBytes
  {
    if b == [] {
      assert a + b == a;
    } else {
      TotalBytesAppend(a, b[..|b| - 1]);
      assert (a + b)[..|a + b| - 1] == a + b[..|b| - 1];
    }
  }

  // ---------------------------------------------------------------- one backup with retries

  /** How an attempt ends: a dump of some size, an error worth retrying, or an error that leaves at once. */
  datatype Attempt = Dumped(sizeBytes: nat, checksum: string) | Retry | Abort

  datatype Outcome = Completed | Exhausted | Aborted

  /** How many of the first `n` attempts fail retryably before one that does not. */
  function Retries(attempts: seq<Attempt>, n: nat): (k: nat)
    requires n <= |attempts|
    ensures k <= n && forall j :: 0 <= j < k ==> attempts[j] == Retry
    ensures k < n ==> attempts[k] != Retry
  {
    if n == 0 || attempts[0] != Retry then 0 else 1 + Retries(attempts[1..], n - 1)
  }

  /** `made` tells whether the output directory could be created; without it no attempt is made. */
  function Verdict(made: bool, maxRetries: nat, attempts: seq<Attempt>): Outcome
    requires |attempts| > maxRetries
  {
    var k := Retries(attempts, maxRetries + 1);
    if !made then Aborted
    else if k > maxRetries then Exhausted
    else if attempts[k].Dumped? then Completed
    else Aborted
  }

  /** The state one backup leaves. */
  function Backed(s: State, filename: string, made: bool, maxRetries: nat, attempts: seq<Attempt>,
                  now: int, delay: nat): State
    requires |attempts| > maxRetries
  {
    match Verdict(made, maxRetries, attempts)
    case Completed =>
      var a := attempts[Retries(attempts, maxRetries + 1)];
      Step(s, At(now, Recorded(filename, a.sizeBytes, a.checksum, delay)))
    case Exhausted => Step(s, At(now, Failed))
    case Aborted => s
  }

  /** Some attempt made leaves at once. */
  ghost predicate Leaves(maxRetries: nat, attempts: seq<Attempt>)
    requires |attempts| > maxRetries
  {
    exists i :: 0 <= i <= maxRetries && attempts[i] == Abort && forall j :: 0 <= j < i ==> attempts[j] == Retry
  }

  /**
   * A backup counts as one success or one failure if and only if the directory was made and no
   * attempt left at once; otherwise it counts as neither.
   */
  lemma CountedIff(s: State, filename: string, made: bool, maxRetries: nat, attempts: seq<Attempt>,
                   now: int, delay: nat)
    requires |attempts| > maxRetries
    ensures var t := Backed(s, filename, made, maxRetries, attempts, now, delay);
      && (t.success + t.failure == s.success + s.failure + 1 <==> made && !Leaves(maxRetries, attempts))
      && (t.success + t.failure != s.success + s.failure + 1 ==> t == s)
  {
    var k := Retries(attempts, maxRetries + 1);
    if made && k <= maxRetries && attempts[k] == Abort {
      assert Leaves(maxRetries, attempts);
    }
  }

  lemma RetriesAt(attempts: seq<Attempt>, n: nat, i: nat)
    requires i <= n <= |attempts| && (i < n ==> attempts[i] != Retry)
    requires forall j :: 0 <= j < i ==> attempts[j] == Retry
    ensures Retries(attempts, n) == i
  {
  }

  /** The first attempt that is not retryable, when it dumps, is recorded: one success, one entry, no failure. */
  lemma DumpIsRecorded(s: State, filename: string, maxRetries: nat, attempts: seq<Attempt>,
                       now: int, delay: nat, i: nat)
    requires i <= maxRetries < |attempts| && attempts[i].Dumped? && forall j :: 0 <= j < i ==> attempts[j] == Retry
    ensures var t := Backed(s, filename, true, maxRetries, attempts, now, delay);
      && t.success == s.success + 1 && t.failure == s.failure && t.expired == s.expired
      && t.history == s.history + [Entry(filename, now, attempts[i].sizeBytes, attempts[i].checksum)]
      && t.retained == |s.history| + 1 && t.last == Some(now + delay) && t.lastSize == attempts[i].sizeBytes
  {
    RetriesAt(attempts, maxRetries + 1, i);
  }

  /** When every attempt fails retryably only the failure counter moves, by one. */
  lemma ExhaustionFails(s: State, filename: string, maxRetries: nat, attempts: seq<Attempt>, now: int, delay: nat)
    requires maxRetries < |attempts| && forall j :: 0 <= j <= maxRetries ==> attempts[j] == Retry
    ensures Backed(s, filename, true, maxRetries, attempts, now, delay) == s.(failure := s.failure + 1)
  {
    RetriesAt(attempts, maxRetries + 1, maxRetries + 1);
  }

  /** A backup of an unsupported database, or without its directory, is counted nowhere. */
  lemma AbortUncounted(s: State, filename: string, attempt: Attempt, now: int, delay: nat)
    ensures Backed(s, filename, true, 0, [Abort], now, delay) == s
    ensures Backed(s, filename, false, 0, [attempt], now, delay) == s
  {
    assert Retries([Abort], 1) == 0;
  }

  class Keeper {
    var backupSuccess: nat
    var backupFailure: nat
    var backupsRetained: nat
    var backupsExpired: nat
    var lastBackup: Option<int>
    var lastBackupSize: nat
    var backupHistory: seq<Entry>

    ghost function Abs(): State
      reads this
    {
      State(backupSuccess, backupFailure, backupsRetained, backupsExpired, lastBackup, lastBackupSize, backupHistory)
    }

    constructor ()
      ensures Abs() == FRESH
    {
      backupSuccess, backupFailure, backupsRetained, backupsExpired := 0, 0, 0, 0;
      lastBackup, lastBackupSize, backupHistory := None, 0, [];
    }

    method RecordBackup(filename: string, sizeBytes: nat, checksum: string, now: int, delay: nat)
      modifies this
      ensures Abs() == Step(old(Abs()), At(now, Recorded(filename, sizeBytes, checksum, delay)))
    {
      backupHistory := backupHistory + [Entry(filename, now, sizeBytes, checksum)];
      backupSuccess := backupSuccess + 1;
      lastBackup := Some(now + delay);
      lastBackupSize := sizeBytes;
      backupsRetained := |backupHistory|;
    }

    method RecordFailure(now: int)
      modifies this`backupFailure
      ensures Abs() == Step(old(Abs()), At(now, Failed))
    {
      backupFailure := backupFailure + 1;
    }

    method CleanupRetention(retentionDays: nat, now: int) returns (expired: seq<string>)
      modifies this`backupHistory, this`backupsExpired, this`backupsRetained
      ensures Abs() == Step(old(Abs()), At(now, Cleanup(retentionDays)))
      ensures expired == ExpiredNames(old(backupHistory), Cutoff(now, retentionDays))
      ensures forall e :: e in backupHistory <==>
        e in old(backupHistory) && now - e.createdAt <= retentionDays * 86_400_000_000_000
      ensures forall f :: f in expired <==>
        exists e :: e in old(backupHistory) && e.filename == f && now - e.createdAt > retentionDays * 86_400_000_000_000
      ensures old(ByAge(backupHistory)) ==>
        expired + Names(backupHistory) == Names(old(backupHistory)) && ByAge(backupHistory)
    {
      ghost var s := Abs();
      var cutoff := Cutoff(now, retentionDays);
      var history := backupHistory;
      expired := [];
      var kept := [];
      for i := 0 to |history|
        invariant Abs() == s
        invariant expired == ExpiredNames(history[..i], cutoff) && kept == Kept(history[..i], cutoff)
      {
        CutNext(history, cutoff, i);
        if history[i].createdAt < cutoff {
          expired := expired + [history[i].filename];
        } else {
          kept := kept + [history[i]];
        }
      }
      assert history[..|history|] == history;
      KeptByDays(history, now, retentionDays);
      backupsExpired := backupsExpired + (|history| - |kept|);
      backupHistory := kept;
      backupsRetained := |backupHistory|;
      if ByAge(history) {
        CleanupConserves(history, cutoff);
      }
    }

    /** Count, total bytes, and the age in whole days of the first entry. */
    method HistorySummary(now: int) returns (count: nat, totalBytes: nat, oldestDays: nat)
      requires forall e :: e in backupHistory ==> e.createdAt <= now
      ensures count == |backupHistory| && totalBytes == TotalBytes(backupHistory)
      ensures backupHistory == [] ==> oldestDays == 0
      ensures backupHistory != [] ==> oldestDays == (now - backupHistory[0].createdAt) / NANOS_PER_DAY
      ensures ByAge(backupHistory) ==>
        forall e :: e in backupHistory ==> (now - e.createdAt) / NANOS_PER_DAY <= oldestDays
    {
      count, totalBytes, oldestDays := |backupHistory|, 0, 0;
      for i := 0 to |backupHistory|
        invariant totalBytes == TotalBytes(backupHistory[..i])
      {
        assert backupHistory[..i + 1][..i] == backupHistory[..i];
        totalBytes := totalBytes + backupHistory[i].sizeBytes;
      }
      assert backupHistory[..|backupHistory|] == backupHistory;
      if backupHistory != [] {
        oldestDays := (now - backupHistory[0].createdAt) / NANOS_PER_DAY;
        forall e | ByAge(backupHistory) && e in backupHistory
          ensures (now - e.createdAt) / NANOS_PER_DAY <= oldestDays
        {
          DaysMonotone(now - e.createdAt, now - backupHistory[0].createdAt);
        }
      }
    }

    /**
     * One backup: at most `maxRetries + 1` attempts, the first that is not a retryable error deciding.
     * A dump is recorded once; running out of attempts counts one failure; an abort counts nothing.
     */
    method RunBackup(filename: string, made: bool, maxRetries: nat, attempts: seq<Attempt>, now: int, delay: nat)
      returns (outcome: Outcome, used: nat)
      requires |attempts| > maxRetries
      modifies this
      ensures outcome == Verdict(made, maxRetries, attempts)
      ensures Abs() == Backed(old(Abs()), filename, made, maxRetries, attempts, now, delay)
      ensures made <==> used > 0
      ensures used <= maxRetries + 1 && forall j :: 0 <= j < used - 1 ==> attempts[j] == Retry
      ensures outcome == Completed ==> used > 0 && attempts[used - 1].Dumped?
      ensures outcome == Exhausted ==> used == maxRetries + 1 && attempts[used - 1] == Retry
      ensures outcome == Aborted ==> used == 0 || attempts[used - 1] == Abort
      ensures used == if made then Min(Retries(attempts, maxRetries + 1), maxRetries) + 1 else 0
    {
      used := 0;
      if !made {
        return Aborted, used;
      }
      ghost var k := Retries(attempts, maxRetries + 1);
      while used <= maxRetries
        invariant used <= k <= maxRetries + 1 && Abs() == old(Abs())
      {
        var attempt := attempts[used];
        used := used + 1;
        match attempt {
          case Dumped(size, checksum) =>
            RecordBackup(filename, size, checksum, now, delay);
            return Completed, used;
          case Abort =>
            return Aborted, used;
          case Retry =>
        }
      }
      RecordFailure(now);
      outcome := Exhausted;
    }
  }

  lemma DaysMonotone(a: int, b: int)
    requires 0 <= a <= b
    ensures a / NANOS_PER_DAY <= b / NANOS_PER_DAY
  {
  }
}
