/** Login lockout of crates/auth-shim against the history of events, and the hex codec for credentials. */
module Auth {
  import opened Base
  import opened Text

  datatype User = User(name: string)

  datatype Config = Config(maxFailedLogins: nat, lockoutSecs: nat)

  datatype State = State(attempts: map<User, nat>, lockedAt: map<User, int>)

  const FRESH := State(map[], map[])

  datatype Op = Fail(user: User) | Clear(user: User)

  /** Times are in nanoseconds. */
  datatype Event = At(now: int, op: Op)

  function Count(s: State, u: User): nat { if u in s.attempts then s.attempts[u] else 0 }

  function Step(cfg: Config, s: State, e: Event): State {
    match e.op
    case Fail(u) =>
      var n := Count(s, u) + 1;
      State(s.attempts[u := n], if n >= cfg.maxFailedLogins then s.lockedAt[u := e.now] else s.lockedAt)
    case Clear(u) => State(s.attempts - {u}, s.lockedAt - {u})
  }

  function After(cfg: Config, es: seq<Event>): State {
    if es == [] then FRESH else Step(cfg, After(cfg, es[..|es| - 1]), es[|es| - 1])
  }

  /** `Duration::num_seconds`: whole seconds, rounded towards zero. */
  function WholeSeconds(nanos: int): int {
    if nanos >= 0 then nanos / NANOS_PER_SEC else -(-nanos / NANOS_PER_SEC)
  }

  predicate LockedOut(cfg: Config, s: State, u: User, now: int) {
    u in s.lockedAt && WholeSeconds(now - s.lockedAt[u]) < cfg.lockoutSecs
  }

  // ---------------------------------------------------------------- the history

  /** The times of a user's failures since the user's last clear, oldest first. */
  function Failures(es: seq<Event>, u: User): seq<int> {
    if es == [] then []
    else
      var e := es[|es| - 1];
      if e.op.user != u then Failures(es[..|es| - 1], u)
      else if e.op.Clear? then []
      else Failures(es[..|es| - 1], u) + [e.now]
  }

  lemma {:induction false} StateIsHistory(cfg: Config, es: seq<Event>, u: User)
    ensures var s, fs := After(cfg, es), Failures(es, u);
      && Count(s, u) == |fs|
      && (u in s.attempts <==> fs != [])
      && (u in s.lockedAt <==> |fs| >= Max(1, cfg.maxFailedLogins))
      && (u in s.lockedAt ==> s.lockedAt[u] == fs[|fs| - 1])
  {
    if es != [] { StateIsHistory(cfg, es[..|es| - 1], u); }
  }

  /** Under so many whole seconds, rounded towards zero: with none, only a clock a whole second behind will do. */
  lemma WholeSecondsBelow(nanos: int, secs: nat)
    ensures WholeSeconds(nanos) < secs <==>
      if secs > 0 then nanos < secs * 1_000_000_000 else nanos <= -1_000_000_000
  {
  }

  /**
   * A user is locked out exactly when there were at least max(1, max_failed_logins) failures since
   * the user's last clear and the latest is under `lockout_secs` old, whatever other users did.
   */
  lemma LockoutIsHistory(cfg: Config, es: seq<Event>, u: User, now: int)
    ensures LockedOut(cfg, After(cfg, es), u, now) <==>
      var fs := Failures(es, u);
      && |fs| >= Max(1, cfg.maxFailedLogins)
      && var age := now - fs[|fs| - 1];
         if cfg.lockoutSecs > 0 then age < cfg.lockoutSecs * 1_000_000_000 else age <= -1_000_000_000
  {
    StateIsHistory(cfg, es, u);
    var s := After(cfg, es);
    if u in s.lockedAt { WholeSecondsBelow(now - s.lockedAt[u], cfg.lockoutSecs); }
  }

  class Guard {
    const cfg: Config
    var failedAttempts: map<User, nat>
    var lockedUsers: map<User, int>

    ghost function Abs(): State
      reads this
    {
      State(failedAttempts, lockedUsers)
    }

    constructor (cfg: Config)
      ensures this.cfg == cfg && Abs() == FRESH
    {
      this.cfg, failedAttempts, lockedUsers := cfg, map[], map[];
    }

    method RecordFailedLogin(user: User, now: int) returns (locked: bool)
      modifies this
      ensures Abs() == Step(cfg, old(Abs()), At(now, Fail(user)))
      ensures locked <==> Count(Abs(), user) >= cfg.maxFailedLogins
      ensures locked && cfg.lockoutSecs > 0 ==> LockedOut(cfg, Abs(), user, now)
    {
      if user !in failedAttempts {
        failedAttempts := failedAttempts[user := 0];
      }
      failedAttempts := failedAttempts[user := failedAttempts[user] + 1];
      if failedAttempts[user] >= cfg.maxFailedLogins {
        lockedUsers := lockedUsers[user := now];
        return true;
      }
      return false;
    }

    method ClearFailedAttempts(user: User, now: int)
      modifies this
      ensures Abs() == Step(cfg, old(Abs()), At(now, Clear(user)))
    {
      failedAttempts := failedAttempts - {user};
      lockedUsers := lockedUsers - {user};
    }
  }

  // ---------------------------------------------------------------- hex

  function HexDigit(n: nat): char
    requires n < 16
  {
    if n < 10 then ('0' as int + n) as char else ('a' as int + (n - 10)) as char
  }

  function HexValue(c: char): Option<nat> {
    if '0' <= c <= '9' then Some(c as nat - '0' as nat)
    else if 'a' <= c <= 'f' then Some(c as nat - 'a' as nat + 10)
    else if 'A' <= c <= 'F' then Some(c as nat - 'A' as nat + 10)
    else None
  }

  function HexEncode(b: Bytes): string {
    if b == [] then "" else [HexDigit(b[0] as nat / 16), HexDigit(b[0] as nat % 16)] + HexEncode(b[1..])
  }

  /** `u8::from_str_radix(_, 16)` on two characters, which takes a leading plus sign. */
  function HexByte(c: char, d: char): Option<Byte> {
    if c == '+' then (if HexValue(d).Some? then Some(HexValue(d).value as Byte) else None)
    else if HexValue(c).Some? && HexValue(d).Some? then Some((16 * HexValue(c).value + HexValue(d).value) as Byte)
    else None
  }

  /** Pairs of characters; none for an odd length or an unreadable pair. */
  function HexDecode(s: string): Option<Bytes> {
    if s == "" then Some([])
    else if |s| == 1 then None
    else
      var first, rest := HexByte(s[0], s[1]), HexDecode(s[2..]);
      if first.Some? && rest.Some? then Some([first.value] + rest.value) else None
  }

  lemma {:induction false} HexRoundTrip(b: Bytes)
    ensures HexDecode(HexEncode(b)) == Some(b)
    ensures |HexEncode(b)| == 2 * |b|
  {
    if b != [] {
      HexRoundTrip(b[1..]);
      assert HexEncode(b)[2..] == HexEncode(b[1..]);
      assert [b[0]] + b[1..] == b;
    }
  }

  /** A hex digit, in either case. */
  predicate IsHex(c: char) { '0' <= c <= '9' || 'a' <= c <= 'f' || 'A' <= c <= 'F' }

  /** The digits a byte is printed with. */
  lemma HexDigitTable(n: nat)
    requires n < 16
    ensures HexDigit(n) == "0123456789abcdef"[n]
  {
  }

  /** A byte is printed as two digits, the high one first. */
  lemma {:induction false} HexEncodeAt(b: Bytes, i: nat)
    requires i < |b|
    ensures |HexEncode(b)| == 2 * |b|
    ensures HexEncode(b)[2 * i] == HexDigit(b[i] as nat / 16)
    ensures HexEncode(b)[2 * i + 1] == HexDigit(b[i] as nat % 16)
  {
    HexRoundTrip(b);
    if i > 0 {
      HexEncodeAt(b[1..], i - 1);
    }
  }

  /** Decoding ignores case. */
  lemma {:induction false} HexIgnoresCase(s: string, t: string)
    requires SameButCase(s, t)
    ensures HexDecode(s) == HexDecode(t)
  {
    if |s| >= 2 {
      HexIgnoresCase(s[2..], t[2..]);
      assert HexByte(s[0], s[1]) == HexByte(t[0], t[1]);
    }
  }

  /** A hex digit, or a plus sign in the place of a leading one. */
  predicate Readable(s: string, i: nat)
    requires i < |s|
  {
    IsHex(s[i]) || (i % 2 == 0 && s[i] == '+')
  }

  /** Exactly which texts decode. */
  lemma {:induction false} HexDecodableIff(s: string)
    ensures HexDecode(s).Some? <==> |s| % 2 == 0 && forall i: nat :: i < |s| ==> Readable(s, i)
  {
    if |s| >= 2 {
      var t := s[2..];
      HexDecodableIff(t);
      assert forall i: nat :: i < |t| ==> (Readable(t, i) <==> Readable(s, i + 2));
      assert HexByte(s[0], s[1]).Some? <==> Readable(s, 0) && Readable(s, 1);
      if HexDecode(s).Some? {
        forall i: nat | i < |s| ensures Readable(s, i) {
          if i >= 2 { assert Readable(t, i - 2); }
        }
      }
    }
  }

  /** A decodable text consists of hex digits if and only if no plus sign is in it. */
  lemma DecodableHexIff(s: string)
    requires HexDecode(s).Some?
    ensures (forall c :: c in s ==> IsHex(c)) <==> '+' !in s
  {
    HexDecodableIff(s);
    forall i: nat | i < |s| && '+' !in s ensures IsHex(s[i]) {
      assert Readable(s, i) && s[i] in s;
    }
  }

  /** A text that is not hex and decodes all the same. */
  lemma PlusDecodes()
    ensures HexDecode("+5") == Some([5]) && !IsHex('+')
  {
    var s := "+5";
    assert HexByte(s[0], s[1]) == Some(5);
    assert HexDecode(s[2..]) == Some([]);
    assert [5 as Byte] + [] == [5];
  }

  predicate Canonical(c: char) { '0' <= c <= '9' || 'a' <= c <= 'f' }

  lemma HexByteCanonicalIff(c: char, d: char)
    requires HexByte(c, d).Some?
    ensures var v := HexByte(c, d).value as nat;
      (HexDigit(v / 16) == c && HexDigit(v % 16) == d) <==> Canonical(c) && Canonical(d)
  {
  }

  /** What decodes is printed back the same exactly when it is all lower-case hex digits. */
  lemma {:induction false} HexReprintIff(s: string)
    requires HexDecode(s).Some?
    ensures HexEncode(HexDecode(s).value) == s <==> forall c :: c in s ==> Canonical(c)
  {
    if s != "" {
      var v, r := HexByte(s[0], s[1]).value, HexDecode(s[2..]).value;
      HexReprintIff(s[2..]);
      HexByteCanonicalIff(s[0], s[1]);
      assert s == [s[0], s[1]] + s[2..];
      assert ([v] + r)[1..] == r;
      var t := HexEncode([v] + r);
      assert t[0] == HexDigit(v as nat / 16) && t[1] == HexDigit(v as nat % 16) && t[2..] == HexEncode(r);
      assert t == s <==> t[0] == s[0] && t[1] == s[1] && t[2..] == s[2..] by {
        assert t == [t[0], t[1]] + t[2..];
      }
    }
  }
}
