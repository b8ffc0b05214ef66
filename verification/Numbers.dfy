/** Decimal printing and parsing of unsigned integers, and bitwise or, as the Rust library defines them. */
module Numbers {
  import opened Base

  const U64_LIMIT: nat := 0x1_0000_0000_0000_0000
  const U32_LIMIT: nat := 0x1_0000_0000

  predicate IsDigit(c: char) { '0' <= c <= '9' }

  function DigitValue(c: char): nat
    requires IsDigit(c)
  {
    c as nat - '0' as nat
  }

  function Digit(d: nat): (c: char)
    requires d < 10
    ensures IsDigit(c) && DigitValue(c) == d
  {
    ('0' as nat + d) as char
  }

  ghost predicate AllDigits(s: string) { forall c :: c in s ==> IsDigit(c) }

  /** The decimal digits of `n`, without leading zeros. */
  function Dec(n: nat): (s: string)
    ensures s != ""
  {
    if n < 10 then [Digit(n)] else Dec(n / 10) + [Digit(n % 10)]
  }

  /** `str::parse::<u64>` on the digits: none for a non-digit. */
  function Value(s: string): Option<nat> {
    if s == "" then Some(0)
    else
      var rest, c := Value(s[..|s| - 1]), s[|s| - 1];
      if rest.Some? && IsDigit(c) then Some(10 * rest.value + DigitValue(c)) else None
  }

  /** An optional plus sign, at least one digit, and no overflow. */
  function ParseU64(s: string): Option<nat> {
    var t := if s != "" && s[0] == '+' then s[1..] else s;
    if t == "" then None
    else
      var v := Value(t);
      if v.Some? && v.value < U64_LIMIT then v else None
  }

  lemma {:induction false} ValueOfDec(n: nat)
    ensures Value(Dec(n)) == Some(n) && AllDigits(Dec(n))
  {
    if n < 10 {
      assert [Digit(n)][..0] == "";
    } else {
      ValueOfDec(n / 10);
      assert Dec(n)[..|Dec(n)| - 1] == Dec(n / 10);
    }
  }

  /** Parsing inverts printing for every 64-bit value. */
  lemma ParseOfDec(n: nat)
    requires n < U64_LIMIT
    ensures ParseU64(Dec(n)) == Some(n)
    ensures '/' !in Dec(n)
  {
    ValueOfDec(n);
    assert Dec(n)[0] in Dec(n);
  }

  function Zeros(n: nat): (s: string)
    ensures |s| == n
  {
    if n == 0 then "" else Zeros(n - 1) + "0"
  }

  /** Leading zeros do not change the value. */
  lemma {:induction false} ValueOfPadded(n: nat, s: string)
    requires Value(s).Some?
    ensures Value(Zeros(n) + s) == Value(s)
  {
    if s == "" {
      if n > 0 {
        ValueOfPadded(n - 1, "");
        assert Zeros(n - 1) + "" == Zeros(n - 1);
        assert (Zeros(n) + "")[..n - 1] == Zeros(n - 1);
      }
    } else {
      ValueOfPadded(n, s[..|s| - 1]);
      assert (Zeros(n) + s)[..n + |s| - 1] == Zeros(n) + s[..|s| - 1];
    }
  }

  /** `{:0w}` formatting. */
  function PadTo(w: nat, n: nat): string {
    Zeros(if |Dec(n)| < w then w - |Dec(n)| else 0) + Dec(n)
  }

  lemma PadToInjective(w: nat, m: nat, n: nat)
    requires PadTo(w, m) == PadTo(w, n)
    ensures m == n
  {
    ValueOfDec(m);
    ValueOfDec(n);
    ValueOfPadded(if |Dec(m)| < w then w - |Dec(m)| else 0, Dec(m));
    ValueOfPadded(if |Dec(n)| < w then w - |Dec(n)| else 0, Dec(n));
  }

  // ---------------------------------------------------------------- bits

  /** Bitwise or, bit by bit from the low end. */
  function BitOr(a: nat, b: nat): nat
    decreases a + b
  {
    if a == 0 then b
    else if b == 0 then a
    else 2 * BitOr(a / 2, b / 2) + (if a % 2 == 1 || b % 2 == 1 then 1 else 0)
  }

  /** `(upper << 32) | lower` on 64 bits: the shift drops what leaves the word. */
  function ShiftOr32(upper: nat, lower: nat): nat {
    BitOr(upper * U32_LIMIT % U64_LIMIT, lower)
  }

  /** Or-ing a number into the low bits that are zero is adding it. */
  lemma {:induction false} OrIntoLowBits(x: nat, k: nat, y: nat)
    requires y < Pow2(k)
    ensures BitOr(x * Pow2(k), y) == x * Pow2(k) + y
    decreases k
  {
    if k == 0 || y == 0 || x == 0 {
    } else {
      var a := x * Pow2(k - 1);
      assert x * Pow2(k) == 2 * a by { MulDouble(x, Pow2(k - 1)); }
      assert a > 0 by { MulMonotone(1, x, Pow2(k - 1)); }
      OrIntoLowBits(x, k - 1, y / 2);
      OrHalves(a, y);
    }
  }

  lemma MulDouble(x: nat, p: nat)
    ensures x * (2 * p) == 2 * (x * p)
  {
  }

  lemma OrHalves(a: nat, y: nat)
    requires a > 0 && y > 0
    ensures BitOr(2 * a, y) == 2 * BitOr(a, y / 2) + y % 2
  {
    assert 2 * a / 2 == a && 2 * a % 2 == 0;
  }

  lemma Pow2Of32()
    ensures Pow2(32) == U32_LIMIT
  {
    assert Pow2(8) == 256;
    assert Pow2(16) == 0x1_0000;
    assert Pow2(24) == 0x100_0000;
  }

  /** Shifting keeps the low 32 bits of the upper half. */
  lemma ShiftKeepsLow(upper: nat)
    ensures upper * U32_LIMIT % U64_LIMIT == upper % U32_LIMIT * U32_LIMIT
  {
    assert upper * U32_LIMIT == upper % U32_LIMIT * U32_LIMIT + upper / U32_LIMIT * U64_LIMIT;
  }

  /** Or-ing in a lower half that fits is adding it; the upper half counts modulo 2^32. */
  lemma ShiftOrIsSum(upper: nat, lower: nat)
    requires lower < U32_LIMIT
    ensures ShiftOr32(upper, lower) == upper % U32_LIMIT * U32_LIMIT + lower
  {
    ShiftKeepsLow(upper);
    Pow2Of32();
    OrIntoLowBits(upper % U32_LIMIT, 32, lower);
  }

  // ---------------------------------------------------------------- which texts are numbers, and bits

  /** A text has a value exactly when it is all digits; one more digit shifts it by ten. */
  lemma {:induction false} ValueIff(s: string)
    ensures Value(s).Some? <==> AllDigits(s)
    ensures Value("") == Some(0)
    ensures s != "" && AllDigits(s) ==>
      Value(s).value == 10 * Value(s[..|s| - 1]).value + (s[|s| - 1] as int - '0' as int)
  {
    if s != "" {
      ValueIff(s[..|s| - 1]);
      assert s == s[..|s| - 1] + [s[|s| - 1]];
    }
  }

  /** Exactly which texts are 64-bit numbers: digits, after at most one plus sign, of a value that fits. */
  lemma ParseU64Iff(s: string)
    ensures s == "" || s[0] != '+' ==>
      ParseU64(s) == if s != "" && Value(s).Some? && Value(s).value < 0x1_0000_0000_0000_0000 then Value(s) else None
    ensures s != "" && s[0] == '+' ==>
      var t := s[1..];
      ParseU64(s) == if t != "" && Value(t).Some? && Value(t).value < 0x1_0000_0000_0000_0000 then Value(t) else None
  {
    ValueIff(s);
    if s != "" { ValueIff(s[1..]); }
  }

  /** Binary digit `i`. */
  predicate BitAt(n: nat, i: nat) { if i == 0 then n % 2 == 1 else BitAt(n / 2, i - 1) }

  lemma {:induction false} ZeroBits(i: nat)
    ensures !BitAt(0, i)
  {
    if i > 0 { ZeroBits(i - 1); }
  }

  /** Each bit of the or is the or of the bits. */
  lemma {:induction false} OrBits(a: nat, b: nat, i: nat)
    ensures BitAt(BitOr(a, b), i) <==> BitAt(a, i) || BitAt(b, i)
    decreases i
  {
    ZeroBits(i);
    if a > 0 && b > 0 {
      var h := BitOr(a / 2, b / 2);
      assert BitOr(a, b) / 2 == h;
      if i > 0 { OrBits(a / 2, b / 2, i - 1); }
    }
  }
}
