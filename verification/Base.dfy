/** Small shared vocabulary: optional values, bytes, and a few functions on naturals. */
module Base {
  datatype Option<+T> = None | Some(value: T)

  newtype Byte = x: int | 0 <= x < 256

  type Bytes = seq<Byte>

  const NANOS_PER_SEC: nat := 1_000_000_000

  function Max(a: nat, b: nat): nat { if a < b then b else a }

  function Min(a: nat, b: nat): nat { if a < b then a else b }

  lemma MulNext(a: nat, k: nat)
    ensures (a + 1) * k == a * k + k
  {
  }

  lemma {:induction false} MulMonotone(a: nat, b: nat, k: nat)
    requires a <= b
    ensures a * k <= b * k
    decreases b
  {
    if a < b {
      MulMonotone(a, b - 1, k);
      MulNext(b - 1, k);
    }
  }

  function Pow2(n: nat): (p: nat)
    ensures p > 0
  {
    if n == 0 then 1 else 2 * Pow2(n - 1)
  }

  lemma {:induction false} Pow2Monotone(m: nat, n: nat)
    requires m <= n
    ensures Pow2(m) <= Pow2(n)
    decreases n
  {
    if m < n {
      Pow2Monotone(m, n - 1);
    }
  }
}
