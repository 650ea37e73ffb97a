/** Volume capacities in Go's int64 arithmetic. */
module Capacity {
  import opened Prelude

  const MiB: int := 0x10_0000
  const DefaultCapacity: int := 0x4000_0000
  const TwoTo63: int := 0x8000_0000_0000_0000

  type Int64 = x: int | -TwoTo63 <= x < TwoTo63

  /** Two's-complement wrap-around. */
  function Wrap(x: int): (r: Int64) {
    (x + TwoTo63) % (2 * TwoTo63) - TwoTo63
  }

  /** Division truncating toward zero. */
  function Quot(n: int, m: int): (q: int)
    requires m > 0
  {
    if n >= 0 then n / m else -((-n) / m)
  }

  datatype Range = Range(required: Int64, limit: Int64)

  function Requested(r: Option<Range>): (c: Int64)
    ensures c > 0
  {
    match r
    case None => DefaultCapacity
    case Some(Range(required, limit)) =>
      if required > 0 then required else if limit > 0 then limit else DefaultCapacity
  }

  function RoundUp(n: Int64, m: Int64): (r: Int64) {
    if m <= 0 then n
    else if n - Quot(n, m) * m == 0 then n
    else Wrap((Quot(n, m) + 1) * m)
  }

  /** For every positive size up to 2^63 - 2^20 rounding gives the least MiB multiple that is
      not below it; beyond, it overflows to the most negative number. */
  lemma RoundUpExactly(n: Int64)
    requires n > 0
    ensures n <= TwoTo63 - MiB ==> RoundUp(n, MiB) % MiB == 0 && n <= RoundUp(n, MiB) < n + MiB
    ensures n > TwoTo63 - MiB ==> RoundUp(n, MiB) == -TwoTo63
  {
  }

  lemma RoundUpIsLeast(n: Int64, k: int)
    requires 0 < n <= TwoTo63 - MiB && k % MiB == 0 && k >= n
    ensures RoundUp(n, MiB) <= k
  {
  }

  lemma RoundUpIdempotentMonotone(n: Int64, p: Int64)
    requires 0 < n <= p <= TwoTo63 - MiB
    ensures RoundUp(RoundUp(n, MiB), MiB) == RoundUp(n, MiB)
    ensures RoundUp(n, MiB) <= RoundUp(p, MiB)
  {
    RoundUpExactly(n);
    RoundUpExactly(p);
    RoundUpIsLeast(n, RoundUp(p, MiB));
    RoundUpExactly(RoundUp(n, MiB));
  }
}
