/**
  getRefundPercent, over nanosecond durations with Go's 64-bit arithmetic. What the
  code measures is the time since the start of the screening.
 */
module Refund {
  import opened Strings
  import opened Results

  const HOUR: int := 3_600_000_000_000
  const DAY: int := 24 * HOUR
  const MIN_INT64: int64 := -0x8000_0000_0000_0000

  // time.Since saturates.
  function Since(start: int, now: int): int64 {
    var d := now - start;
    if d > MAX_INT64 then MAX_INT64 else if d < MIN_INT64 then MIN_INT64 else d
  }

  // Go's remainder takes the sign of the dividend.
  function GoRem(d: int64, m: int64): int64
    requires m > 0
  {
    var n: int := d;
    if n >= 0 then n % m else -((0 - n) % m)
  }

  // Duration.Round: to the nearest multiple, halves away from zero, saturating.
  function Round(d: int64, m: int64): int64
    requires m > 0
  {
    var r := GoRem(d, m);
    if d < 0 then
      var back := -r;
      if back + back < m then d + back
      else if d - m + back >= MIN_INT64 then d - m + back else MIN_INT64
    else
      if r + r < m then d - r
      else if d + m - r <= MAX_INT64 then d + m - r else MAX_INT64
  }

  function RefundPercent(start: int, now: int): Result<nat> {
    var d := Round(Since(start, now), DAY);
    if start > now || now == start || d < 3 * DAY then Err(InvalidArgument)
    else if d >= 10 * DAY then Ok(100)
    else if d <= 5 * DAY && d > 3 * DAY then Ok(50)
    else Ok(30)
  }

  function Abs(x: int): nat { if x < 0 then -x else x }

  lemma WholeDays(q: int)
    ensures (q * DAY) % DAY == 0
  {
  }

  // Which whole number of days it is.
  function Days(d: int64): int {
    var n := Abs(d);
    var q := n / DAY + (if 2 * (n % DAY) < DAY then 0 else 1);
    if d < 0 then -q else q
  }

  // Rounding takes the whole days, as far as they fit 64 bits.
  lemma RoundIsDays(d: int64)
    ensures Round(d, DAY) ==
            if Days(d) * DAY > 0x7fff_ffff_ffff_ffff then 0x7fff_ffff_ffff_ffff
            else if Days(d) * DAY < -0x8000_0000_0000_0000 then -0x8000_0000_0000_0000
            else Days(d) * DAY
  {
    var n: int := Abs(d);
    assert n == (n / DAY) * DAY + n % DAY;
  }

  // Away from the ends of the range, rounding gives the nearest whole number of days,
  // and of two equally near the one farther from zero.
  lemma RoundNearest(d: int64)
    requires -9_223_285_636_854_775_807 <= d <= 9_223_285_636_854_775_807
    ensures Round(d, DAY) % 86_400_000_000_000 == 0
    ensures -43_200_000_000_000 <= d - Round(d, DAY) <= 43_200_000_000_000
    ensures d - Round(d, DAY) == 43_200_000_000_000 ==> d < 0
    ensures d - Round(d, DAY) == -43_200_000_000_000 ==> d > 0
  {
    RoundIsDays(d);
    WholeDays(Days(d));
    hide Round;
    var n: int := Abs(d);
    assert n == (n / DAY) * DAY + n % DAY;
  }

  // The whole table, in nanoseconds since the start: refused below two and a half days, 30
  // percent from there and again from five and a half, 50 percent from three and a half,
  // all from nine and a half.
  lemma RefundTable(start: int, now: int)
    ensures RefundPercent(start, now) ==
            if now - start < 216_000_000_000_000 then Err(InvalidArgument)
            else if now - start < 302_400_000_000_000 then Ok(30)
            else if now - start < 475_200_000_000_000 then Ok(50)
            else if now - start < 820_800_000_000_000 then Ok(30)
            else Ok(100)
  {
  }
}
