/** Millisecond arithmetic shared by the fare and late-exit rules. Days are
    taken to be exactly 24 hours long, in a fixed time zone. */
module Clock {

  const HourMs: int := 3600000
  const DayMs: int := 24 * HourMs

  /** `Math.ceil(ms / 3600000)`: the number of started hours. */
  function HoursCeil(ms: int): (h: int)
    ensures (h - 1) * HourMs < ms <= h * HourMs
  {
    -((-ms) / HourMs)
  }

  /** Started hours never decrease as the duration grows. */
  lemma HoursCeilMonotone(a: int, b: int)
    requires a <= b
    ensures HoursCeil(a) <= HoursCeil(b)
  {
    var ha, hb := HoursCeil(a), HoursCeil(b);
    assert (ha - 1) * HourMs < hb * HourMs;
  }

  /** The instant 00:00:00.000 of the day containing `t`. */
  function DayStart(t: int): (d: int)
    ensures d <= t < d + DayMs
    ensures d % DayMs == 0
  {
    t - t % DayMs
  }

  /** 22:00:00.000 of the day containing `t` (the mall's closing time). */
  function ClosingTime(t: int): (c: int)
    ensures c % DayMs == 22 * HourMs
    ensures c - 22 * HourMs <= t < c + 2 * HourMs
  {
    DayStart(t) + 22 * HourMs
  }

  /** Every instant of a day has that day's start. */
  lemma {:induction false} DayStartOf(k: int, offset: int)
    requires 0 <= offset < DayMs
    ensures DayStart(k * DayMs + offset) == k * DayMs
  {
    var t := k * DayMs + offset;
    var d := DayStart(t);
    assert d % DayMs == 0;
    var q := d / DayMs;
    assert d == q * DayMs;
    assert q * DayMs <= k * DayMs + offset < q * DayMs + DayMs;
    assert (q - k) * DayMs <= offset < (q - k + 1) * DayMs;
  }
}
