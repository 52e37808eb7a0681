/** Rounding a timestamp down to its time bin, as both report generators do it. */
module TimeBinning {
  import opened Numbers

  const DAY_MS := 86_400_000
  const DAY_US := 86_400_000_000

  /** A timestamp as its calendar day and time of day. */
  datatype DateTime = DateTime(day: int, hour: int, minute: int, second: int, microsecond: int)

  predicate Legal(d: DateTime) {
    0 <= d.hour < 24 && 0 <= d.minute < 60 && 0 <= d.second < 60 && 0 <= d.microsecond < 1_000_000
  }

  function DayMs(d: DateTime): int {
    d.hour * 3_600_000 + d.minute * 60_000 + d.second * 1000 + d.microsecond / 1000
  }

  /** The timestamp on one line of microseconds. */
  function Micros(d: DateTime): int {
    d.day * DAY_US + d.hour * 3_600_000_000 + d.minute * 60_000_000 + d.second * 1_000_000 + d.microsecond
  }

  function TimeBin(ts: DateTime, interval: int): DateTime
    requires interval > 0
  {
    AtDayMs(ts, DayMs(ts) / interval * interval)
  }

  /** The same day, at a given millisecond of it. */
  function AtDayMs(ts: DateTime, ms: int): DateTime {
    ts.(hour := ms / 3_600_000,
        minute := ms % 3_600_000 / 60_000,
        second := ms % 60_000 / 1000,
        microsecond := ms % 1000 * 1000)
  }

  /** The bin of an instant given in microseconds: bins restart every day. */
  function BinAt(t: int, interval: int): int
    requires interval > 0
  {
    t / DAY_US * DAY_US + t % DAY_US / 1000 / interval * interval * 1000
  }

  // ----- arithmetic -----

  lemma FloorMultiple(n: int, k: int)
    requires k > 0
    ensures n / k * k <= n < n / k * k + k
  {
  }

  lemma FloorMonotone(a: int, b: int, k: int)
    requires k > 0 && a <= b
    ensures a / k * k <= b / k * k
  {
    FloorMultiple(a, k);
    FloorMultiple(b, k);
    var p, q := a / k, b / k;
    if p > q {
      MulMonotone(q + 1, p, k);
    } else {
      MulMonotone(p, q, k);
    }
  }

  lemma FloorFixed(n: int, k: int)
    requires k > 0
    ensures n / k * k / k * k == n / k * k
  {
    var q := n / k;
    FloorMultiple(q * k, k);
    var r := q * k / k;
    assert r * k <= q * k < (r + 1) * k;
    assert r == q by {
      if r < q {
        MulMonotone(r + 1, q, k);
      } else if q < r {
        MulMonotone(q + 1, r, k);
      }
    }
  }

  /** Splitting milliseconds of a day into fields and putting them together again. */
  lemma FieldsOfMs(ms: int)
    requires 0 <= ms < DAY_MS
    ensures ms / 3_600_000 * 3_600_000 + ms % 3_600_000 / 60_000 * 60_000 + ms % 60_000 / 1000 * 1000 + ms % 1000 == ms
    ensures 0 <= ms / 3_600_000 < 24 && 0 <= ms % 3_600_000 / 60_000 < 60
    ensures 0 <= ms % 60_000 / 1000 < 60 && 0 <= ms % 1000 < 1000
  {
    Whole(ms, 3_600_000);
    Whole(ms % 3_600_000, 60_000);
    MinutesOfHour(ms);
    Whole(ms % 60_000, 1000);
    SecondsOfMinute(ms);
  }

  lemma Whole(n: int, k: int)
    requires k > 0
    ensures n == n / k * k + n % k && 0 <= n % k < k
  {
  }

  lemma MinutesOfHour(ms: int)
    ensures ms % 3_600_000 % 60_000 == ms % 60_000
  {
  }

  lemma SecondsOfMinute(ms: int)
    ensures ms % 60_000 % 1000 == ms % 1000
  {
  }

  lemma DayMsOf(ts: DateTime)
    requires Legal(ts)
    ensures 0 <= DayMs(ts) < DAY_MS
    ensures Micros(ts) == ts.day * DAY_US + DayMs(ts) * 1000 + ts.microsecond % 1000
  {
  }

  // ----- the bin is a floor -----

  /** The rebuilt fields are legal; the bin is on the same day, a whole number of intervals into it,
      at most the timestamp, and less than one interval before it. */
  lemma BinIsFloor(ts: DateTime, interval: int)
    requires Legal(ts) && interval > 0
    ensures var bin := TimeBin(ts, interval);
            && Legal(bin) && bin.day == ts.day
            && DayMs(bin) == DayMs(ts) / interval * interval
            && Micros(bin) == ts.day * DAY_US + DayMs(bin) * 1000
            && Micros(bin) <= Micros(ts) < Micros(bin) + interval * 1000
  {
    DayMsOf(ts);
    BinInDay(DayMs(ts), interval);
    AtDayMsIs(ts, DayMs(ts) / interval * interval);
  }

  lemma BinInDay(day: int, interval: int)
    requires interval > 0 && day >= 0
    ensures 0 <= day / interval * interval <= day < day / interval * interval + interval
  {
    FloorMultiple(day, interval);
    MulMonotone(0, day / interval, interval);
  }

  lemma AtDayMsIs(ts: DateTime, ms: int)
    requires 0 <= ms < DAY_MS
    ensures var at := AtDayMs(ts, ms);
            && Legal(at) && at.day == ts.day && DayMs(at) == ms
            && Micros(at) == ts.day * DAY_US + ms * 1000
  {
    FieldsOfMs(ms);
    var at := AtDayMs(ts, ms);
    assert at.microsecond / 1000 == ms % 1000 && at.microsecond % 1000 == 0;
    DayMsOf(at);
  }

  lemma BinIdempotent(ts: DateTime, interval: int)
    requires Legal(ts) && interval > 0
    ensures TimeBin(TimeBin(ts, interval), interval) == TimeBin(ts, interval)
  {
    BinIsFloor(ts, interval);
    FloorFixed(DayMs(ts), interval);
  }

  lemma BinMonotone(a: DateTime, b: DateTime, interval: int)
    requires Legal(a) && Legal(b) && interval > 0 && Micros(a) <= Micros(b)
    ensures Micros(TimeBin(a, interval)) <= Micros(TimeBin(b, interval))
  {
    BinIsFloor(a, interval);
    BinIsFloor(b, interval);
    DayMsOf(a);
    DayMsOf(b);
    DayMsOf(TimeBin(a, interval));
    DayMsOf(TimeBin(b, interval));
    if a.day == b.day {
      assert DayMs(a) <= DayMs(b);
      FloorMonotone(DayMs(a), DayMs(b), interval);
    } else {
      assert a.day < b.day;
    }
  }

  /** The bin computed on fields is the bin computed on microseconds. */
  lemma BinAtAgrees(ts: DateTime, interval: int)
    requires Legal(ts) && interval > 0
    ensures Micros(TimeBin(ts, interval)) == BinAt(Micros(ts), interval)
  {
    BinIsFloor(ts, interval);
    DayMsOf(ts);
    var t := Micros(ts);
    var rest := DayMs(ts) * 1000 + ts.microsecond % 1000;
    assert t == ts.day * DAY_US + rest && 0 <= rest < DAY_US;
    assert t / DAY_US == ts.day && t % DAY_US == rest;
    assert rest / 1000 == DayMs(ts);
  }
}
