/** How Python compares naive `datetime` values: field by field, year first. The
    sorting and cutoff steps of the extraction scripts rely on it. */
module DateTimeOrder {
  import opened DateTimeParse

  /** `a < b` on naive datetimes. */
  predicate Before(a: DateTime, b: DateTime) {
    a.year < b.year || (a.year == b.year &&
    (a.month < b.month || (a.month == b.month &&
    (a.day < b.day || (a.day == b.day &&
    (a.hour < b.hour || (a.hour == b.hour &&
    (a.minute < b.minute || (a.minute == b.minute &&
    (a.second < b.second || (a.second == b.second && a.micro < b.micro)))))))))))
  }

  /** `a <= b` on naive datetimes. */
  predicate NotAfter(a: DateTime, b: DateTime) {
    !Before(b, a)
  }

  /** The date part of a datetime as one integer, in mixed radix. */
  function DayKey(d: DateTime): int {
    (d.year * 12 + (d.month - 1)) * 31 + (d.day - 1)
  }

  /** The microseconds since midnight. */
  function TimeKey(d: DateTime): int {
    ((d.hour * 60 + d.minute) * 60 + d.second) * 1000000 + d.micro
  }

  const MicrosPerDay := 86400000000

  /** A single integer for a datetime: the sort key used in place of the datetime
      itself. */
  function Ordinal(d: DateTime): int {
    DayKey(d) * MicrosPerDay + TimeKey(d)
  }

  /** One digit of a mixed-radix number: the high part decides unless it ties. */
  lemma MixedRadix(x: int, r: int, y: int, s: int, m: int)
    requires 0 <= r < m && 0 <= s < m
    ensures x * m + r < y * m + s <==> x < y || (x == y && r < s)
    ensures x * m + r == y * m + s <==> x == y && r == s
  {
    if x < y {
      assert x * m + r < (x + 1) * m <= y * m + s;
    } else if x > y {
      assert y * m + s < (y + 1) * m <= x * m + r;
    }
  }

  /** The date key orders dates field by field. */
  lemma DayKeyOrder(a: DateTime, b: DateTime)
    requires Valid(a) && Valid(b)
    ensures DayKey(a) < DayKey(b) <==> (a.year < b.year || (a.year == b.year &&
      (a.month < b.month || (a.month == b.month && a.day < b.day))))
    ensures DayKey(a) == DayKey(b) <==> a.year == b.year && a.month == b.month && a.day == b.day
  {
    MixedRadix(a.year, a.month - 1, b.year, b.month - 1, 12);
    MixedRadix(a.year * 12 + (a.month - 1), a.day - 1, b.year * 12 + (b.month - 1), b.day - 1, 31);
  }

  /** The time key orders times of day field by field and stays below one day. */
  lemma TimeKeyOrder(a: DateTime, b: DateTime)
    requires Valid(a) && Valid(b)
    ensures 0 <= TimeKey(a) < MicrosPerDay
    ensures TimeKey(a) < TimeKey(b) <==> (a.hour < b.hour || (a.hour == b.hour &&
      (a.minute < b.minute || (a.minute == b.minute &&
      (a.second < b.second || (a.second == b.second && a.micro < b.micro))))))
    ensures TimeKey(a) == TimeKey(b) <==>
      (a.hour == b.hour && a.minute == b.minute && a.second == b.second && a.micro == b.micro)
  {
    MixedRadix(a.hour, a.minute, b.hour, b.minute, 60);
    var a1, b1 := a.hour * 60 + a.minute, b.hour * 60 + b.minute;
    MixedRadix(a1, a.second, b1, b.second, 60);
    MixedRadix(a1 * 60 + a.second, a.micro, b1 * 60 + b.second, b.micro, 1000000);
  }

  /** Comparing ordinals is comparing the datetimes, and equal ordinals mean equal
      datetimes. */
  lemma OrdinalOrder(a: DateTime, b: DateTime)
    requires Valid(a) && Valid(b)
    ensures Ordinal(a) < Ordinal(b) <==> Before(a, b)
    ensures Ordinal(a) == Ordinal(b) <==> a == b
  {
    DayKeyOrder(a, b);
    TimeKeyOrder(a, b);
    TimeKeyOrder(b, a);
    MixedRadix(DayKey(a), TimeKey(a), DayKey(b), TimeKey(b), MicrosPerDay);
  }

  /** `a <= b` is `Ordinal(a) <= Ordinal(b)`. */
  lemma OrdinalNotAfter(a: DateTime, b: DateTime)
    requires Valid(a) && Valid(b)
    ensures Ordinal(a) <= Ordinal(b) <==> NotAfter(a, b)
  {
    OrdinalOrder(b, a);
  }
}
