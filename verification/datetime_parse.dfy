/** `combine_date_time`: pairs of date and time strings become datetimes. Each date
    is parsed with `strptime` as `%Y%m%d`, falling back to `%d-%b-%Y`; each time as
    `%H:%M:%S.%f`, falling back to `%I:%M %p`.

    `strptime` compiles its format into a regular expression (one capturing group
    per directive, alternatives tried in the order CPython's `_strptime` lists them,
    case-insensitive), takes the first match `re.match` finds, raises ValueError
    unless that match spans the whole string, and then builds the datetime, which
    raises ValueError for an impossible calendar date or time. The matcher of
    `StrptimeRegex` reproduces that search order, backtracking included. */
module DateTimeParse {
  import opened Wrappers
  import opened PyStr
  import opened StrptimeRegex
  import opened StrptimeMatches
  import opened StrptimeFormats

  // ---------------------------------------------------------------------------
  // Datetimes
  // ---------------------------------------------------------------------------

  datatype DateTime = DateTime(year: int, month: int, day: int, hour: int, minute: int, second: int, micro: int)

  predicate IsLeap(y: int) {
    y % 4 == 0 && (y % 100 != 0 || y % 400 == 0)
  }

  function DaysInMonth(y: int, m: int): int
    requires 1 <= m <= 12
  {
    if m == 2 then (if IsLeap(y) then 29 else 28)
    else if m == 4 || m == 6 || m == 9 || m == 11 then 30
    else 31
  }

  /** What the `datetime` constructor accepts. */
  predicate Valid(d: DateTime) {
    1 <= d.year <= 9999 && 1 <= d.month <= 12 && 1 <= d.day <= DaysInMonth(d.year, d.month)
    && 0 <= d.hour <= 23 && 0 <= d.minute <= 59 && 0 <= d.second <= 59 && 0 <= d.micro <= 999999
  }

  function Build(d: DateTime): (r: Result<DateTime, ExcClass>)
    ensures r.Ok? <==> Valid(d)
    ensures r.Ok? ==> r.value == d
    ensures r.Err? ==> r.error == ValueError
  {
    if Valid(d) then Ok(d) else Err(ValueError)
  }

  /** The month number of a `%b` capture. */
  function MonthOf(name: string): (m: int)
    ensures 1 <= m <= 13
  {
    var lower := seq(|name|, i requires 0 <= i < |name| => Fold(name[i]));
    if lower in MonthNames then FirstIndex(MonthNames, lower) + 1 else 13
  }

  function FirstIndex(xs: seq<string>, x: string): (i: nat)
    requires x in xs
    ensures i < |xs| && xs[i] == x
  {
    if xs[0] == x then 0 else 1 + FirstIndex(xs[1..], x)
  }

  /** `%f`: the digits padded on the right to six, read as microseconds. */
  function Micro(f: string): nat {
    if |f| < 6 then DigitsValue(f + seq(6 - |f|, _ => '0')) else DigitsValue(f)
  }

  /** `%I` with `%p`: 12 am is hour 0, 12 pm is hour 12, other pm hours add 12. */
  function Hour(i: int, p: string): int {
    var pm := |p| == 2 && Fold(p[0]) == 'p';
    if !pm then (if i == 12 then 0 else i)
    else (if i == 12 then 12 else i + 12)
  }

  /** The pattern of `fmt` matches the whole of `s`. */
  predicate Spans(fmt: Format, s: string) {
    var m := Match(Pattern(fmt), s, 0);
    m.Some? && m.value.1 == |s|
  }

  /** `datetime.strptime(s, fmt)` for one of the four formats: the match must span
      `s`, and its fields must form a valid datetime (1900-01-01 for a time alone). */
  function Strptime(fmt: Format, s: string): (r: Result<DateTime, ExcClass>)
    ensures r.Err? ==> r.error == ValueError
    ensures r.Ok? ==> Valid(r.value)
    ensures r.Ok? ==> Spans(fmt, s)
  {
    MatchCaptures(Pattern(fmt), s, 0);
    var m := Match(Pattern(fmt), s, 0);
    if m.None? || m.value.1 != |s| then Err(ValueError)
    else Build(Fields(fmt, m.value.0))
  }

  /** The datetime a format's captured groups denote, before validation. */
  function Fields(fmt: Format, g: seq<string>): DateTime
    requires |g| == Captures(Pattern(fmt))
  {
    match fmt
    case Ymd => DateTime(DigitsValue(g[0]), DigitsValue(g[1]), DigitsValue(g[2]), 0, 0, 0, 0)
    case Dmy => DateTime(DigitsValue(g[2]), MonthOf(g[1]), DigitsValue(g[0]), 0, 0, 0, 0)
    case Hmsf => DateTime(1900, 1, 1, DigitsValue(g[0]), DigitsValue(g[1]), DigitsValue(g[2]), Micro(g[3]))
    case Hmp => DateTime(1900, 1, 1, Hour(DigitsValue(g[0]), g[2]), DigitsValue(g[1]), 0, 0)
  }

  /** The date half of the loop body: `%Y%m%d`, and on ValueError `%d-%b-%Y`. */
  function ParseDate(s: string): (r: Result<DateTime, ExcClass>)
    ensures r.Ok? ==> Valid(r.value)
    ensures r.Err? ==> r.error == ValueError && Strptime(Ymd, s).Err? && Strptime(Dmy, s).Err?
    ensures Strptime(Ymd, s).Ok? ==> r == Strptime(Ymd, s)
  {
    var first := Strptime(Ymd, s);
    if first.Ok? then first else Strptime(Dmy, s)
  }

  /** The time half: `%H:%M:%S.%f`, and on ValueError `%I:%M %p`. */
  function ParseTime(s: string): (r: Result<DateTime, ExcClass>)
    ensures r.Ok? ==> Valid(r.value)
    ensures r.Err? ==> r.error == ValueError && Strptime(Hmsf, s).Err? && Strptime(Hmp, s).Err?
    ensures Strptime(Hmsf, s).Ok? ==> r == Strptime(Hmsf, s)
  {
    var first := Strptime(Hmsf, s);
    if first.Ok? then first else Strptime(Hmp, s)
  }

  /** `datetime.combine(date, time)`. */
  function Combine(date: DateTime, time: DateTime): (r: DateTime)
    ensures (r.year, r.month, r.day) == (date.year, date.month, date.day)
    ensures (r.hour, r.minute, r.second, r.micro) == (time.hour, time.minute, time.second, time.micro)
    ensures Valid(date) && Valid(time) ==> Valid(r)
  {
    DateTime(date.year, date.month, date.day, time.hour, time.minute, time.second, time.micro)
  }

  // ---------------------------------------------------------------------------
  // combine_date_time
  // ---------------------------------------------------------------------------

  /** An element of `ldates`: an int or a str. */
  datatype DateArg = DInt(n: int) | DStr(s: string)

  /** `str(item)`. */
  function AsString(a: DateArg): string {
    match a
    case DInt(n) => IntToString(n)
    case DStr(s) => s
  }

  /** `ldates` as the strings `strip` is called on: converted with `str` when the
      first element is an int, as they are otherwise; an int left unconverted has no
      `strip`, an AttributeError. */
  function DateStrings(ldates: seq<DateArg>, convert: bool): (r: Result<seq<string>, ExcClass>)
    ensures r.Ok? <==> convert || forall i :: 0 <= i < |ldates| ==> ldates[i].DStr?
    ensures r.Err? ==> r.error == AttributeError
    ensures r.Ok? ==> |r.value| == |ldates| && forall i :: 0 <= i < |ldates| ==> r.value[i] == AsString(ldates[i])
  {
    if |ldates| == 0 then Ok([])
    else if !convert && ldates[0].DInt? then Err(AttributeError)
    else
      var tail := DateStrings(ldates[1..], convert);
      if tail.Err? then tail
      else
        var r := [AsString(ldates[0])] + tail.value;
        assert forall i :: 0 <= i < |ldates| ==> r[i] == AsString(ldates[i]) by {
          forall i | 0 <= i < |ldates|
            ensures r[i] == AsString(ldates[i])
          {
            if i > 0 {
              assert ldates[i] == ldates[1..][i - 1];
            }
          }
        }
        Ok(r)
  }

  /** The loop over the zipped lists: the first pair that fails to parse raises. */
  function ParseAll(dates: seq<string>, times: seq<string>): (r: Result<seq<DateTime>, ExcClass>)
    requires |dates| == |times|
    ensures r.Ok? <==> forall i :: 0 <= i < |dates| ==> ParseDate(dates[i]).Ok? && ParseTime(times[i]).Ok?
    ensures r.Err? ==> r.error == ValueError
    ensures r.Ok? ==> forall i :: 0 <= i < |r.value| ==> Valid(r.value[i])
    ensures r.Ok? ==> |r.value| == |dates| && forall i :: 0 <= i < |dates| ==>
      r.value[i] == Combine(ParseDate(dates[i]).value, ParseTime(times[i]).value)
  {
    if |dates| == 0 then Ok([])
    else
      var d, t := ParseDate(dates[0]), ParseTime(times[0]);
      if d.Err? then Err(d.error)
      else if t.Err? then Err(t.error)
      else
        match ParseAll(dates[1..], times[1..])
        case Err(e) => Err(e)
        case Ok(rest) => Ok([Combine(d.value, t.value)] + rest)
  }

  /** `[t.strip() for t in ltimes]`. */
  function StripAll(ss: seq<string>): (r: seq<string>)
    ensures |r| == |ss| && forall i :: 0 <= i < |ss| ==> r[i] == Strip(ss[i])
  {
    if |ss| == 0 then [] else [Strip(ss[0])] + StripAll(ss[1..])
  }

  /** `combine_date_time(ldates, ltimes)`. Equal nonempty lists succeed exactly when
      the dates convert (an int first date, or only strings) and every stripped pair
      parses; element `i` is then the combination of the `i`-th parsed date and time.
      A date list that does not convert raises AttributeError before any parse, and
      a pair that does not parse raises ValueError. */
  function CombineDateTime(ldates: seq<DateArg>, ltimes: seq<string>): (r: Result<seq<DateTime>, ExcClass>)
    ensures |ldates| != |ltimes| ==> r == Err(ValueError)
    ensures |ldates| == |ltimes| == 0 ==> r == Err(IndexError)
    ensures r.Ok? ==> |r.value| == |ldates| && forall i :: 0 <= i < |r.value| ==> Valid(r.value[i])
    ensures |ldates| == |ltimes| > 0 ==>
      (r.Ok? <==> Converts(ldates) && forall i :: 0 <= i < |ldates| ==> PairParses(ldates[i], ltimes[i]))
    ensures |ldates| == |ltimes| > 0 && r.Err? ==>
      r.error == (if Converts(ldates) then ValueError else AttributeError)
    ensures r.Ok? ==> forall i :: 0 <= i < |ldates| ==>
      PairParses(ldates[i], ltimes[i]) && r.value[i] == PairValue(ldates[i], ltimes[i])
  {
    if |ldates| != |ltimes| then Err(ValueError)
    else if |ldates| == 0 then Err(IndexError)
    else
      match DateStrings(ldates, ldates[0].DInt?)
      case Err(e) => Err(e)
      case Ok(dates) =>
        ParseAllPairs(ldates, ltimes, dates);
        ParseAll(StripAll(dates), StripAll(ltimes))
  }

  /** The dates survive the `str` conversion and `strip`: the first is an int, so
      all are converted, or every one is a string. */
  predicate Converts(ldates: seq<DateArg>) {
    (|ldates| > 0 && ldates[0].DInt?) || forall i :: 0 <= i < |ldates| ==> ldates[i].DStr?
  }

  /** The stripped date and time of one pair both parse. */
  predicate PairParses(date: DateArg, time: string) {
    ParseDate(Strip(AsString(date))).Ok? && ParseTime(Strip(time)).Ok?
  }

  /** The datetime one pair stands for. */
  function PairValue(date: DateArg, time: string): DateTime
    requires PairParses(date, time)
  {
    Combine(ParseDate(Strip(AsString(date))).value, ParseTime(Strip(time)).value)
  }

  /** The loop over the converted, stripped lists, stated pair by pair of the
      original lists. */
  lemma ParseAllPairs(ldates: seq<DateArg>, ltimes: seq<string>, dates: seq<string>)
    requires |ldates| == |ltimes| > 0
    requires DateStrings(ldates, ldates[0].DInt?) == Ok(dates)
    ensures var r := ParseAll(StripAll(dates), StripAll(ltimes));
      (r.Ok? <==> forall i :: 0 <= i < |ldates| ==> PairParses(ldates[i], ltimes[i]))
      && (r.Ok? ==> forall i :: 0 <= i < |ldates| ==>
            PairParses(ldates[i], ltimes[i]) && r.value[i] == PairValue(ldates[i], ltimes[i]))
  {
    var ds, ts := StripAll(dates), StripAll(ltimes);
    var r := ParseAll(ds, ts);
    if r.Ok? {
      forall i | 0 <= i < |ldates|
        ensures PairParses(ldates[i], ltimes[i]) && r.value[i] == PairValue(ldates[i], ltimes[i])
      {
        assert ds[i] == Strip(AsString(ldates[i])) && ts[i] == Strip(ltimes[i]);
      }
    } else {
      var k :| 0 <= k < |ds| && !(ParseDate(ds[k]).Ok? && ParseTime(ts[k]).Ok?);
      assert ds[k] == Strip(AsString(ldates[k])) && ts[k] == Strip(ltimes[k]);
      assert !PairParses(ldates[k], ltimes[k]);
    }
  }

  // ---------------------------------------------------------------------------
  // Round trips: what `strftime` writes, `strptime` reads back
  // ---------------------------------------------------------------------------

  /** `strftime('%Y%m%d')`. */
  function YmdString(d: DateTime): (s: string)
    requires 0 <= d.year < 10000 && 0 <= d.month < 100 && 0 <= d.day < 100
    ensures |s| == 8 && AllDigits(s)
  {
    ZeroPadded(d.year, 4) + ZeroPadded(d.month, 2) + ZeroPadded(d.day, 2)
  }

  /** A date at midnight. */
  predicate Midnight(d: DateTime) {
    d.hour == 0 && d.minute == 0 && d.second == 0 && d.micro == 0
  }

  /** Every valid date `strftime('%Y%m%d')` writes parses back to itself, on the first
      format already. */
  lemma ParseDateRoundTrip(d: DateTime)
    requires Valid(d) && Midnight(d)
    ensures ParseDate(YmdString(d)) == Ok(d)
  {
    var s := YmdString(d);
    assert s[0..4] == ZeroPadded(d.year, 4);
    assert s[4..6] == ZeroPadded(d.month, 2);
    assert s[6..8] == ZeroPadded(d.day, 2);
    TwoDigitsOfPadded(s, 4, d.month);
    TwoDigitsOfPadded(s, 6, d.day);
    YmdMatch(s, d.year, d.month, d.day);
    assert Fields(Ymd, [s[0..4], s[4..6], s[6..8]]) == d by {
      ZeroPaddedRoundTrip(d.year, 4);
      TwoDigitsValue(s, 4, d.month);
      TwoDigitsValue(s, 6, d.day);
    }
    assert Strptime(Ymd, s) == Ok(d);
  }

  /** `strftime('%H:%M:%S.')` followed by the fraction digits `f`. */
  function HmsfString(t: DateTime, f: string): (s: string)
    requires 0 <= t.hour < 100 && 0 <= t.minute < 100 && 0 <= t.second < 100
  {
    ZeroPadded(t.hour, 2) + ":" + ZeroPadded(t.minute, 2) + ":" + ZeroPadded(t.second, 2) + "." + f
  }

  /** The time of day of `t` on 1900-01-01, the date `strptime` gives a time alone. */
  function TimeOnly(t: DateTime): DateTime {
    DateTime(1900, 1, 1, t.hour, t.minute, t.second, t.micro)
  }

  /** `HmsfString` lays its fields out where the matcher looks for them. */
  lemma HmsfStringLayout(t: DateTime, f: string)
    requires 0 <= t.hour <= 23 && 0 <= t.minute <= 59 && 0 <= t.second <= 59
    requires 1 <= |f| <= 6 && AllDigits(f)
    ensures TimeLayout(HmsfString(t, f), t.hour, t.minute, t.second)
    ensures HmsfString(t, f)[9..] == f
  {
    var s := HmsfString(t, f);
    assert s[0..2] == ZeroPadded(t.hour, 2);
    assert s[3..5] == ZeroPadded(t.minute, 2);
    assert s[6..8] == ZeroPadded(t.second, 2);
    TwoDigitsOfPadded(s, 0, t.hour);
    TwoDigitsOfPadded(s, 3, t.minute);
    TwoDigitsOfPadded(s, 6, t.second);
    assert s[9..] == f;
  }

  /** A string laid out as `HH:MM:SS.f` parses on the first time format. */
  lemma ParseTimeOfLayout(s: string, h: nat, mi: nat, sec: nat)
    requires TimeLayout(s, h, mi, sec) && h <= 23 && mi <= 59 && sec <= 59
    ensures ParseTime(s) == Ok(DateTime(1900, 1, 1, h, mi, sec, Micro(s[9..])))
  {
    var g := [s[0..2], s[3..5], s[6..8], s[9..]];
    var t := DateTime(1900, 1, 1, h, mi, sec, Micro(s[9..]));
    assert HmsfFormat[4..] == [Second, Lit(Char('.')), Fraction];
    HmsfMatch(HmsfFormat, s, h, mi, sec);
    ListOfFour(s[0..2], s[3..5], s[6..8], s[9..]);
    assert Fields(Hmsf, g) == t by {
      TwoDigitsValue(s, 0, h);
      TwoDigitsValue(s, 3, mi);
      TwoDigitsValue(s, 6, sec);
    }
    assert Valid(t) by {
      MicroValue(s[9..]);
    }
    assert Strptime(Hmsf, s) == Ok(t);
  }

  /** A time written with one to six fraction digits parses back on the first
      format, the digits read as a fraction of a second: `"6480"` is 648000 us. */
  lemma ParseTimeRoundTrip(t: DateTime, f: string)
    requires 0 <= t.hour <= 23 && 0 <= t.minute <= 59 && 0 <= t.second <= 59
    requires 1 <= |f| <= 6 && AllDigits(f)
    ensures ParseTime(HmsfString(t, f))
      == Ok(DateTime(1900, 1, 1, t.hour, t.minute, t.second, DigitsValue(f) * Pow10(6 - |f|)))
  {
    HmsfStringLayout(t, f);
    ParseTimeOfLayout(HmsfString(t, f), t.hour, t.minute, t.second);
    MicroValue(f);
  }

  /** `%f` reads its digits as the leading digits of six. */
  lemma MicroValue(f: string)
    requires |f| <= 6
    ensures Micro(f) == DigitsValue(f) * Pow10(6 - |f|) && Micro(f) < 1000000
  {
    DigitsValueZeros(f, 6 - |f|);
    var padded := f + seq(6 - |f|, _ => '0');
    DigitsValueBound(padded);
    assert Pow10(6) == 1000000;
    if |f| == 6 {
      assert padded == f;
    }
  }

  // ---------------------------------------------------------------------------
  // combine_date_time on the inputs it is written for
  // ---------------------------------------------------------------------------

  /** The date of `d` at midnight. */
  function DateOnly(d: DateTime): (r: DateTime)
    ensures Valid(d) ==> Valid(r) && Midnight(r)
  {
    DateTime(d.year, d.month, d.day, 0, 0, 0, 0)
  }

  /** The `YYYYMMDD` integer of a date. */
  function DateNumber(d: DateTime): int {
    d.year * 10000 + d.month * 100 + d.day
  }

  /** `str` of a four-digit-year date integer is its `%Y%m%d` rendering. */
  lemma DateNumberString(d: DateTime)
    requires Valid(d) && d.year >= 1000
    ensures IntToString(DateNumber(d)) == YmdString(DateOnly(d))
  {
    var n := DateNumber(d);
    var ym := d.year * 100 + d.month;
    assert Pow10(2) == 100 && Pow10(7) == 10000000 && Pow10(8) == 100000000;
    assert n == ym * Pow10(2) + d.day;
    NatToStringIsPadded(n, 8);
    ZeroPaddedConcat(ym, 6, d.day, 2);
    ZeroPaddedConcat(d.year, 4, d.month, 2);
  }

  /** A string of digits has no surrounding whitespace to strip. */
  lemma StripDigits(x: string)
    requires AllDigits(x)
    ensures Strip(x) == x
  {
    assert Trimmed(x) by {
      if |x| > 0 {
        assert IsDigit(x[0]) && IsDigit(x[|x| - 1]);
      }
    }
    StripRecovers([], x, []);
    assert [] + x + [] == x;
  }

  /** A first element that is a str leaves the ints after it unconverted, and
      stripping the first of them raises AttributeError. */
  lemma MixedDatesRaise(ldates: seq<DateArg>, ltimes: seq<string>, k: nat)
    requires |ldates| == |ltimes| && 0 < k < |ldates|
    requires ldates[0].DStr? && ldates[k].DInt?
    ensures CombineDateTime(ldates, ltimes) == Err(AttributeError)
  {
  }

  /** One pair of `CombineReadsBack`: the date int and the written time. */
  predicate Spells(d: DateTime, frac: string, ltime: string) {
    Valid(d) && d.year >= 1000 && 1 <= |frac| <= 6 && AllDigits(frac)
    && d.micro == DigitsValue(frac) * Pow10(6 - |frac|)
    && Strip(ltime) == HmsfString(d, frac)
  }

  lemma PairReadsBack(d: DateTime, frac: string, ltime: string)
    requires Spells(d, frac, ltime)
    ensures ParseDate(Strip(IntToString(DateNumber(d)))) == Ok(DateOnly(d))
    ensures ParseTime(Strip(ltime)) == Ok(TimeOnly(d))
    ensures Combine(DateOnly(d), TimeOnly(d)) == d
  {
    assert ParseDate(Strip(IntToString(DateNumber(d)))) == Ok(DateOnly(d)) by {
      DateNumberString(d);
      StripDigits(IntToString(DateNumber(d)));
      ParseDateRoundTrip(DateOnly(d));
    }
    assert ParseTime(Strip(ltime)) == Ok(TimeOnly(d)) by {
      ParseTimeRoundTrip(d, frac);
    }
  }

  /** Dates given as `YYYYMMDD` ints and times written `HH:MM:SS.f` (padded with any
      whitespace) combine into exactly the datetimes they spell. */
  lemma CombineReadsBack(ds: seq<DateTime>, fracs: seq<string>, ltimes: seq<string>)
    requires |ds| == |fracs| == |ltimes| > 0
    requires forall i :: 0 <= i < |ds| ==> Spells(ds[i], fracs[i], ltimes[i])
    ensures CombineDateTime(seq(|ds|, i requires 0 <= i < |ds| => DInt(DateNumber(ds[i]))), ltimes) == Ok(ds)
  {
    var ldates := seq(|ds|, i requires 0 <= i < |ds| => DInt(DateNumber(ds[i])));
    var dates := StripAll(DateStrings(ldates, true).value);
    var times := StripAll(ltimes);
    forall i | 0 <= i < |ds|
      ensures ParseDate(dates[i]) == Ok(DateOnly(ds[i]))
      ensures ParseTime(times[i]) == Ok(TimeOnly(ds[i]))
    {
      assert dates[i] == Strip(IntToString(DateNumber(ds[i])));
      PairReadsBack(ds[i], fracs[i], ltimes[i]);
    }
    ParseAllOf(dates, times, ds);
  }

  /** Pairs that parse to the date and the time of each datetime of `ds` combine to
      `ds`. */
  lemma {:induction false} ParseAllOf(dates: seq<string>, times: seq<string>, ds: seq<DateTime>)
    requires |dates| == |times| == |ds|
    requires forall i :: 0 <= i < |ds| ==> ParseDate(dates[i]) == Ok(DateOnly(ds[i])) && ParseTime(times[i]) == Ok(TimeOnly(ds[i]))
    ensures ParseAll(dates, times) == Ok(ds)
  {
    if |ds| > 0 {
      forall i | 0 <= i < |ds| - 1
        ensures ParseDate(dates[1..][i]) == Ok(DateOnly(ds[1..][i]))
        ensures ParseTime(times[1..][i]) == Ok(TimeOnly(ds[1..][i]))
      {
        assert dates[1..][i] == dates[i + 1] && times[1..][i] == times[i + 1] && ds[1..][i] == ds[i + 1];
      }
      ParseAllOf(dates[1..], times[1..], ds[1..]);
      var x := ds[0];
      assert Combine(DateOnly(x), TimeOnly(x)) == x;
      assert [x] + ds[1..] == ds;
    }
  }


}
