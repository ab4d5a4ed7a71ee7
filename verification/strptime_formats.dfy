/** The whole formats `%Y%m%d` and `%H:%M:%S.%f` on the strings `strftime` writes:
    the match spans the string and captures exactly the written fields. */
module StrptimeFormats {
  import opened Wrappers
  import opened PyStr
  import opened StrptimeRegex
  import opened StrptimeMatches

  /** The match `%Y%m%d` finds in eight digits spelling a year, month and day. */
  lemma YmdMatch(s: string, y: nat, m: nat, d: nat)
    requires |s| == 8 && y < 10000 && 1 <= m <= 12 && 1 <= d <= 31
    requires s[0..4] == ZeroPadded(y, 4) && TwoDigits(s, 4, m) && TwoDigits(s, 6, d)
    ensures Match(YmdFormat, s, 0) == Some(([s[0..4], s[4..6], s[6..8]], 8))
  {
    var ps := YmdFormat;
    assert ps[2..][1..] == [];
    DayMatches(ps[2..], s, 6, d);
    assert [s[6..8]] + [] == [s[6..8]];
    assert ps[1..][1..] == ps[2..];
    MonthMatches(ps[1..], s, 4, m);
    assert [s[4..6]] + [s[6..8]] == [s[4..6], s[6..8]];
    YearMatches(ps, s, 0, y);
    assert [s[0..4]] + [s[4..6], s[6..8]] == [s[0..4], s[4..6], s[6..8]];
  }

  /** The tail `%S.%f` of the time pattern. */
  lemma SecondsMatch(ps: seq<Piece>, s: string, h: nat, mi: nat, sec: nat)
    requires ps == [Second, Lit(Char('.')), Fraction]
    requires TimeLayout(s, h, mi, sec) && sec <= 59
    ensures Match(ps, s, 6) == Some(([s[6..8]] + [s[9..]], |s|))
  {
    FractionMatches(ps[2..], s, 9);
    FieldThenRest(ps, s, 6, sec, [s[9..]], |s|);
  }

  /** The tail `%M:%S.%f` of the time pattern. */
  lemma MinutesMatch(ps: seq<Piece>, s: string, h: nat, mi: nat, sec: nat)
    requires |ps| == 5 && ps[0] == Minute && ps[1] == Lit(Char(':'))
    requires ps[2..] == [Second, Lit(Char('.')), Fraction]
    requires TimeLayout(s, h, mi, sec) && mi <= 59 && sec <= 59
    ensures Match(ps, s, 3) == Some(([s[3..5]] + ([s[6..8]] + [s[9..]]), |s|))
  {
    SecondsMatch(ps[2..], s, h, mi, sec);
    FieldThenRest(ps, s, 3, mi, [s[6..8]] + [s[9..]], |s|);
  }

  /** The match `%H:%M:%S.%f` finds in such a string: the four fields, to the end. */
  lemma HmsfMatch(ps: seq<Piece>, s: string, h: nat, mi: nat, sec: nat)
    requires |ps| == 7 && ps[0] == Hour24 && ps[1] == Lit(Char(':')) && ps[2] == Minute && ps[3] == Lit(Char(':'))
    requires ps[4..] == [Second, Lit(Char('.')), Fraction]
    requires TimeLayout(s, h, mi, sec) && h <= 23 && mi <= 59 && sec <= 59
    ensures Match(ps, s, 0) == Some(([s[0..2]] + ([s[3..5]] + ([s[6..8]] + [s[9..]])), |s|))
  {
    assert ps[2..][2..] == ps[4..];
    MinutesMatch(ps[2..], s, h, mi, sec);
    FieldThenRest(ps, s, 0, h, [s[3..5]] + ([s[6..8]] + [s[9..]]), |s|);
  }
}
