/** What the matcher of `StrptimeRegex` finds in the strings `strftime` writes:
    zero-padded two-digit fields, four-digit years and one to six fraction digits
    are each taken by the alternative CPython lists for them, so `%Y%m%d` and
    `%H:%M:%S.%f` capture exactly the written fields. */
module StrptimeMatches {
  import opened Wrappers
  import opened PyStr
  import opened StrptimeRegex

  /** Two digits at `pos` spell `n`. */
  predicate TwoDigits(s: string, pos: nat, n: nat) {
    pos + 2 <= |s| && n < 100 && s[pos] == DigitChar(n / 10) && s[pos + 1] == DigitChar(n % 10)
  }

  lemma TwoDigitsValue(s: string, pos: nat, n: nat)
    requires TwoDigits(s, pos, n)
    ensures DigitsValue(s[pos..pos + 2]) == n
  {
    var x := s[pos..pos + 2];
    assert x[..1][..0] == [];
    assert DigitsValue(x[..1]) == n / 10;
  }

  /** The zero-padded two digits of `n`, wherever they sit. */
  lemma TwoDigitsOfPadded(s: string, pos: nat, n: nat)
    requires pos + 2 <= |s| && n < 100 && s[pos..pos + 2] == ZeroPadded(n, 2)
    ensures TwoDigits(s, pos, n)
  {
    assert ZeroPadded(n / 10, 1) == [DigitChar(n / 10)] by {
      assert ZeroPadded(n / 100, 0) == [];
    }
    assert s[pos] == s[pos..pos + 2][0];
    assert s[pos + 1] == s[pos..pos + 2][1];
  }

  /** `%m` on a zero-padded month. */
  lemma MonthMatches(ps: seq<Piece>, s: string, pos: nat, m: nat)
    requires |ps| > 0 && ps[0] == MonthNumber && TwoDigits(s, pos, m) && 1 <= m <= 12
    requires Match(ps[1..], s, pos + 2).Some?
    ensures Consumes(ps, s, pos, 2)
  {
    GroupTakes(ps, s, pos, if m >= 10 then 0 else 1);
  }

  /** `%d` on a zero-padded day. */
  lemma DayMatches(ps: seq<Piece>, s: string, pos: nat, d: nat)
    requires |ps| > 0 && ps[0] == Day && TwoDigits(s, pos, d) && 1 <= d <= 31
    requires Match(ps[1..], s, pos + 2).Some?
    ensures Consumes(ps, s, pos, 2)
  {
    GroupTakes(ps, s, pos, if d >= 30 then 0 else if d >= 10 then 1 else 2);
  }

  /** `%H` on a zero-padded hour. */
  lemma Hour24Matches(ps: seq<Piece>, s: string, pos: nat, h: nat)
    requires |ps| > 0 && ps[0] == Hour24 && TwoDigits(s, pos, h) && h <= 23
    requires Match(ps[1..], s, pos + 2).Some?
    ensures Consumes(ps, s, pos, 2)
  {
    GroupTakes(ps, s, pos, if h >= 20 then 0 else 1);
  }

  /** `%M` on a zero-padded minute. */
  lemma MinuteMatches(ps: seq<Piece>, s: string, pos: nat, m: nat)
    requires |ps| > 0 && ps[0] == Minute && TwoDigits(s, pos, m) && m <= 59
    requires Match(ps[1..], s, pos + 2).Some?
    ensures Consumes(ps, s, pos, 2)
  {
    GroupTakes(ps, s, pos, 0);
  }

  /** `%S` on a zero-padded second. */
  lemma SecondMatches(ps: seq<Piece>, s: string, pos: nat, sec: nat)
    requires |ps| > 0 && ps[0] == Second && TwoDigits(s, pos, sec) && sec <= 59
    requires Match(ps[1..], s, pos + 2).Some?
    ensures Consumes(ps, s, pos, 2)
  {
    GroupTakes(ps, s, pos, 1);
  }

  /** `%Y` on a four-digit year. */
  lemma YearMatches(ps: seq<Piece>, s: string, pos: nat, y: nat)
    requires |ps| > 0 && ps[0] == Year
    requires pos + 4 <= |s| && y < 10000 && s[pos..pos + 4] == ZeroPadded(y, 4)
    requires Match(ps[1..], s, pos + 4).Some?
    ensures Consumes(ps, s, pos, 4)
  {
    var alt := Year.alts[0];
    assert AtomsMatch(alt, s, pos) by {
      forall k | 0 <= k < 4
        ensures AtomMatches(alt[k], s[pos + k])
      {
        assert s[pos + k] == s[pos..pos + 4][k];
      }
    }
  }

  /** `%f` on the one to six digits that end the string. */
  lemma FractionMatches(ps: seq<Piece>, s: string, pos: nat)
    requires ps == [Fraction]
    requires pos < |s| <= pos + 6 && AllDigits(s[pos..])
    ensures Match(ps, s, pos) == Some(([s[pos..]], |s|))
  {
    var n := RunLength(Digit, s, pos, 6);
    assert n == |s| - pos;
    assert ps[1..] == [];
    assert MatchRun(Digit, n, true, [], s, pos) == Some(([s[pos..]], |s|)) by {
      assert s[pos..pos + n] == s[pos..];
      assert [s[pos..]] + [] == [s[pos..]];
    }
  }

  /** The written time's characters, as the matcher sees them. */
  predicate TimeLayout(s: string, h: nat, mi: nat, sec: nat) {
    10 <= |s| <= 15 && TwoDigits(s, 0, h) && TwoDigits(s, 3, mi) && TwoDigits(s, 6, sec)
    && s[2] == ':' && s[5] == ':' && s[8] == '.' && AllDigits(s[9..])
  }

  /** A literal separator at `pos` is stepped over: what follows it matches as it
      would on its own. */
  lemma SepStep(ps: seq<Piece>, s: string, pos: nat, g: seq<string>, end: nat)
    requires |ps| >= 2 && ps[1].Lit? && pos < |s| && AtomMatches(ps[1].a, s[pos])
    requires Match(ps[2..], s, pos + 1) == Some((g, end))
    ensures Match(ps[1..], s, pos) == Some((g, end))
  {
    assert ps[1..][1..] == ps[2..];
    LitStep(ps[1..], s, pos);
  }

  /** A two-digit hour, minute or second field, then a separator, then a rest that
      matches: the field is captured and the rest's groups follow it. */
  lemma FieldThenRest(ps: seq<Piece>, s: string, pos: nat, n: nat, g: seq<string>, end: nat)
    requires |ps| >= 2 && ps[1].Lit? && pos + 2 < |s| && AtomMatches(ps[1].a, s[pos + 2])
    requires Match(ps[2..], s, pos + 3) == Some((g, end))
    requires TwoDigits(s, pos, n)
    requires (ps[0] == Hour24 && n <= 23) || (ps[0] == Minute && n <= 59) || (ps[0] == Second && n <= 59)
    ensures Match(ps, s, pos) == Some(([s[pos..pos + 2]] + g, end))
  {
    SepStep(ps, s, pos + 2, g, end);
    if ps[0] == Hour24 {
      Hour24Matches(ps, s, pos, n);
    } else if ps[0] == Minute {
      MinuteMatches(ps, s, pos, n);
    } else {
      SecondMatches(ps, s, pos, n);
    }
  }

  lemma ListOfFour<T>(a: T, b: T, c: T, d: T)
    ensures [a] + ([b] + ([c] + [d])) == [a, b, c, d]
  {
  }
}
