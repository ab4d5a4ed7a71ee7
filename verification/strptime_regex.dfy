/** The regular expressions CPython's `_strptime` compiles the four formats of
    `combine_date_time` to, and a backtracking matcher with `re.match`'s search
    order: capturing groups whose alternatives are tried in the order listed, greedy
    repetitions that give back one character at a time, and literal characters,
    compared case-insensitively. */
module StrptimeRegex {
  import opened Wrappers
  import opened PyStr

  // ---------------------------------------------------------------------------
  // A backtracking matcher for the regular expressions `strptime` builds
  // ---------------------------------------------------------------------------

  /** One character of a pattern: a literal (matched case-insensitively), a range,
      or `\s`. */
  datatype Atom = Char(c: char) | Range(lo: char, hi: char) | Space

  /** A piece of a pattern: a capturing group of alternatives tried in order, a
      greedy repetition `a{1,max}` (`max` absent for `+`), or a literal atom. */
  datatype Piece =
    | Group(alts: seq<seq<Atom>>)
    | Repeat(a: Atom, max: Option<nat>, capture: bool)
    | Lit(a: Atom)

  /** ASCII lower-casing, as `re.IGNORECASE` applies it to the ASCII letters. */
  function Fold(c: char): char {
    if 'A' <= c <= 'Z' then ((c as int) + 32) as char else c
  }

  predicate AtomMatches(a: Atom, c: char) {
    match a
    case Char(x) => Fold(c) == Fold(x)
    case Range(lo, hi) => lo <= c <= hi
    case Space => IsSpace(c)
  }

  predicate AtomsMatch(alt: seq<Atom>, s: string, pos: nat) {
    pos + |alt| <= |s| && forall k :: 0 <= k < |alt| ==> AtomMatches(alt[k], s[pos + k])
  }

  /** How many characters from `pos` on match `a`, stopping at `cap`. */
  function RunLength(a: Atom, s: string, pos: nat, cap: nat): (n: nat)
    requires pos <= |s|
    ensures n <= cap && pos + n <= |s|
    ensures forall k :: pos <= k < pos + n ==> AtomMatches(a, s[k])
    ensures n < cap && pos + n < |s| ==> !AtomMatches(a, s[pos + n])
    decreases cap
  {
    if cap == 0 || pos == |s| || !AtomMatches(a, s[pos]) then 0
    else 1 + RunLength(a, s, pos + 1, cap - 1)
  }

  function PieceCaptures(p: Piece): nat {
    match p
    case Group(_) => 1
    case Repeat(_, _, capture) => if capture then 1 else 0
    case Lit(_) => 0
  }

  /** The number of capturing groups of a pattern. */
  function Captures(ps: seq<Piece>): nat {
    if |ps| == 0 then 0 else PieceCaptures(ps[0]) + Captures(ps[1..])
  }

  /** `re.match(pattern, s[pos:])`: the first match in the regex engine's search
      order, as the captured groups and the end position; no anchoring at the end. */
  function Match(ps: seq<Piece>, s: string, pos: nat): (r: Option<(seq<string>, nat)>)
    requires pos <= |s|
    ensures r.Some? ==> pos <= r.value.1 <= |s|
    decreases |ps|, 1, 0
  {
    if |ps| == 0 then Some(([], pos))
    else
      match ps[0]
      case Lit(a) =>
        if pos < |s| && AtomMatches(a, s[pos]) then Match(ps[1..], s, pos + 1) else None
      case Group(alts) => MatchAlts(alts, ps[1..], s, pos)
      case Repeat(a, max, capture) =>
        MatchRun(a, RunLength(a, s, pos, match max case Some(m) => m case None => |s|), capture, ps[1..], s, pos)
  }

  /** A group: the first alternative, in order, after which the rest matches. */
  function MatchAlts(alts: seq<seq<Atom>>, rest: seq<Piece>, s: string, pos: nat): (r: Option<(seq<string>, nat)>)
    requires pos <= |s|
    ensures r.Some? ==> pos <= r.value.1 <= |s|
    decreases |rest| + 1, 0, |alts|
  {
    if |alts| == 0 then None
    else
      var alt := alts[0];
      var first := if AtomsMatch(alt, s, pos) then Match(rest, s, pos + |alt|) else None;
      if first.Some? then Some(([s[pos..pos + |alt|]] + first.value.0, first.value.1))
      else MatchAlts(alts[1..], rest, s, pos)
  }

  /** A greedy repetition that matched `n` characters: the longest run, giving back
      one character at a time, after which the rest matches. */
  function MatchRun(a: Atom, n: nat, capture: bool, rest: seq<Piece>, s: string, pos: nat)
    : (r: Option<(seq<string>, nat)>)
    requires pos + n <= |s|
    ensures r.Some? ==> pos <= r.value.1 <= |s|
    decreases |rest| + 1, 0, n
  {
    if n == 0 then None
    else
      var after := Match(rest, s, pos + n);
      if after.Some? then Some(((if capture then [s[pos..pos + n]] else []) + after.value.0, after.value.1))
      else MatchRun(a, n - 1, capture, rest, s, pos)
  }

  /** A match holds one string per capturing group of the pattern. */
  lemma {:induction false} MatchCaptures(ps: seq<Piece>, s: string, pos: nat)
    requires pos <= |s|
    ensures Match(ps, s, pos).Some? ==> |Match(ps, s, pos).value.0| == Captures(ps)
    decreases |ps|, 1, 0
  {
    if |ps| > 0 {
      match ps[0]
      case Lit(a) =>
        if pos < |s| && AtomMatches(a, s[pos]) {
          MatchCaptures(ps[1..], s, pos + 1);
        }
      case Group(alts) =>
        AltsCaptures(alts, ps[1..], s, pos);
      case Repeat(a, max, capture) =>
        RunCaptures(a, RunLength(a, s, pos, match max case Some(m) => m case None => |s|), capture, ps[1..], s, pos);
    }
  }

  lemma {:induction false} AltsCaptures(alts: seq<seq<Atom>>, rest: seq<Piece>, s: string, pos: nat)
    requires pos <= |s|
    ensures MatchAlts(alts, rest, s, pos).Some? ==> |MatchAlts(alts, rest, s, pos).value.0| == 1 + Captures(rest)
    decreases |rest| + 1, 0, |alts|
  {
    if |alts| > 0 {
      if AtomsMatch(alts[0], s, pos) {
        MatchCaptures(rest, s, pos + |alts[0]|);
      }
      AltsCaptures(alts[1..], rest, s, pos);
    }
  }

  lemma {:induction false} RunCaptures(a: Atom, n: nat, capture: bool, rest: seq<Piece>, s: string, pos: nat)
    requires pos + n <= |s|
    ensures MatchRun(a, n, capture, rest, s, pos).Some? ==>
      |MatchRun(a, n, capture, rest, s, pos).value.0| == (if capture then 1 else 0) + Captures(rest)
    decreases |rest| + 1, 0, n
  {
    if n > 0 {
      MatchCaptures(rest, s, pos + n);
      RunCaptures(a, n - 1, capture, rest, s, pos);
    }
  }

  // ---------------------------------------------------------------------------
  // The four formats
  // ---------------------------------------------------------------------------

  const Digit: Atom := Range('0', '9')

  function Word(w: string): (alt: seq<Atom>)
    ensures |alt| == |w|
  {
    seq(|w|, i requires 0 <= i < |w| => Char(w[i]))
  }

  /** `%Y`: four digits. */
  const Year: Piece := Group([[Digit, Digit, Digit, Digit]])
  /** `%m`: `1[0-2]|0[1-9]|[1-9]`. */
  const MonthNumber: Piece := Group([[Char('1'), Range('0', '2')], [Char('0'), Range('1', '9')], [Range('1', '9')]])
  /** `%d`: `3[01]|[12]\d|0[1-9]|[1-9]| [1-9]`. */
  const Day: Piece := Group([[Char('3'), Range('0', '1')], [Range('1', '2'), Digit], [Char('0'), Range('1', '9')],
                             [Range('1', '9')], [Char(' '), Range('1', '9')]])
  /** `%b` in the C locale. */
  const MonthNames: seq<string> := ["jan", "feb", "mar", "apr", "may", "jun", "jul", "aug", "sep", "oct", "nov", "dec"]
  const MonthAbbr: Piece := Group([Word("jan"), Word("feb"), Word("mar"), Word("apr"), Word("may"), Word("jun"),
                                   Word("jul"), Word("aug"), Word("sep"), Word("oct"), Word("nov"), Word("dec")])
  /** `%H`: `2[0-3]|[01]\d|\d`. */
  const Hour24: Piece := Group([[Char('2'), Range('0', '3')], [Range('0', '1'), Digit], [Digit]])
  /** `%M`: `[0-5]\d|\d`. */
  const Minute: Piece := Group([[Range('0', '5'), Digit], [Digit]])
  /** `%S`: `6[01]|[0-5]\d|\d`. */
  const Second: Piece := Group([[Char('6'), Range('0', '1')], [Range('0', '5'), Digit], [Digit]])
  /** `%f`: `[0-9]{1,6}`. */
  const Fraction: Piece := Repeat(Digit, Some(6), true)
  /** `%I`: `1[0-2]|0[1-9]|[1-9]`. */
  const Hour12: Piece := Group([[Char('1'), Range('0', '2')], [Char('0'), Range('1', '9')], [Range('1', '9')]])
  /** `%p` in the C locale. */
  const AmPm: Piece := Group([Word("am"), Word("pm")])
  /** A space in the format becomes `\s+`. */
  const Spaces: Piece := Repeat(Space, None, false)

  const YmdFormat: seq<Piece> := [Year, MonthNumber, Day]
  const DmyFormat: seq<Piece> := [Day, Lit(Char('-')), MonthAbbr, Lit(Char('-')), Year]
  const HmsfFormat: seq<Piece> := [Hour24, Lit(Char(':')), Minute, Lit(Char(':')), Second, Lit(Char('.')), Fraction]
  const HmpFormat: seq<Piece> := [Hour12, Lit(Char(':')), Minute, Spaces, AmPm]

  /** The four format strings `combine_date_time` passes to `strptime`. */
  datatype Format = Ymd | Dmy | Hmsf | Hmp

  /** The pattern `strptime` compiles each format to. */
  function Pattern(f: Format): (ps: seq<Piece>)
    ensures Captures(ps) == (if f == Hmsf then 4 else 3)
  {
    FormatCaptures();
    match f
    case Ymd => YmdFormat
    case Dmy => DmyFormat
    case Hmsf => HmsfFormat
    case Hmp => HmpFormat
  }

  lemma CapturesCons(p: Piece, ps: seq<Piece>)
    ensures Captures([p] + ps) == PieceCaptures(p) + Captures(ps)
  {
    assert ([p] + ps)[1..] == ps;
  }

  /** Each format captures one group per directive. */
  lemma FormatCaptures()
    ensures Captures(YmdFormat) == 3 && Captures(DmyFormat) == 3
    ensures Captures(HmsfFormat) == 4 && Captures(HmpFormat) == 3
  {
    DateCaptures();
    TimeCaptures();
  }

  lemma DateCaptures()
    ensures Captures(YmdFormat) == 3 && Captures(DmyFormat) == 3
  {
    var dash := Lit(Char('-'));
    CapturesCons(Day, []);
    CapturesCons(MonthNumber, [Day]);
    CapturesCons(Year, [MonthNumber, Day]);
    CapturesCons(Year, []);
    CapturesCons(dash, [Year]);
    CapturesCons(MonthAbbr, [dash, Year]);
    CapturesCons(dash, [MonthAbbr, dash, Year]);
    CapturesCons(Day, [dash, MonthAbbr, dash, Year]);
  }

  lemma TimeCaptures()
    ensures Captures(HmsfFormat) == 4 && Captures(HmpFormat) == 3
  {
    var colon, dot := Lit(Char(':')), Lit(Char('.'));
    CapturesCons(Fraction, []);
    CapturesCons(dot, [Fraction]);
    CapturesCons(Second, [dot, Fraction]);
    CapturesCons(colon, [Second, dot, Fraction]);
    CapturesCons(Minute, [colon, Second, dot, Fraction]);
    CapturesCons(colon, [Minute, colon, Second, dot, Fraction]);
    CapturesCons(Hour24, [colon, Minute, colon, Second, dot, Fraction]);
    CapturesCons(AmPm, []);
    CapturesCons(Spaces, [AmPm]);
    CapturesCons(Minute, [Spaces, AmPm]);
    CapturesCons(colon, [Minute, Spaces, AmPm]);
    CapturesCons(Hour12, [colon, Minute, Spaces, AmPm]);
  }

  /** The first piece of `ps` captures the `w` characters at `pos`, and the rest of
      the pattern matches after them. */
  predicate Consumes(ps: seq<Piece>, s: string, pos: nat, w: nat) {
    |ps| > 0 && pos + w <= |s| && Match(ps[1..], s, pos + w).Some?
    && Match(ps, s, pos)
       == Some(([s[pos..pos + w]] + Match(ps[1..], s, pos + w).value.0, Match(ps[1..], s, pos + w).value.1))
  }

  lemma LitStep(ps: seq<Piece>, s: string, pos: nat)
    requires |ps| > 0 && ps[0].Lit? && pos < |s| && AtomMatches(ps[0].a, s[pos])
    ensures Match(ps, s, pos) == Match(ps[1..], s, pos + 1)
  {
  }

  /** Alternatives before `k` are rejected by their first atom, and alternative `k`
      (of width `w`) matches with the rest after it: the group takes alternative `k`. */
  lemma {:induction false} AltsTake(alts: seq<seq<Atom>>, rest: seq<Piece>, s: string, pos: nat, k: nat)
    requires k < |alts| && pos < |s|
    requires forall j :: 0 <= j < k ==> |alts[j]| > 0 && !AtomMatches(alts[j][0], s[pos])
    requires AtomsMatch(alts[k], s, pos) && Match(rest, s, pos + |alts[k]|).Some?
    ensures MatchAlts(alts, rest, s, pos)
      == Some(([s[pos..pos + |alts[k]|]] + Match(rest, s, pos + |alts[k]|).value.0,
               Match(rest, s, pos + |alts[k]|).value.1))
  {
    if k > 0 {
      var alt := alts[0];
      assert !AtomsMatch(alt, s, pos) by {
        if pos + |alt| <= |s| {
          assert s[pos + 0] == s[pos];
        }
      }
      AltsTake(alts[1..], rest, s, pos, k - 1);
    }
  }

  /** A group whose alternatives are all two characters wide takes alternative `k`. */
  lemma GroupTakes(ps: seq<Piece>, s: string, pos: nat, k: nat)
    requires |ps| > 0 && ps[0].Group? && k < |ps[0].alts| && |ps[0].alts[k]| == 2 && pos < |s|
    requires forall j :: 0 <= j < k ==> |ps[0].alts[j]| > 0 && !AtomMatches(ps[0].alts[j][0], s[pos])
    requires AtomsMatch(ps[0].alts[k], s, pos) && Match(ps[1..], s, pos + 2).Some?
    ensures Consumes(ps, s, pos, 2)
  {
    AltsTake(ps[0].alts, ps[1..], s, pos, k);
  }
}
