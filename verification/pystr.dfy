/** The Python string operations the scripts lean on: `str.strip()` with no
    argument, `str(n)` on an int, and the decimal value of a run of ASCII digits. */
module PyStr {

  /** `str.isspace()` for a single character: the characters whose bidirectional
      class is WS, B or S, or whose category is Zs. */
  predicate IsSpace(c: char) {
    c == ' ' || ('\U{0009}' <= c <= '\U{000D}') || ('\U{001C}' <= c <= '\U{001F}')
    || c == '\U{0085}' || c == '\U{00A0}' || c == '\U{1680}' || ('\U{2000}' <= c <= '\U{200A}')
    || c == '\U{2028}' || c == '\U{2029}' || c == '\U{202F}' || c == '\U{205F}' || c == '\U{3000}'
  }

  predicate AllSpace(s: string) {
    forall i :: 0 <= i < |s| ==> IsSpace(s[i])
  }

  /** Neither end of `s` is whitespace. */
  predicate Trimmed(s: string) {
    |s| > 0 ==> !IsSpace(s[0]) && !IsSpace(s[|s| - 1])
  }

  function StripLeft(s: string): (r: string)
    ensures |r| <= |s| && r == s[|s| - |r|..]
    ensures AllSpace(s[..|s| - |r|])
    ensures |r| > 0 ==> !IsSpace(r[0])
  {
    if |s| > 0 && IsSpace(s[0]) then
      var r := StripLeft(s[1..]);
      assert s[|s| - |r|..] == s[1..][|s[1..]| - |r|..];
      var pre, pre' := s[..|s| - |r|], s[1..][..|s[1..]| - |r|];
      assert AllSpace(pre) by {
        forall i | 0 <= i < |pre|
          ensures IsSpace(pre[i])
        {
          if i > 0 {
            assert pre[i] == pre'[i - 1];
          }
        }
      }
      r
    else s
  }

  function StripRight(s: string): (r: string)
    ensures |r| <= |s| && r == s[..|r|]
    ensures AllSpace(s[|r|..])
    ensures |r| > 0 ==> !IsSpace(r[|r| - 1])
  {
    if |s| > 0 && IsSpace(s[|s| - 1]) then
      var r := StripRight(s[..|s| - 1]);
      assert s[..|r|] == s[..|s| - 1][..|r|];
      assert AllSpace(s[|r|..]) by {
        forall i | 0 <= i < |s| - |r|
          ensures IsSpace(s[|r|..][i])
        {
          if i < |s| - 1 - |r| {
            assert s[|r|..][i] == s[..|s| - 1][|r|..][i];
          }
        }
      }
      r
    else s
  }

  /** `s.strip()`: `s` with its leading and trailing whitespace removed. */
  function Strip(s: string): (r: string)
    ensures exists i, j :: 0 <= i <= j <= |s| && r == s[i..j] && AllSpace(s[..i]) && AllSpace(s[j..])
    ensures Trimmed(r)
  {
    var l := StripLeft(s);
    var r := StripRight(l);
    var i := |s| - |l|;
    assert r == s[i..i + |r|];
    assert AllSpace(s[i + |r|..]) by {
      assert s[i + |r|..] == l[|r|..];
    }
    assert |r| > 0 ==> r[0] == l[0];
    r
  }

  lemma {:induction false} StripLeftSkips(a: string, x: string)
    requires AllSpace(a)
    requires |x| > 0 ==> !IsSpace(x[0])
    ensures StripLeft(a + x) == x
  {
    if |a| > 0 {
      assert (a + x)[1..] == a[1..] + x;
      StripLeftSkips(a[1..], x);
    } else {
      assert a + x == x;
    }
  }

  lemma {:induction false} StripRightSkips(x: string, b: string)
    requires AllSpace(b)
    requires |x| > 0 ==> !IsSpace(x[|x| - 1])
    ensures StripRight(x + b) == x
  {
    if |b| > 0 {
      assert (x + b)[..|x + b| - 1] == x + b[..|b| - 1];
      StripRightSkips(x, b[..|b| - 1]);
    } else {
      assert x + b == x;
    }
  }

  /** Whatever whitespace surrounds a trimmed string, stripping recovers it. */
  lemma StripRecovers(a: string, r: string, b: string)
    requires AllSpace(a) && AllSpace(b) && Trimmed(r)
    ensures Strip(a + r + b) == r
  {
    assert a + r + b == a + (r + b);
    if |r| > 0 {
      StripLeftSkips(a, r + b);
      StripRightSkips(r, b);
    } else {
      assert r + b == b;
      StripLeftSkips(a + b, []);
      assert a + b + [] == a + b;
      StripRightSkips([], []);
    }
  }

  /** Stripping twice is stripping once. */
  lemma StripIdempotent(s: string)
    ensures Strip(Strip(s)) == Strip(s)
  {
    StripRecovers([], Strip(s), []);
    assert [] + Strip(s) + [] == Strip(s);
  }

  predicate IsDigit(c: char) {
    '0' <= c <= '9'
  }

  predicate AllDigits(s: string) {
    forall i :: 0 <= i < |s| ==> IsDigit(s[i])
  }

  function DigitChar(d: nat): (c: char)
    requires d < 10
    ensures IsDigit(c) && DigitOf(c) == d
  {
    (('0' as int) + d) as char
  }

  /** The value of an ASCII digit, and 0 for any other character. */
  function DigitOf(c: char): (d: nat)
    ensures d < 10
  {
    if IsDigit(c) then (c as int) - ('0' as int) else 0
  }

  /** `int(s)` for a string of ASCII digits, possibly preceded by spaces (which
      count as leading zeros here, as they are ignored by `int`). */
  function DigitsValue(s: string): (n: nat)
  {
    if |s| == 0 then 0
    else 10 * DigitsValue(s[..|s| - 1]) + DigitOf(s[|s| - 1])
  }

  /** The decimal digits of `n`, without leading zeros (`"0"` for zero). */
  function NatToString(n: nat): (s: string)
    ensures AllDigits(s) && |s| > 0
    ensures |s| > 1 ==> s[0] != '0'
    decreases n
  {
    if n < 10 then [DigitChar(n)]
    else
      var p := NatToString(n / 10);
      p + [DigitChar(n % 10)]
  }

  /** `str(n)` on a Python int. */
  function IntToString(n: int): (s: string)
    ensures |s| > 0
  {
    if n < 0 then "-" + NatToString(-n) else NatToString(n)
  }

  /** Reading back the digits `str(n)` writes gives `n`. */
  lemma {:induction false} NatToStringRoundTrip(n: nat)
    ensures DigitsValue(NatToString(n)) == n
    decreases n
  {
    if n >= 10 {
      NatToStringRoundTrip(n / 10);
      var p := NatToString(n / 10);
      var s := p + [DigitChar(n % 10)];
      assert s[..|s| - 1] == p;
    }
  }

  /** Different ints print differently. */
  lemma IntToStringInjective(a: int, b: int)
    requires IntToString(a) == IntToString(b)
    ensures a == b
  {
    if a >= 0 && b >= 0 {
      NatToStringRoundTrip(a);
      NatToStringRoundTrip(b);
    } else if a < 0 && b < 0 {
      assert NatToString(-a) == IntToString(a)[1..];
      NatToStringRoundTrip(-a);
      NatToStringRoundTrip(-b);
    }
  }

  function Pow10(k: nat): (p: nat)
    ensures p >= 1
  {
    if k == 0 then 1 else 10 * Pow10(k - 1)
  }

  /** The last `w` decimal digits of `n`, zero-padded on the left (`'%0*d' % (w, n)`
      when `n` has at most `w` digits). */
  function ZeroPadded(n: nat, w: nat): (s: string)
    ensures |s| == w && AllDigits(s)
  {
    if w == 0 then [] else ZeroPadded(n / 10, w - 1) + [DigitChar(n % 10)]
  }

  /** Reading back a zero-padded number gives the number. */
  lemma {:induction false} ZeroPaddedRoundTrip(n: nat, w: nat)
    requires n < Pow10(w)
    ensures DigitsValue(ZeroPadded(n, w)) == n
  {
    if w > 0 {
      var q, d := n / 10, n % 10;
      assert n == 10 * q + d;
      assert q < Pow10(w - 1);
      ZeroPaddedRoundTrip(q, w - 1);
      var s := ZeroPadded(n, w);
      assert s[..|s| - 1] == ZeroPadded(q, w - 1);
      assert DigitOf(s[|s| - 1]) == d;
    }
  }

  /** Without leading zeros, `str(n)` is the zero-padded form at its own width. */
  lemma {:induction false} NatToStringIsPadded(n: nat, w: nat)
    requires w >= 1 && Pow10(w - 1) <= n < Pow10(w)
    ensures NatToString(n) == ZeroPadded(n, w)
  {
    if w == 1 {
      assert ZeroPadded(n / 10, 0) == [];
    } else {
      assert Pow10(w - 2) <= n / 10 < Pow10(w - 1);
      NatToStringIsPadded(n / 10, w - 1);
    }
  }

  /** Padding `b` to `w` digits after `a` is padding `a * 10^w + b` to the full width. */
  lemma {:induction false} ZeroPaddedConcat(a: nat, k: nat, b: nat, w: nat)
    requires b < Pow10(w)
    ensures ZeroPadded(a * Pow10(w) + b, k + w) == ZeroPadded(a, k) + ZeroPadded(b, w)
  {
    if w > 0 {
      var n := a * Pow10(w) + b;
      assert n / 10 == a * Pow10(w - 1) + b / 10 && n % 10 == b % 10 by {
        assert n == 10 * (a * Pow10(w - 1) + b / 10) + b % 10;
      }
      assert b / 10 < Pow10(w - 1);
      ZeroPaddedConcat(a, k, b / 10, w - 1);
    } else {
      assert ZeroPadded(b, 0) == [];
    }
  }

  /** A run of `k` digits is worth less than `10^k`. */
  lemma {:induction false} DigitsValueBound(s: string)
    ensures DigitsValue(s) < Pow10(|s|)
  {
    if |s| > 0 {
      DigitsValueBound(s[..|s| - 1]);
    }
  }

  /** Appending `k` zeros multiplies the value by `10^k`. */
  lemma {:induction false} DigitsValueZeros(s: string, k: nat)
    ensures DigitsValue(s + seq(k, _ => '0')) == DigitsValue(s) * Pow10(k)
  {
    if k > 0 {
      var t := s + seq(k, _ => '0');
      assert t[..|t| - 1] == s + seq(k - 1, _ => '0');
      DigitsValueZeros(s, k - 1);
    } else {
      assert s + seq(0, _ => '0') == s;
    }
  }
}
