/**
  The textual forms Go's fmt package gives the values a browser key is built
  from: `%t` on a bool, `%d` on an int, and `%s` on a time.Duration, which
  prints the duration's String() form ("5m0s", "1h2m3.5s", "1.5ms", "0s").
  Durations are whole nanoseconds, as in Go.
 */
module GoFormat {

  const Microsecond: int := 1000
  const Millisecond: int := 1000 * Microsecond
  const Second: int := 1000 * Millisecond
  const Minute: int := 60 * Second

  function DigitChar(d: nat): (c: char)
    requires d < 10
    ensures '0' <= c <= '9'
    ensures c as int - '0' as int == d
  {
    ('0' as int + d) as char
  }

  /** Decimal digits of n, most significant first, with no leading zero. */
  function NatString(n: nat): (s: string)
    ensures |s| >= 1
    ensures forall i :: 0 <= i < |s| ==> '0' <= s[i] <= '9'
    ensures (|s| == 1) <==> n < 10
    ensures n >= 10 ==> s[0] != '0'
    decreases n
  {
    if n < 10 then [DigitChar(n)] else NatString(n / 10) + [DigitChar(n % 10)]
  }

  /** `%d`: an optional minus sign followed by the decimal digits of the magnitude. */
  function IntString(n: int): (s: string)
    ensures |s| >= 1
    ensures s[0] == '-' <==> n < 0
  {
    if n < 0 then "-" + NatString(-n) else NatString(n)
  }

  /** `%t`: "true" or "false", neither of which holds a minus sign. */
  function BoolString(b: bool): (r: string)
    ensures r == "true" <==> b
    ensures |r| >= 4 && r[|r| - 1] == 'e'
    ensures forall i :: 0 <= i < |r| ==> r[i] != '-'
  {
    if b then "true" else "false"
  }

  lemma {:induction false} NatStringInjective(m: nat, n: nat)
    requires NatString(m) == NatString(n)
    ensures m == n
    decreases m
  {
    var sm, sn := NatString(m), NatString(n);
    if m < 10 {
      assert sm == [DigitChar(m)];
      assert n < 10;
      assert sn == [DigitChar(n)];
    } else {
      assert n >= 10;
      assert sm == NatString(m / 10) + [DigitChar(m % 10)];
      assert sn == NatString(n / 10) + [DigitChar(n % 10)];
      assert sm[..|sm| - 1] == NatString(m / 10);
      assert sn[..|sn| - 1] == NatString(n / 10);
      assert DigitChar(m % 10) == sm[|sm| - 1] == sn[|sn| - 1] == DigitChar(n % 10);
      NatStringInjective(m / 10, n / 10);
    }
  }

  /** Distinct integers print differently under `%d`. */
  lemma IntStringInjective(m: int, n: int)
    requires IntString(m) == IntString(n)
    ensures m == n
  {
    var s := IntString(m);
    if m < 0 {
      assert n < 0;
      assert s[1..] == NatString(-m) && IntString(n)[1..] == NatString(-n);
      NatStringInjective(-m, -n);
    } else {
      assert n >= 0;
      NatStringInjective(m, n);
    }
  }

  /**
    The fraction digits Go's time formatting writes for the low `prec`
    decimal digits of v: digits are taken least significant first and
    trailing zeros are dropped; once a non-zero digit has been seen every
    more significant digit is written.
   */
  function FracDigits(v: nat, prec: nat, printing: bool): (s: string)
    ensures |s| <= prec
    ensures printing ==> |s| == prec
    ensures forall i :: 0 <= i < |s| ==> '0' <= s[i] <= '9'
    decreases prec
  {
    if prec == 0 then ""
    else
      var digit := v % 10;
      var p := printing || digit != 0;
      FracDigits(v / 10, prec - 1, p) + (if p then [DigitChar(digit)] else "")
  }

  /** ".ddd" for the non-zero low `prec` digits of v, or "" when they are all zero. */
  function Frac(v: nat, prec: nat): (f: string)
    ensures f == "" || (|f| >= 2 && f[0] == '.')
    ensures forall i :: 1 <= i < |f| ==> '0' <= f[i] <= '9'
  {
    var ds := FracDigits(v, prec, false);
    if ds == "" then "" else "." + ds
  }

  /** The "1h2m" or "2m" in front of the seconds of a duration of at least a minute; empty below one. */
  function HoursMinutes(minutes: nat): (h: string)
    ensures h == "" <==> minutes == 0
    ensures h != "" ==> h[|h| - 1] == 'm'
    ensures forall i :: 0 <= i < |h| ==> h[i] != '-' && h[i] != '.'
  {
    if minutes == 0 then ""
    else (if minutes / 60 == 0 then "" else NatString(minutes / 60) + "h") + NatString(minutes % 60) + "m"
  }

  /** The whole seconds of a duration of at least a second: "1h2m3", "2m3" or "3". */
  function Clock(seconds: nat): (c: string)
    ensures |c| >= 1 && '0' <= c[|c| - 1] <= '9'
    ensures forall i :: 0 <= i < |c| ==> c[i] != '-' && c[i] != '.'
  {
    HoursMinutes(seconds / 60) + NatString(seconds % 60)
  }

  /** time.Duration.String for a non-negative duration of u nanoseconds. */
  function MagnitudeString(u: nat): string
  {
    if u < 1_000_000_000 then
      if u == 0 then "0s"
      else if u < 1000 then NatString(u) + "ns"
      else if u < 1_000_000 then NatString(u / 1000) + Frac(u, 3) + "µs"
      else NatString(u / 1_000_000) + Frac(u, 6) + "ms"
    else
      Clock(u / 1_000_000_000) + Frac(u, 9) + "s"
  }

  /** The form MagnitudeString takes in each range: whole units, a fraction, the unit name. */
  lemma SecondsForm(u: nat)
    requires u >= Second
    ensures MagnitudeString(u) == Clock(u / 1_000_000_000) + Frac(u, 9) + "s"
  {
  }

  lemma MillisForm(u: nat)
    requires Millisecond <= u < Second
    ensures MagnitudeString(u) == NatString(u / 1_000_000) + Frac(u, 6) + "ms"
  {
  }

  lemma MicrosForm(u: nat)
    requires Microsecond <= u < Millisecond
    ensures MagnitudeString(u) == NatString(u / 1000) + Frac(u, 3) + "µs"
  {
  }

  lemma NanosForm(u: nat)
    requires 0 < u < Microsecond
    ensures MagnitudeString(u) == NatString(u) + "ns"
  {
  }

  /** time.Duration.String: a minus sign for negative durations, then the magnitude. */
  function DurationString(d: int): (s: string)
    ensures |s| >= 2
    ensures s[0] == '-' <==> d < 0
  {
    if d < 0 then "-" + MagnitudeString(-d) else MagnitudeString(d)
  }

  /** `%d` ends in a digit. */
  lemma IntStringLastDigit(n: int)
    ensures '0' <= IntString(n)[|IntString(n)| - 1] <= '9'
  {
  }

  function Pow10(k: nat): (p: nat)
    ensures p >= 1
  {
    if k == 0 then 1 else 10 * Pow10(k - 1)
  }

  lemma Pow10Units()
    ensures Pow10(3) == Microsecond && Pow10(6) == Millisecond && Pow10(9) == Second
  {
    assert Pow10(3) == 1000;
    assert Pow10(6) == 1000 * Pow10(3);
    assert Pow10(9) == 1000 * Pow10(6);
  }

  /** A multiple of 10^prec has no fraction digits in its low prec places. */
  lemma {:induction false} WholeHasNoFraction(m: nat, prec: nat)
    ensures FracDigits(m * Pow10(prec), prec, false) == ""
  {
    if prec > 0 {
      var x := m * Pow10(prec - 1);
      assert m * Pow10(prec) == x * 10;
      WholeHasNoFraction(m, prec - 1);
    }
  }

  /** Five minutes: a minutes part of 5, 0 seconds and no fraction. */
  lemma FiveMinutesParts()
    ensures MagnitudeString(5 * Minute) == NatString(5) + "m" + NatString(0) + "s"
  {
    assert Pow10(9) == 1_000_000_000;
    WholeHasNoFraction(300, 9);
    assert (5 * Minute) / 1_000_000_000 == 300;
  }

  lemma SpellFiveMinutes(s: string)
    requires s == NatString(5) + "m" + NatString(0) + "s"
    ensures s == "5m0s"
  {
    assert NatString(5) == ['5'] && NatString(0) == ['0'];
  }

  /** The default idle timeout prints as "5m0s". */
  lemma FiveMinutesString()
    ensures DurationString(5 * Minute) == "5m0s"
  {
    FiveMinutesParts();
    assert DurationString(5 * Minute) == MagnitudeString(5 * Minute);
    SpellFiveMinutes(DurationString(5 * Minute));
  }

  /** No character of s is c. */
  ghost predicate Without(c: char, s: string)
  {
    forall i :: 0 <= i < |s| ==> s[i] != c
  }

  /** Neither a printed magnitude nor its parts contain a minus sign. */
  lemma MagnitudeWithoutDash(u: nat)
    ensures Without('-', MagnitudeString(u))
  {
    if u >= Second {
      SecondsWithoutDash(u);
    } else if u >= Millisecond {
      MillisWithoutDash(u);
    } else if u >= Microsecond {
      MicrosWithoutDash(u);
    } else if u > 0 {
      NanosForm(u);
      PartsWithoutDash(NatString(u), "", "ns");
      assert NatString(u) + "" + "ns" == NatString(u) + "ns";
    }
  }

  lemma SecondsWithoutDash(u: nat)
    requires u >= Second
    ensures Without('-', MagnitudeString(u))
  {
    var c, f := Clock(u / 1_000_000_000), Frac(u, 9);
    SecondsForm(u);
    FracWithoutDash(u, 9);
    PartsWithoutDash(c, f, "s");
  }

  lemma MillisWithoutDash(u: nat)
    requires Millisecond <= u < Second
    ensures Without('-', MagnitudeString(u))
  {
    var n, f := NatString(u / 1_000_000), Frac(u, 6);
    MillisForm(u);
    NatWithoutDash(u / 1_000_000);
    FracWithoutDash(u, 6);
    PartsWithoutDash(n, f, "ms");
  }

  lemma MicrosWithoutDash(u: nat)
    requires Microsecond <= u < Millisecond
    ensures Without('-', MagnitudeString(u))
  {
    var n, f := NatString(u / 1000), Frac(u, 3);
    MicrosForm(u);
    NatWithoutDash(u / 1000);
    FracWithoutDash(u, 3);
    PartsWithoutDash(n, f, "µs");
  }

  lemma NatWithoutDash(n: nat)
    ensures Without('-', NatString(n))
  {
  }

  lemma FracWithoutDash(v: nat, prec: nat)
    ensures Without('-', Frac(v, prec))
  {
  }

  lemma PartsWithoutDash(a: string, b: string, c: string)
    requires Without('-', a) && Without('-', b) && Without('-', c)
    ensures Without('-', a + b + c)
  {
  }

  /** x and y agree once the same suffix is removed from both. */
  lemma StripSuffix(x: string, y: string, t: string)
    requires x + t == y + t
    ensures x == y
  {
    assert x == (x + t)[..|x|];
    assert y == (y + t)[..|y|];
  }

  /** In a + [c] + b with no c in b, the c after a is the last one. */
  lemma LastOccurrence(c: char, a: string, b: string)
    requires Without(c, b)
    ensures (a + [c] + b)[|a|] == c
    ensures forall k :: |a| < k < |a| + 1 + |b| ==> (a + [c] + b)[k] != c
  {
    assert forall k :: |a| < k < |a| + 1 + |b| ==> (a + [c] + b)[k] == b[k - |a| - 1];
  }

  /** Removing a common suffix, stated for strings that may differ. */
  lemma StripSuffixIf(x: string, y: string, t: string)
    ensures x + t == y + t ==> x == y
  {
    if x + t == y + t {
      StripSuffix(x, y, t);
    }
  }

  /** x and y agree once the same prefix is removed from both. */
  lemma StripPrefix(t: string, x: string, y: string)
    requires t + x == t + y
    ensures x == y
  {
    assert x == (t + x)[|t|..];
    assert y == (t + y)[|t|..];
  }

  /** A string splits the same way at its last c whatever the two sides were. */
  lemma SplitAtLast(c: char, a1: string, b1: string, a2: string, b2: string)
    requires a1 + [c] + b1 == a2 + [c] + b2
    requires Without(c, b1) && Without(c, b2)
    ensures a1 == a2 && b1 == b2
  {
    var w := a1 + [c] + b1;
    LastOccurrence(c, a1, b1);
    LastOccurrence(c, a2, b2);
    assert |a1| == |a2|;
    assert a1 == w[..|a1|] && a2 == w[..|a2|];
    assert b1 == w[|a1| + 1..] && b2 == w[|a2| + 1..];
  }

  /** m, behind a minus sign when neg holds. */
  function Signed(neg: bool, m: string): string
  {
    if neg then "-" + m else m
  }

  /**
    Reading a dash-joined string from the right: when the last verb prints a
    signed, dash-free magnitude and the text before the joining dash does not
    end in a dash, the text, the sign and the magnitude are all recovered.
   */
  lemma PeelSigned(a1: string, neg1: bool, m1: string, a2: string, neg2: bool, m2: string)
    requires |a1| >= 1 && a1[|a1| - 1] != '-'
    requires |a2| >= 1 && a2[|a2| - 1] != '-'
    requires Without('-', m1) && Without('-', m2)
    requires a1 + "-" + Signed(neg1, m1) == a2 + "-" + Signed(neg2, m2)
    ensures a1 == a2 && neg1 == neg2 && m1 == m2
  {
    var y1, y2 := Lead(a1, neg1), Lead(a2, neg2);
    JoinSigned(a1, neg1, m1);
    JoinSigned(a2, neg2, m2);
    SplitAtLast('-', y1, m1, y2, m2);
    LeadSign(a1, neg1);
    LeadSign(a2, neg2);
  }

  /** The text before the last dash of a + "-" + Signed(neg, m). */
  function Lead(a: string, neg: bool): string
  {
    if neg then a + "-" else a
  }

  lemma JoinSigned(a: string, neg: bool, m: string)
    ensures a + "-" + Signed(neg, m) == Lead(a, neg) + ['-'] + m
  {
  }

  /** Lead ends in a dash exactly when the sign was there, and dropping it gives a back. */
  lemma LeadSign(a: string, neg: bool)
    requires |a| >= 1 && a[|a| - 1] != '-'
    ensures var y := Lead(a, neg); |y| >= 1 && (y[|y| - 1] == '-' <==> neg)
    ensures a == if neg then Lead(a, neg)[..|a|] else Lead(a, neg)
  {
  }

  lemma IntStringSigned(n: int)
    ensures IntString(n) == Signed(n < 0, NatString(Abs(n)))
  {
  }

  /** In a + f with no dot in a and f empty or starting with a dot, the first dot is at |a|. */
  lemma FirstDot(a: string, f: string)
    requires Without('.', a)
    requires f == "" || f[0] == '.'
    ensures f != "" ==> (a + f)[|a|] == '.'
    ensures forall k :: 0 <= k < |a| ==> (a + f)[k] != '.'
  {
  }

  /** A dot-free head followed by a fraction splits the same way whatever the two sides were. */
  lemma SplitBeforeFrac(a1: string, f1: string, a2: string, f2: string)
    requires a1 + f1 == a2 + f2
    requires Without('.', a1) && Without('.', a2)
    requires f1 == "" || f1[0] == '.'
    requires f2 == "" || f2[0] == '.'
    ensures a1 == a2 && f1 == f2
  {
    var w := a1 + f1;
    FirstDot(a1, f1);
    FirstDot(a2, f2);
    assert |a1| == |a2|;
    assert a1 == w[..|a1|] && a2 == w[..|a2|];
    assert f1 == w[|a1|..] && f2 == w[|a2|..];
  }

  /** In a + n with a empty or ending in a non-digit and n all digits, the digits start at |a|. */
  lemma DigitsStart(a: string, n: string)
    requires a == "" || !('0' <= a[|a| - 1] <= '9')
    requires forall i :: 0 <= i < |n| ==> '0' <= n[i] <= '9'
    ensures a != "" ==> !('0' <= (a + n)[|a| - 1] <= '9')
    ensures forall k :: |a| <= k < |a| + |n| ==> '0' <= (a + n)[k] <= '9'
  {
    assert forall k :: |a| <= k < |a| + |n| ==> (a + n)[k] == n[k - |a|];
  }

  /** A head that is empty or ends in a non-digit, followed by digits, splits the same way. */
  lemma SplitBeforeDigits(a1: string, n1: string, a2: string, n2: string)
    requires a1 + n1 == a2 + n2
    requires a1 == "" || !('0' <= a1[|a1| - 1] <= '9')
    requires a2 == "" || !('0' <= a2[|a2| - 1] <= '9')
    requires forall i :: 0 <= i < |n1| ==> '0' <= n1[i] <= '9'
    requires forall i :: 0 <= i < |n2| ==> '0' <= n2[i] <= '9'
    ensures a1 == a2 && n1 == n2
  {
    var w := a1 + n1;
    DigitsStart(a1, n1);
    DigitsStart(a2, n2);
    assert |a1| == |a2|;
    assert a1 == w[..|a1|] && a2 == w[..|a2|];
    assert n1 == w[|a1|..] && n2 == w[|a2|..];
  }

  /** A non-zero multiple of a positive m is at least m away from zero. */
  lemma MultipleBound(m: int, k: int)
    requires m > 0
    ensures k >= 1 ==> m * k >= m
    ensures k <= -1 ==> m * k <= -m
  {
  }

  /** Division with remainder is unique. */
  lemma DivModUnique(x: int, m: int, a: int, b: int)
    requires m > 0 && x == m * a + b && 0 <= b < m
    ensures x / m == a && x % m == b
  {
    var q, r := x / m, x % m;
    assert m * (a - q) == r - b;
    MultipleBound(m, a - q);
  }

  /** The low digits of x below 10 * p: the low digits of x / 10 below p, then x's last digit. */
  lemma ModTen(x: nat, p: nat)
    requires p >= 1
    ensures x % (10 * p) == 10 * ((x / 10) % p) + x % 10
  {
    var q, r := x / 10, x % 10;
    var a, b := q / p, q % p;
    assert q == p * a + b;
    assert x == (10 * p) * a + (10 * b + r);
    DivModUnique(x, 10 * p, a, 10 * b + r);
  }

  /** The fraction digits of x and y agree only when x and y agree in their low prec digits. */
  lemma {:induction false} FracDigitsInjective(x: nat, y: nat, prec: nat, printing: bool)
    requires FracDigits(x, prec, printing) == FracDigits(y, prec, printing)
    ensures x % Pow10(prec) == y % Pow10(prec)
    decreases prec
  {
    if prec > 0 {
      var dx, dy := x % 10, y % 10;
      var px, py := printing || dx != 0, printing || dy != 0;
      var sx, sy := FracDigits(x / 10, prec - 1, px), FracDigits(y / 10, prec - 1, py);
      var s := FracDigits(x, prec, printing);
      assert s == sx + (if px then [DigitChar(dx)] else "");
      assert s == sy + (if py then [DigitChar(dy)] else "");
      assert px == py by {
        assert px ==> |s| == prec;
        assert py ==> |s| == prec;
      }
      if px {
        assert s[..|s| - 1] == sx && s[..|s| - 1] == sy;
        assert DigitChar(dx) == s[|s| - 1] == DigitChar(dy);
      } else {
        assert sx == s + "" == sy;
      }
      FracDigitsInjective(x / 10, y / 10, prec - 1, px);
      ModTen(x, Pow10(prec - 1));
      ModTen(y, Pow10(prec - 1));
    }
  }

  /** Equal fractions come from durations with equal low prec digits. */
  lemma FracInjective(x: nat, y: nat, prec: nat)
    requires Frac(x, prec) == Frac(y, prec)
    ensures x % Pow10(prec) == y % Pow10(prec)
  {
    var f := Frac(x, prec);
    if f != "" {
      assert FracDigits(x, prec, false) == f[1..] == FracDigits(y, prec, false);
    }
    FracDigitsInjective(x, y, prec, false);
  }

  /** Distinct minute counts print distinct "h"/"m" parts. */
  lemma HoursMinutesInjective(m1: nat, m2: nat)
    requires HoursMinutes(m1) == HoursMinutes(m2)
    ensures m1 == m2
  {
    if m1 != 0 {
      var h1 := if m1 / 60 == 0 then "" else NatString(m1 / 60) + "h";
      var h2 := if m2 / 60 == 0 then "" else NatString(m2 / 60) + "h";
      var n1, n2 := NatString(m1 % 60), NatString(m2 % 60);
      StripSuffix(h1 + n1, h2 + n2, "m");
      SplitBeforeDigits(h1, n1, h2, n2);
      NatStringInjective(m1 % 60, m2 % 60);
      if h1 != "" {
        StripSuffix(NatString(m1 / 60), NatString(m2 / 60), "h");
        NatStringInjective(m1 / 60, m2 / 60);
      }
    }
  }

  /** Distinct whole-second counts print distinct clocks. */
  lemma ClockInjective(a: nat, b: nat)
    requires Clock(a) == Clock(b)
    ensures a == b
  {
    SplitBeforeDigits(HoursMinutes(a / 60), NatString(a % 60), HoursMinutes(b / 60), NatString(b % 60));
    HoursMinutesInjective(a / 60, b / 60);
    NatStringInjective(a % 60, b % 60);
  }

  /** The character before the final 's' names the unit: n, µ, m, or a digit for seconds and zero. */
  lemma MagnitudeUnit(u: nat)
    ensures var s := MagnitudeString(u);
      && (0 < u < Microsecond ==> s[|s| - 2] == 'n')
      && (Microsecond <= u < Millisecond ==> s[|s| - 2] == 'µ')
      && (Millisecond <= u < Second ==> s[|s| - 2] == 'm')
      && (u == 0 || Second <= u ==> '0' <= s[|s| - 2] <= '9')
  {
    if u >= Second {
      var a := Clock(u / 1_000_000_000) + Frac(u, 9);
      SecondsForm(u);
      assert '0' <= a[|a| - 1] <= '9';
    } else if u >= Millisecond {
      var a := NatString(u / 1_000_000) + Frac(u, 6);
      MillisForm(u);
    } else if u >= Microsecond {
      var a := NatString(u / 1000) + Frac(u, 3);
      MicrosForm(u);
    } else if u > 0 {
      NanosForm(u);
    }
  }

  /** A duration of a second or more never prints as "0s", which is the zero duration's form. */
  lemma WholeSecondsNotZero(w: nat)
    ensures w >= Second ==> MagnitudeString(w) != "0s"
  {
    if w >= Second {
      var c, f := Clock(w / 1_000_000_000), Frac(w, 9);
      SecondsForm(w);
      ClockNotZero(w / 1_000_000_000);
      NotZeroForm(c, f);
    }
  }

  /** A clock other than "0", with or without a fraction, followed by "s" is not "0s". */
  lemma NotZeroForm(c: string, f: string)
    requires c != "0" && |c| >= 1
    requires f == "" || |f| >= 2
    ensures c + f + "s" != "0s"
  {
    if f == "" {
      assert c + f + "s" == c + "s";
      StripSuffixIf(c, "0", "s");
    } else {
      assert |c + f + "s"| > |"0s"|;
    }
  }

  /** A positive number of seconds never shows on the clock as a bare "0". */
  lemma ClockNotZero(seconds: nat)
    requires seconds >= 1
    ensures Clock(seconds) != "0"
  {
    if seconds / 60 == 0 {
      assert Clock(seconds) == NatString(seconds);
      if seconds < 10 {
        assert NatString(seconds) == [DigitChar(seconds)];
      }
    }
  }

  /**
    Below a second: the whole units, a fraction and the unit name pin down
    the whole units and the low prec digits.
   */
  lemma ScaledInjective(a1: nat, u: nat, a2: nat, v: nat, prec: nat, unit: string)
    requires NatString(a1) + Frac(u, prec) + unit == NatString(a2) + Frac(v, prec) + unit
    ensures a1 == a2 && u % Pow10(prec) == v % Pow10(prec)
  {
    StripSuffix(NatString(a1) + Frac(u, prec), NatString(a2) + Frac(v, prec), unit);
    SplitBeforeFrac(NatString(a1), Frac(u, prec), NatString(a2), Frac(v, prec));
    FracInjective(u, v, prec);
    NatStringInjective(a1, a2);
  }

  /** A second or more: the clock and the fraction pin down the duration. */
  lemma SecondsInjective(u: nat, v: nat)
    requires Second <= u && Second <= v
    requires MagnitudeString(u) == MagnitudeString(v)
    ensures u == v
  {
    var cu, cv := Clock(u / 1_000_000_000), Clock(v / 1_000_000_000);
    SecondsForm(u);
    SecondsForm(v);
    StripSuffix(cu + Frac(u, 9), cv + Frac(v, 9), "s");
    SplitBeforeFrac(cu, Frac(u, 9), cv, Frac(v, 9));
    FracInjective(u, v, 9);
    ClockInjective(u / 1_000_000_000, v / 1_000_000_000);
    Pow10Units();
  }

  /** Distinct non-negative durations print differently. */
  lemma MagnitudeInjective(u: nat, v: nat)
    requires MagnitudeString(u) == MagnitudeString(v)
    ensures u == v
  {
    MagnitudeUnit(u);
    MagnitudeUnit(v);
    if Second <= u && Second <= v {
      SecondsInjective(u, v);
    } else if Millisecond <= u < Second && Millisecond <= v < Second {
      MillisForm(u);
      MillisForm(v);
      Pow10Units();
      ScaledInjective(u / 1_000_000, u, v / 1_000_000, v, 6, "ms");
    } else if Microsecond <= u < Millisecond && Microsecond <= v < Millisecond {
      MicrosForm(u);
      MicrosForm(v);
      Pow10Units();
      ScaledInjective(u / 1000, u, v / 1000, v, 3, "µs");
    } else if 0 < u < Microsecond && 0 < v < Microsecond {
      NanosForm(u);
      NanosForm(v);
      StripSuffix(NatString(u), NatString(v), "ns");
      NatStringInjective(u, v);
    } else {
      WholeSecondsNotZero(u);
      WholeSecondsNotZero(v);
    }
  }

  /** Distinct durations print differently under `%s`. */
  lemma DurationStringInjective(d: int, e: int)
    requires DurationString(d) == DurationString(e)
    ensures d == e
  {
    MagnitudeOf(d);
    MagnitudeOf(e);
    assert (d < 0) == (e < 0);
    MagnitudeInjective(Abs(d), Abs(e));
  }

  function Abs(d: int): nat
  {
    if d < 0 then -d else d
  }

  lemma DurationSigned(d: int)
    ensures DurationString(d) == Signed(d < 0, MagnitudeString(Abs(d)))
  {
  }

  /** Behind its sign, a duration prints as its magnitude. */
  lemma MagnitudeOf(d: int)
    ensures MagnitudeString(Abs(d)) == if d < 0 then DurationString(d)[1..] else DurationString(d)
  {
    if d < 0 {
      StripPrefix("-", DurationString(d)[1..], MagnitudeString(-d));
    }
  }
}
