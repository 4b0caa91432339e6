/** Decimal text: what fmt's %d, %02d and %06d print, how it is read back, how it compares,
    and the response layer's own printer into a fixed 20-byte buffer. */
module Decimal {

  function Digit(d: nat): (c: char)
    requires d < 10
  {
    '0' + d as char
  }

  predicate IsDigit(c: char) {
    '0' <= c <= '9'
  }

  function DigitValue(c: char): (d: nat)
    requires IsDigit(c)
    ensures d < 10 && Digit(d) == c
  {
    (c as int) - ('0' as int)
  }

  lemma DigitInjective(d: nat, e: nat)
    requires d < 10 && e < 10
    ensures IsDigit(Digit(d)) && DigitValue(Digit(d)) == d
    ensures Digit(d) < Digit(e) <==> d < e
    ensures Digit(d) == Digit(e) <==> d == e
  {
    assert Digit(d) as int == '0' as int + d;
    assert Digit(e) as int == '0' as int + e;
  }

  predicate AllDigits(s: string) {
    forall i :: 0 <= i < |s| ==> IsDigit(s[i])
  }

  /** The shortest decimal text of `n`. */
  function Print(n: nat): (s: string)
    ensures s != [] && AllDigits(s)
  {
    DigitInjective(n % 10, n % 10);
    if n < 10 then [Digit(n)] else Print(n / 10) + [Digit(n % 10)]
  }

  /** The value of a digit string, most significant digit first. */
  function Parse(s: string): nat
    requires AllDigits(s)
  {
    if s == [] then 0 else Parse(s[..|s| - 1]) * 10 + DigitValue(s[|s| - 1])
  }

  lemma {:induction false} ParsePrint(n: nat)
    ensures Parse(Print(n)) == n
  {
    DigitInjective(n % 10, n % 10);
    if n >= 10 {
      ParsePrint(n / 10);
      assert Print(n)[..|Print(n)| - 1] == Print(n / 10);
    }
  }

  lemma {:induction false} PrintLeadingDigit(n: nat)
    ensures n > 0 ==> Print(n)[0] != '0'
  {
    if n < 10 {
      DigitInjective(n, 0);
    } else {
      PrintLeadingDigit(n / 10);
    }
  }

  /** Print with at least `width` characters, padded on the left with zeros (%0Nd). */
  function Pad(width: nat, n: nat): (s: string)
    ensures AllDigits(s) && |s| >= width
  {
    PadText(width, Print(n))
  }

  function PadText(width: nat, p: string): (s: string)
    requires AllDigits(p)
    ensures AllDigits(s) && |s| >= width
    decreases width - |p|
  {
    if |p| >= width then p else PadText(width, ['0'] + p)
  }

  lemma {:induction false} PadTextLength(width: nat, p: string)
    requires AllDigits(p)
    ensures |PadText(width, p)| == if |p| >= width then |p| else width
    decreases width - |p|
  {
    if |p| < width {
      PadTextLength(width, ['0'] + p);
    }
  }

  lemma PadLength(width: nat, n: nat)
    ensures |Pad(width, n)| == if |Print(n)| >= width then |Print(n)| else width
  {
    PadTextLength(width, Print(n));
  }

  lemma {:induction false} ParseZero(p: string)
    requires AllDigits(p)
    ensures Parse(['0'] + p) == Parse(p)
  {
    if p != [] {
      assert (['0'] + p)[..|p|] == ['0'] + p[..|p| - 1];
      ParseZero(p[..|p| - 1]);
    }
  }

  lemma {:induction false} ParsePadText(width: nat, p: string)
    requires AllDigits(p)
    ensures Parse(PadText(width, p)) == Parse(p)
    decreases width - |p|
  {
    if |p| < width {
      ParseZero(p);
      ParsePadText(width, ['0'] + p);
    }
  }

  /** Padding never changes the number, so padded numbers are equal only when the numbers are. */
  lemma ParsePad(width: nat, n: nat)
    ensures Parse(Pad(width, n)) == n
  {
    ParsePrint(n);
    ParsePadText(width, Print(n));
  }

  function Pow10(w: nat): (p: nat)
    ensures p > 0
  {
    if w == 0 then 1 else 10 * Pow10(w - 1)
  }

  /** Exactly `w` digits, for numbers below 10^w. */
  function Fixed(w: nat, n: nat): (s: string)
    requires n < Pow10(w)
    ensures |s| == w && AllDigits(s)
  {
    if w == 0 then ""
    else
      DigitInjective(n % 10, n % 10);
      Fixed(w - 1, n / 10) + [Digit(n % 10)]
  }

  lemma {:induction false} ParseFixed(w: nat, n: nat)
    requires n < Pow10(w)
    ensures Parse(Fixed(w, n)) == n
  {
    if w > 0 {
      DigitInjective(n % 10, n % 10);
      ParseFixed(w - 1, n / 10);
      assert Fixed(w, n)[..w - 1] == Fixed(w - 1, n / 10);
    }
  }

  /** Byte-wise text order, SQLite's BINARY collation. */
  predicate TextLess(a: string, b: string) {
    b != [] && (a == [] || a[0] < b[0] || (a[0] == b[0] && TextLess(a[1..], b[1..])))
  }

  lemma {:induction false} TextLessTrichotomy(a: string, b: string)
    ensures TextLess(a, b) ==> a != b && !TextLess(b, a)
    ensures TextLess(a, b) || a == b || TextLess(b, a)
  {
    if a != [] && b != [] && a[0] == b[0] {
      TextLessTrichotomy(a[1..], b[1..]);
      assert a == [a[0]] + a[1..] && b == [b[0]] + b[1..];
    }
  }

  lemma {:induction false} TextLessTransitive(a: string, b: string, c: string)
    requires TextLess(a, b) && TextLess(b, c)
    ensures TextLess(a, c)
  {
    if a != [] && a[0] == b[0] == c[0] {
      TextLessTransitive(a[1..], b[1..], c[1..]);
    }
  }

  lemma TextLessWeakOrder(a: string, b: string, c: string)
    requires !TextLess(a, b) && !TextLess(b, c)
    ensures !TextLess(a, c)
  {
    TextLessTrichotomy(a, b);
    TextLessTrichotomy(b, c);
    TextLessTrichotomy(a, c);
    if a != b && b != c {
      TextLessTransitive(c, b, a);
    }
  }

  lemma {:induction false} TextLessConcat(a: string, b: string, c: string, d: string)
    requires |a| == |b|
    ensures TextLess(a + c, b + d) <==> TextLess(a, b) || (a == b && TextLess(c, d))
  {
    if a == [] {
      assert a + c == c && b + d == d;
    } else {
      assert (a + c)[1..] == a[1..] + c && (b + d)[1..] == b[1..] + d;
      assert a == [a[0]] + a[1..] && b == [b[0]] + b[1..];
      TextLessConcat(a[1..], b[1..], c, d);
    }
  }

  /** Fixed-width decimal text compares as the numbers do. */
  lemma {:induction false} FixedOrder(w: nat, m: nat, n: nat)
    requires m < Pow10(w) && n < Pow10(w)
    ensures TextLess(Fixed(w, m), Fixed(w, n)) <==> m < n
  {
    if w > 0 {
      FixedOrder(w - 1, m / 10, n / 10);
      FixedOrder(w - 1, n / 10, m / 10);
      TextLessTrichotomy(Fixed(w - 1, m / 10), Fixed(w - 1, n / 10));
      DigitInjective(m % 10, n % 10);
      TextLessConcat(Fixed(w - 1, m / 10), Fixed(w - 1, n / 10), [Digit(m % 10)], [Digit(n % 10)]);
      ParseFixed(w - 1, m / 10);
      ParseFixed(w - 1, n / 10);
    }
  }
}
