/** Instants, the proleptic Gregorian calendar, and the fixed-width UTC text of RFC 3339 that
    the database stores and compares (sections 5.1 and 5.6 of RFC 3339). */
module Rfc3339 {
  import opened Sequences
  import opened Decimal

  const NANOS: int := 1_000_000_000
  const DAY: int := 86400

  /** Seconds in the years 0000 to 9999, the years RFC 3339 text can express. */
  const MAX_SECONDS: int := 315_569_520_000

  /** Nanoseconds since 0000-01-01T00:00:00Z. */
  type Instant = t: int | 0 <= t < MAX_SECONDS * NANOS

  type Seconds = s: int | 0 <= s < MAX_SECONDS

  function SecondsOf(t: Instant): Seconds {
    t / NANOS
  }

  /** The instant a stored timestamp reads back as: the fraction of a second is gone. */
  function Trunc(t: Instant): (r: Instant)
    ensures r <= t < r + NANOS
    ensures SecondsOf(r) == SecondsOf(t)
  {
    SecondsOf(t) * NANOS
  }

  lemma TruncIdempotent(t: Instant)
    ensures Trunc(Trunc(t)) == Trunc(t)
  {
  }

  // ----- calendar -----

  predicate Leap(y: nat) {
    y % 4 == 0 && (y % 100 != 0 || y % 400 == 0)
  }

  function YearLength(y: nat): nat {
    if Leap(y) then 366 else 365
  }

  /** Days from 0000-01-01 to the first day of year `y`. */
  function YearStart(y: nat): nat {
    if y == 0 then 0 else YearStart(y - 1) + YearLength(y - 1)
  }

  lemma CeilingStep4(y: nat)
    requires y > 0
    ensures (y + 3) / 4 == (y + 2) / 4 + (if (y - 1) % 4 == 0 then 1 else 0)
  {
  }

  lemma CeilingStep100(y: nat)
    requires y > 0
    ensures (y + 99) / 100 == (y + 98) / 100 + (if (y - 1) % 100 == 0 then 1 else 0)
  {
  }

  lemma CeilingStep400(y: nat)
    requires y > 0
    ensures (y + 399) / 400 == (y + 398) / 400 + (if (y - 1) % 400 == 0 then 1 else 0)
  {
  }

  lemma LeapByDivision(y: nat)
    ensures YearLength(y) == 365 + (if y % 4 == 0 then 1 else 0) - (if y % 100 == 0 then 1 else 0)
                                 + (if y % 400 == 0 then 1 else 0)
  {
    MultipleOf(y, 25, 4);
    MultipleOf(y, 4, 100);
  }

  lemma MultipleOf(y: nat, a: nat, b: nat)
    requires (a == 25 && b == 4) || (a == 4 && b == 100)
    ensures y % (a * b) == 0 ==> y % b == 0
  {
    if y % (a * b) == 0 {
      var q := y / (a * b);
      assert y == b * (a * q);
      assert (b * (a * q)) % b == 0;
    }
  }

  lemma {:induction false} YearStartClosed(y: nat)
    ensures YearStart(y) == 365 * y + (y + 3) / 4 - (y + 99) / 100 + (y + 399) / 400
  {
    if y > 0 {
      YearStartClosed(y - 1);
      CeilingStep4(y);
      CeilingStep100(y);
      CeilingStep400(y);
      LeapByDivision(y - 1);
    }
  }

  lemma {:induction false} YearStartMonotone(y: nat, z: nat)
    requires y < z
    ensures YearStart(y) + YearLength(y) <= YearStart(z)
  {
    if y < z - 1 {
      YearStartMonotone(y, z - 1);
    }
  }

  function MonthLength(y: nat, m: nat): nat {
    if m == 2 then (if Leap(y) then 29 else 28)
    else if m == 4 || m == 6 || m == 9 || m == 11 then 30
    else 31
  }

  /** Days from the first day of year `y` to the first day of its month `m`. */
  function MonthStart(y: nat, m: nat): nat
    requires 1 <= m <= 13
  {
    if m == 1 then 0 else MonthStart(y, m - 1) + MonthLength(y, m - 1)
  }

  lemma TwelveMonths(y: nat)
    ensures MonthStart(y, 13) == YearLength(y)
  {
    var february := MonthLength(y, 2);
    assert MonthStart(y, 2) == 31;
    assert MonthStart(y, 4) == 62 + february;
    assert MonthStart(y, 6) == 123 + february;
    assert MonthStart(y, 8) == 184 + february;
    assert MonthStart(y, 10) == 245 + february;
    assert MonthStart(y, 12) == 306 + february;
  }

  lemma {:induction false} MonthStartMonotone(y: nat, m: nat, n: nat)
    requires 1 <= m < n <= 13
    ensures MonthStart(y, m) + MonthLength(y, m) <= MonthStart(y, n)
  {
    if m < n - 1 {
      MonthStartMonotone(y, m, n - 1);
    }
  }

  datatype Civil = Civil(year: nat, month: nat, day: nat, hour: nat, minute: nat, second: nat)

  predicate ValidCivil(c: Civil) {
    && c.year < 10000
    && 1 <= c.month <= 12
    && 1 <= c.day <= MonthLength(c.year, c.month)
    && c.hour < 24 && c.minute < 60 && c.second < 60
  }

  function DayNumber(c: Civil): nat
    requires ValidCivil(c)
  {
    YearStart(c.year) + MonthStart(c.year, c.month) + c.day - 1
  }

  function CivilSeconds(c: Civil): nat
    requires ValidCivil(c)
  {
    ((DayNumber(c) * 24 + c.hour) * 60 + c.minute) * 60 + c.second
  }

  /** Field-by-field order, most significant field first. */
  predicate CivilBefore(c: Civil, d: Civil) {
    c.year < d.year || (c.year == d.year && (
    c.month < d.month || (c.month == d.month && (
    c.day < d.day || (c.day == d.day && (
    c.hour < d.hour || (c.hour == d.hour && (
    c.minute < d.minute || (c.minute == d.minute &&
    c.second < d.second)))))))))
  }

  lemma DayNumberOrder(c: Civil, d: Civil)
    requires ValidCivil(c) && ValidCivil(d)
    requires c.year < d.year || (c.year == d.year && c.month < d.month)
    ensures DayNumber(c) < DayNumber(d)
  {
    if c.year < d.year {
      TwelveMonths(c.year);
      MonthStartMonotone(c.year, c.month, 13);
      YearStartMonotone(c.year, d.year);
    } else {
      MonthStartMonotone(c.year, c.month, d.month);
    }
  }

  lemma CivilOrder(c: Civil, d: Civil)
    requires ValidCivil(c) && ValidCivil(d) && CivilBefore(c, d)
    ensures CivilSeconds(c) < CivilSeconds(d)
  {
    if c.year < d.year || (c.year == d.year && c.month < d.month) {
      DayNumberOrder(c, d);
    }
  }

  function FindYear(days: nat, y: nat): (r: nat)
    requires YearStart(y) <= days
    ensures YearStart(r) <= days < YearStart(r) + YearLength(r)
    decreases days - YearStart(y)
  {
    if days < YearStart(y) + YearLength(y) then y else FindYear(days, y + 1)
  }

  function FindMonth(y: nat, dayOfYear: nat, m: nat): (r: nat)
    requires 1 <= m <= 12 && MonthStart(y, m) <= dayOfYear < YearLength(y)
    ensures 1 <= r <= 12
    ensures MonthStart(y, r) <= dayOfYear < MonthStart(y, r) + MonthLength(y, r)
    decreases 12 - m
  {
    TwelveMonths(y);
    if dayOfYear < MonthStart(y, m) + MonthLength(y, m) then m else FindMonth(y, dayOfYear, m + 1)
  }

  lemma YearInRange(y: nat)
    ensures y >= 10000 ==> YearStart(y) >= 3_652_425
  {
    YearStartClosed(10000);
    if y > 10000 {
      YearStartMonotone(10000, y);
    }
  }

  /** The UTC calendar fields of an instant. */
  function CivilOf(s: Seconds): (c: Civil)
    ensures ValidCivil(c) && CivilSeconds(c) == s
  {
    var days := s / DAY;
    var y := FindYear(days, 0);
    YearInRange(y);
    var m := FindMonth(y, days - YearStart(y), 1);
    var rest := s % DAY;
    Civil(y, m, days - YearStart(y) - MonthStart(y, m) + 1, rest / 3600, rest / 60 % 60, rest % 60)
  }

  // ----- text -----

  /** `w` digits, a separator, and the rest of the text. */
  function Field(w: nat, n: nat, sep: char, rest: string): (r: string)
    requires n < Pow10(w)
    ensures |r| == w + 1 + |rest|
  {
    Fixed(w, n) + ([sep] + rest)
  }

  function Render(c: Civil): string
    requires ValidCivil(c)
  {
    assert Pow10(2) == 100 && Pow10(4) == 10000;
    Field(4, c.year, '-', Field(2, c.month, '-', Field(2, c.day, 'T',
    Field(2, c.hour, ':', Field(2, c.minute, ':', Field(2, c.second, 'Z', ""))))))
  }

  /** Time.UTC().Format(time.RFC3339). */
  function Format(t: Instant): string {
    Render(CivilOf(SecondsOf(t)))
  }

  lemma FieldOrder(w: nat, m: nat, n: nat, sep: char, r: string, r': string)
    requires m < Pow10(w) && n < Pow10(w)
    ensures TextLess(Field(w, m, sep, r), Field(w, n, sep, r')) <==> m < n || (m == n && TextLess(r, r'))
  {
    TextLessConcat(Fixed(w, m), Fixed(w, n), [sep] + r, [sep] + r');
    TextLessConcat([sep], [sep], r, r');
    FixedOrder(w, m, n);
    ParseFixed(w, m);
    ParseFixed(w, n);
  }

  lemma RenderOrder(c: Civil, d: Civil)
    requires ValidCivil(c) && ValidCivil(d)
    ensures TextLess(Render(c), Render(d)) <==> CivilBefore(c, d)
  {
    assert Pow10(2) == 100 && Pow10(4) == 10000;
    var c6, d6 := Field(2, c.second, 'Z', ""), Field(2, d.second, 'Z', "");
    var c5, d5 := Field(2, c.minute, ':', c6), Field(2, d.minute, ':', d6);
    var c4, d4 := Field(2, c.hour, ':', c5), Field(2, d.hour, ':', d5);
    var c3, d3 := Field(2, c.day, 'T', c4), Field(2, d.day, 'T', d4);
    var c2, d2 := Field(2, c.month, '-', c3), Field(2, d.month, '-', d3);
    FieldOrder(2, c.second, d.second, 'Z', "", "");
    FieldOrder(2, c.minute, d.minute, ':', c6, d6);
    FieldOrder(2, c.hour, d.hour, ':', c5, d5);
    FieldOrder(2, c.day, d.day, 'T', c4, d4);
    FieldOrder(2, c.month, d.month, '-', c3, d3);
    FieldOrder(4, c.year, d.year, '-', c2, d2);
  }

  /** Comparing the stored text is comparing the times cut to seconds. */
  lemma TextOrderIsChronological(t: Instant, u: Instant)
    ensures TextLess(Format(t), Format(u)) <==> SecondsOf(t) < SecondsOf(u)
    ensures Format(t) == Format(u) <==> SecondsOf(t) == SecondsOf(u)
  {
    var c, d := CivilOf(SecondsOf(t)), CivilOf(SecondsOf(u));
    RenderOrder(c, d);
    if CivilBefore(c, d) {
      CivilOrder(c, d);
    } else if CivilBefore(d, c) {
      RenderOrder(d, c);
      CivilOrder(d, c);
    } else {
      assert c == d;
    }
    TextLessTrichotomy(Format(t), Format(u));
  }

  /** Reads `w` digits and the separator, returning the number and the rest. */
  function ReadField(w: nat, sep: char, text: string): Option<(nat, string)> {
    if |text| > w && AllDigits(text[..w]) && text[w] == sep then Some((Parse(text[..w]), text[w + 1..]))
    else None
  }

  lemma ReadBack(w: nat, n: nat, sep: char, rest: string)
    requires n < Pow10(w)
    ensures ReadField(w, sep, Field(w, n, sep, rest)) == Some((n, rest))
  {
    var text := Field(w, n, sep, rest);
    ParseFixed(w, n);
    assert text[..w] == Fixed(w, n) && text[w + 1..] == rest;
  }

  function Fields(text: string): Option<Civil> {
    var y := ReadField(4, '-', text);
    if y == None then None else
    var mo := ReadField(2, '-', y.value.1);
    if mo == None then None else
    var d := ReadField(2, 'T', mo.value.1);
    if d == None then None else
    var h := ReadField(2, ':', d.value.1);
    if h == None then None else
    var mi := ReadField(2, ':', h.value.1);
    if mi == None then None else
    var s := ReadField(2, 'Z', mi.value.1);
    if s == None || s.value.1 != "" then None else
    Some(Civil(y.value.0, mo.value.0, d.value.0, h.value.0, mi.value.0, s.value.0))
  }

  lemma DayInRange(c: Civil)
    requires ValidCivil(c)
    ensures DayNumber(c) < 3_652_425
  {
    TwelveMonths(c.year);
    MonthStartMonotone(c.year, c.month, 13);
    YearStartClosed(10000);
    YearStartMonotone(c.year, 10000);
  }

  lemma CivilInRange(c: Civil)
    requires ValidCivil(c)
    ensures CivilSeconds(c) < MAX_SECONDS
  {
    DayInRange(c);
  }

  /** time.Parse(time.RFC3339, text) on the UTC form without a fraction. */
  function ParseTime(text: string): Option<Instant> {
    var c := Fields(text);
    if c == None || !ValidCivil(c.value) then None
    else
      CivilInRange(c.value);
      Some(CivilSeconds(c.value) * NANOS)
  }

  lemma FieldsOfRender(c: Civil)
    requires ValidCivil(c)
    ensures Fields(Render(c)) == Some(c)
  {
    assert Pow10(2) == 100 && Pow10(4) == 10000;
    var c6 := Field(2, c.second, 'Z', "");
    var c5 := Field(2, c.minute, ':', c6);
    var c4 := Field(2, c.hour, ':', c5);
    var c3 := Field(2, c.day, 'T', c4);
    var c2 := Field(2, c.month, '-', c3);
    ReadBack(4, c.year, '-', c2);
    ReadBack(2, c.month, '-', c3);
    ReadBack(2, c.day, 'T', c4);
    ReadBack(2, c.hour, ':', c5);
    ReadBack(2, c.minute, ':', c6);
    ReadBack(2, c.second, 'Z', "");
  }

  /** What is written is read back cut to the second, and nothing else is lost. */
  lemma ParseFormat(t: Instant)
    ensures ParseTime(Format(t)) == Some(Trunc(t))
  {
    FieldsOfRender(CivilOf(SecondsOf(t)));
  }

  /** Seconds since 1970-01-01T00:00:00Z, Go's Time.Unix. */
  const UNIX_EPOCH: int := 719_528 * DAY

  function Unix(t: Instant): int {
    SecondsOf(t) - UNIX_EPOCH
  }

  lemma UnixEpochIs1970()
    ensures ValidCivil(Civil(1970, 1, 1, 0, 0, 0))
    ensures CivilSeconds(Civil(1970, 1, 1, 0, 0, 0)) == UNIX_EPOCH
  {
    YearStartClosed(1970);
    assert DayNumber(Civil(1970, 1, 1, 0, 0, 0)) == 719_528;
  }
}
