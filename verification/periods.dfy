/**
 * Calendar dates and billing periods. A period is one calendar month; the
 * application identifies it by the string `format(firstOfMonth, "yyyy-MM")`
 * and steps through months with `new Date(year, monthIndex + 1, 1)`.
 */
module Periods {
  import opened Text

  /** A calendar date as the browser's local-time components; `month` is 1-based. */
  datatype Date = Date(year: int, month: int, day: int) {
    predicate Valid() {
      1 <= month <= 12 && 1 <= day <= 31
    }
  }

  /** A billing period: the calendar month `month` (1..12) of `year`. */
  datatype Period = Period(year: int, month: int) {
    predicate Valid() {
      1 <= month <= 12
    }
  }

  /** Absolute month number: consecutive months have consecutive indices. */
  function Index(p: Period): int {
    12 * p.year + (p.month - 1)
  }

  /** Valid periods are determined by their month number. */
  lemma IndexInjective(p: Period, q: Period)
    requires p.Valid() && q.Valid() && Index(p) == Index(q)
    ensures p == q
  {
  }

  /** `startOfMonth(d)`: the day is dropped, the month kept. */
  function StartOfMonth(d: Date): Period {
    Period(d.year, d.month)
  }

  /**
   * The year the `Date` constructor actually uses: a year argument from 0 to 99
   * is read as 1900 to 1999 (the MakeFullYear step of section 21.4.2.1 of
   * ECMA-262); every other year is kept.
   */
  function FullYear(year: int): int {
    if 0 <= year <= 99 then 1900 + year else year
  }

  /**
   * `new Date(year, monthIndex, 1)` for a 0-based month index that may run past
   * December: the constructor reads the year as `FullYear(year)` and then carries
   * whole years out of the month index.
   */
  function NewMonthStart(year: int, monthIndex: int): (p: Period)
    ensures p.Valid()
    ensures Index(p) == 12 * FullYear(year) + monthIndex
    ensures 0 <= year <= 99 && 0 <= monthIndex < 12 ==> p == Period(1900 + year, monthIndex + 1)
  {
    Period(FullYear(year) + monthIndex / 12, monthIndex % 12 + 1)
  }

  /**
   * The loop step of both month walks, `new Date(p.year, p.month, 1)` in 0-based
   * months (`NextIsConstructorStep`): the first of the following month, 1900
   * years later when the year has at most two digits.
   */
  function Next(p: Period): (r: Period)
    requires p.Valid()
    ensures r.Valid()
    ensures Index(r) > Index(p) && r.year >= p.year
    ensures !(0 <= p.year <= 99) ==> Index(r) == Index(p) + 1
  {
    if p.month < 12 then Period(FullYear(p.year), p.month + 1) else Period(FullYear(p.year) + 1, 1)
  }

  /** The step is the `Date` constructor applied to the month after `p`, carry included. */
  lemma NextIsConstructorStep(p: Period)
    requires p.Valid()
    ensures Next(p) == NewMonthStart(p.year, (p.month - 1) + 1)
  {
  }

  /** Within the years 0 to 99 the step moves 1900 years and one month. */
  lemma NextFromTwoDigitYear(p: Period)
    requires p.Valid() && 0 <= p.year <= 99
    ensures Index(Next(p)) == Index(p) + 1 + 12 * 1900 && Next(p).year >= 1900
  {
  }

  /** Two-digit years: June of year 50 steps to July 1950, December of year 99 to January 2000. */
  lemma TwoDigitYearStep()
    ensures Next(Period(50, 6)) == Period(1950, 7) && Next(Period(99, 12)) == Period(2000, 1)
    ensures Next(Period(100, 6)) == Period(100, 7) && Next(Period(-1, 12)) == Period(0, 1)
  {
  }

  /** The calendar year the `yyyy` token prints: year 0 is 1 BC and prints as 1. */
  function EraYear(year: int): (y: nat)
    ensures y >= 1
    ensures year >= 1 ==> y == year
  {
    if year > 0 then year else 1 - year
  }

  /** `format(firstOfMonth(p), "yyyy-MM")`. */
  function Format(p: Period): string
    requires p.Valid()
  {
    Digits(EraYear(p.year), 4) + "-" + Digits(p.month, 2)
  }

  /** The two parts of a rendering: the year digits, then '-' and exactly two month digits. */
  lemma FormatShape(p: Period)
    requires p.Valid()
    ensures |Digits(p.month, 2)| == 2
    ensures |Format(p)| == |Digits(EraYear(p.year), 4)| + 3
  {
    assert p.month < Pow10(2);
    DigitsShape(p.month, 2);
  }

  /** Two valid periods of the common era never share a rendering. */
  lemma FormatInjective(p: Period, q: Period)
    requires p.Valid() && q.Valid()
    requires p.year >= 1 && q.year >= 1
    requires Format(p) == Format(q)
    ensures p == q
  {
    FormatShape(p);
    FormatShape(q);
    var yp, yq := Digits(p.year, 4), Digits(q.year, 4);
    var mp, mq := Digits(p.month, 2), Digits(q.month, 2);
    var s := Format(p);
    assert |yp| == |yq|;
    assert yp == s[..|yp|] == yq;
    assert mp == s[|yp| + 1..] == mq;
    DigitsInjective(p.year, q.year, 4);
    DigitsInjective(p.month, q.month, 2);
  }

  /** Year 0 (1 BC) and year 1 render alike: injectivity needs years of one era. */
  lemma FormatEraCollision(month: int)
    requires 1 <= month <= 12
    ensures Format(Period(0, month)) == Format(Period(1, month))
  {
  }

  /** For four-digit years, string order on renderings is chronological order. */
  lemma FormatOrder(p: Period, q: Period)
    requires p.Valid() && q.Valid()
    requires 1 <= p.year <= 9999 && 1 <= q.year <= 9999
    ensures LexLess(Format(p), Format(q)) <==> Index(p) < Index(q)
  {
    assert Pow10(4) == 10000 && Pow10(2) == 100;
    DigitsShape(p.year, 4);
    DigitsShape(q.year, 4);
    DigitsShape(p.month, 2);
    DigitsShape(q.month, 2);
    var yp, yq := Digits(p.year, 4), Digits(q.year, 4);
    var mp, mq := Digits(p.month, 2), Digits(q.month, 2);
    assert Format(p) == yp + ("-" + mp) && Format(q) == yq + ("-" + mq);
    LexLessAppend(yp, "-" + mp, yq, "-" + mq);
    LexLessAppend("-", mp, "-", mq);
    assert !LexLess("-", "-");
    DigitsOrder(p.year, q.year, 4);
    DigitsOrder(p.month, q.month, 2);
    assert yp == yq <==> p.year == q.year by {
      if yp == yq { DigitsInjective(p.year, q.year, 4); }
    }
  }
}
