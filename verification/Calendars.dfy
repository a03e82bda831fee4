/** The proleptic Gregorian calendar, in UTC microseconds since the start of year 0. */
module Calendars {
  import opened Common
  import Text

  const DAY := 86_400_000_000

  /** A month is numbered 12 * year + (month of year - 1). */
  function Year(m: int): int { m / 12 }

  predicate Leap(year: int) { year % 4 == 0 && (year % 100 != 0 || year % 400 == 0) }

  /** Days of the twelve months of a common year, January first. */
  const MONTH_DAYS := [31, 28, 31, 30, 31, 30, 31, 31, 30, 31, 30, 31]

  function DaysIn(m: int): (days: int)
    ensures 28 <= days <= 31
  {
    if m % 12 == 1 && Leap(Year(m)) then 29 else MONTH_DAYS[m % 12]
  }

  /** The first instant of month `m`. */
  function Start(m: int): int
    decreases if m < 0 then -m else m
  {
    if m == 0 then 0
    else if m > 0 then Start(m - 1) + DaysIn(m - 1) * DAY
    else Start(m + 1) - DaysIn(m) * DAY
  }

  lemma NextMonth(m: int)
    ensures Start(m + 1) == Start(m) + DaysIn(m) * DAY
  {}

  lemma {:induction false} StartOrder(m: int, n: int)
    requires m < n
    ensures Start(m) + 28 * DAY * (n - m) <= Start(n)
    decreases n - m
  {
    NextMonth(n - 1);
    if m < n - 1 { StartOrder(m, n - 1); }
  }

  lemma StartMonotone(m: int, n: int)
    ensures m < n <==> Start(m) < Start(n)
  {
    if m < n { StartOrder(m, n); }
    if n < m { StartOrder(n, m); }
  }

  /** The month that holds instant `t`: `Start(MonthOf(t))` is `date_trunc('month', t)`. */
  function MonthOf(t: int): (m: int)
    ensures Start(m) <= t < Start(m + 1)
  {
    if t >= 0 then Forward(t, 0) else Backward(t, 0)
  }

  function Forward(t: int, m: int): (r: int)
    requires Start(m) <= t
    ensures Start(r) <= t < Start(r + 1)
    decreases t - Start(m)
  {
    NextMonth(m);
    if t < Start(m + 1) then m else Forward(t, m + 1)
  }

  function Backward(t: int, m: int): (r: int)
    requires t < Start(m)
    ensures Start(r) <= t < Start(r + 1)
    decreases Start(m) - t
  {
    NextMonth(m - 1);
    if Start(m - 1) <= t then m - 1 else Backward(t, m - 1)
  }

  // ---------------------------------------------------------------- day numbers

  /** The usual day number of the first of month `m`, counted from 1 January of year 0: years begin in March, so that
      the leap day comes last, and the months before it are told by one linear formula. */
  function CivilDay(m: int): int {
    var year, month := (m - 2) / 12, (m - 2) % 12;
    365 * year + year / 4 - year / 100 + year / 400 + (153 * month + 2) / 5 + 60
  }

  /** From February to March of the same year. */
  lemma CenturyRule(y: int)
    ensures (y / 4 - (y - 1) / 4) - (y / 100 - (y - 1) / 100) + (y / 400 - (y - 1) / 400) == if Leap(y) then 1 else 0
  {
    Steps(y, 4);
    Steps(y, 100);
    Steps(y, 400);
    Divides(y, 100, 4);
    Divides(y, 4, 25);
  }

  lemma Divides(y: int, d: int, e: int)
    requires (d == 100 && e == 4) || (d == 4 && e == 25)
    ensures y % (d * e) == 0 ==> y % d == 0
  {}

  lemma Steps(y: int, d: int)
    requires d in {4, 100, 400}
    ensures y / d - (y - 1) / d == if y % d == 0 then 1 else 0
  {}

  lemma CivilDayNext(m: int)
    ensures CivilDay(m + 1) == CivilDay(m) + DaysIn(m)
  {
    var q := m - 2;
    assert q == 12 * (q / 12) + q % 12;
    if q % 12 == 11 {
      assert (q + 1) / 12 == q / 12 + 1 && (q + 1) % 12 == 0;
      assert m == 12 * (q / 12 + 1) + 1;
      CenturyRule(q / 12 + 1);
    } else {
      assert (q + 1) / 12 == q / 12 && (q + 1) % 12 == q % 12 + 1;
      MarchMonths(m, q % 12);
    }
  }

  lemma MarchMonths(m: int, k: int)
    requires k == (m - 2) % 12 && 0 <= k < 11
    ensures (153 * (k + 1) + 2) / 5 - (153 * k + 2) / 5 == DaysIn(m)
  {
    assert m % 12 == (k + 2) % 12;
  }

  /** Months start on their civil day: the leap rule, the month lengths and the year at which counting starts are those
      of the calendar. */
  lemma {:induction false} StartIsCivilDay(m: int)
    ensures Start(m) == CivilDay(m) * DAY
    decreases if m < 0 then -m else m
  {
    if m > 0 {
      StartIsCivilDay(m - 1);
      CivilDayNext(m - 1);
    } else if m < 0 {
      StartIsCivilDay(m + 1);
      CivilDayNext(m);
    }
  }

  /** 400 years are 146,097 days. */
  lemma FourCenturies(m: int)
    ensures Start(m + 4800) == Start(m) + 146_097 * 86_400_000_000
  {
    StartIsCivilDay(m);
    StartIsCivilDay(m + 4800);
    CivilCycle(m);
  }

  /** January 1970 begins 719,528 days after year 0 does. */
  lemma EpochDay(m: int)
    requires Year(m) == 1970 && m % 12 == 0
    ensures Start(m) == 719_528 * 86_400_000_000
  {
    StartIsCivilDay(m);
    assert (m - 2) / 12 == 1969 && (m - 2) % 12 == 10;
  }

  lemma CivilCycle(m: int)
    ensures CivilDay(m + 4800) == CivilDay(m) + 146_097
  {
    var year := (m - 2) / 12;
    assert (m + 4800 - 2) / 12 == year + 400 && (m + 4800 - 2) % 12 == (m - 2) % 12;
    Shifts(year);
  }

  lemma Shifts(year: int)
    ensures (year + 400) / 4 == year / 4 + 100 && (year + 400) / 100 == year / 100 + 4
    ensures (year + 400) / 400 == year / 400 + 1
  {}

  // ---------------------------------------------------------------- YYYYMM stamps

  /** `to_char(start, 'YYYYMM')`. */
  function Stamp(m: int): string
    requires Year(m) >= 1
  {
    Text.Padded(Year(m), 4) + Text.Padded(m % 12 + 1, 2)
  }

  /** `to_date(s, 'YYYYMM')` on six characters, as a month number. */
  function ParseStamp(s: string): Option<int>
    requires |s| == 6
  {
    match (Text.DigitRun(s[..4]), Text.DigitRun(s[4..]))
    case (Some(year), Some(month)) => if 1 <= month <= 12 then Some(12 * year + month - 1) else None
    case _ => None
  }

  function Right6(s: string): string
    requires |s| >= 6
  {
    s[|s| - 6..]
  }

  function Pow10(k: nat): nat { if k == 0 then 1 else 10 * Pow10(k - 1) }

  lemma {:induction false} PaddedLength(n: nat, width: nat)
    requires width >= 1
    ensures n < Pow10(width) ==> |Text.Padded(n, width)| == width
    ensures n >= Pow10(width) ==> |Text.Padded(n, width)| > width
  {
    if width > 1 {
      PaddedLength(n / 10, width - 1);
    } else if n >= 10 {
      Text.DecimalDigits(n / 10);
    }
  }

  lemma {:induction false} RunBound(s: string)
    ensures Text.DigitRun(s).Some? ==> Text.DigitRun(s).value < Pow10(|s|)
    decreases |s|
  {
    if |s| > 1 {
      RunBound(s[..|s| - 1]);
      RunBound(s[..|s| - 2]);
    }
  }

  lemma StampShape(m: int)
    requires Year(m) >= 1
    ensures |Stamp(m)| >= 6
    ensures |Stamp(m)| == 6 <==> Year(m) <= 9999
  {
    assert Pow10(1) == 10 && Pow10(2) == 100 && Pow10(3) == 1000 && Pow10(4) == 10000;
    PaddedLength(Year(m), 4);
    PaddedLength(m % 12 + 1, 2);
    assert |Text.Padded(m % 12 + 1, 2)| == 2;
  }

  /** The stamp printed at creation parses back to its month exactly in the years of four digits. */
  lemma StampRoundTripIff(m: int)
    requires Year(m) >= 1
    ensures |Stamp(m)| >= 6
    ensures ParseStamp(Right6(Stamp(m))) == Some(m) <==> Year(m) <= 9999
  {
    StampShape(m);
    var s, y, mo := Stamp(m), Text.Padded(Year(m), 4), Text.Padded(m % 12 + 1, 2);
    Text.PaddedDigits(Year(m), 4);
    Text.PaddedDigits(m % 12 + 1, 2);
    PaddedLength(m % 12 + 1, 2);
    assert Pow10(1) == 10 && Pow10(2) == 100 && Pow10(3) == 1000 && Pow10(4) == 10000;
    if Year(m) <= 9999 {
      assert Right6(s) == s && s[..4] == y && s[4..] == mo;
    } else {
      RunBound(Right6(s)[..4]);
    }
  }

  /** As a number the stamp is 100 * year + month. */
  lemma StampIsNumber(m: int)
    requires Year(m) >= 1
    ensures Text.DigitRun(Stamp(m)) == Some(100 * Year(m) + m % 12 + 1)
  {
    var month: nat := m % 12 + 1;
    var n: nat := 100 * Year(m) + month;
    assert n / 100 == Year(m) && n / 10 / 10 == n / 100 && n / 10 % 10 == month / 10 && n % 10 == month % 10;
    assert Text.Padded(n, 6) == Text.Padded(n / 10, 5) + [Text.Digit(n % 10)];
    assert Text.Padded(n / 10, 5) == Text.Padded(n / 100, 4) + [Text.Digit(month / 10)];
    assert Text.Padded(month, 2) == [Text.Digit(month / 10)] + [Text.Digit(month % 10)];
    assert Text.Padded(n, 6) == Stamp(m);
    Text.PaddedDigits(n, 6);
  }

  // ---------------------------------------------------------------- what upkeep needs of a calendar

  /** Months as upkeep sees them: where each starts, which holds an instant, how `to_char` writes
      one and how `to_date` reads one back. */
  datatype Calendar = Calendar(start: int -> int, monthOf: int -> int, stamp: int -> string,
                               parse: string -> Option<int>)

  /** The months of years 1 to 9999. */
  predicate Nameable(m: int) { 12 <= m < 120_000 }

  /** Six characters that read back as the month. */
  ghost predicate Stamped(c: Calendar, m: int) { |c.stamp(m)| == 6 && c.parse(c.stamp(m)) == Some(m) }

  /** A month lasts 28 to 31 days, and with the next one at least 59. */
  ghost predicate MonthLength(c: Calendar, m: int) {
    28 * DAY <= c.start(m + 1) - c.start(m) <= 31 * DAY && c.start(m + 2) - c.start(m) >= 59 * DAY
  }

  /** Months follow each other and cover time; those of four-digit years have names. */
  ghost predicate Lawful(c: Calendar) {
    (forall m :: MonthLength(c, m))
    && (forall m :: Nameable(m) ==> Stamped(c, m))
    && (forall m, n :: m < n <==> c.start(m) < c.start(n))
    && (forall t :: c.start(c.monthOf(t)) <= t < c.start(c.monthOf(t) + 1))
  }

  const GREGORIAN := Calendar(
    m => Start(m), t => MonthOf(t), m => if Year(m) >= 1 then Stamp(m) else "",
    s => if |s| == 6 then ParseStamp(s) else None)

  /** Two consecutive months last 59 days or more. */
  lemma TwoMonths(m: int)
    ensures Start(m + 2) - Start(m) >= 59 * DAY
  {
    NextMonth(m);
    NextMonth(m + 1);
    NoTwoShortMonths(m);
  }

  lemma NoTwoShortMonths(m: int)
    ensures DaysIn(m) + DaysIn(m + 1) >= 59
  {
    if m % 12 == 1 { assert (m + 1) % 12 == 2; }
    if m % 12 == 0 { assert (m + 1) % 12 == 1; }
  }

  lemma GregorianIsLawful()
    ensures Lawful(GREGORIAN)
  {
    forall m
      ensures MonthLength(GREGORIAN, m)
    {
      NextMonth(m);
      TwoMonths(m);
    }
    forall m | Nameable(m)
      ensures Stamped(GREGORIAN, m)
    {
      StampShape(m);
      StampRoundTripIff(m);
      assert Right6(Stamp(m)) == Stamp(m);
    }
    forall m, n
      ensures m < n <==> Start(m) < Start(n)
    {
      StartMonotone(m, n);
    }
  }

  /** A month bound separates instants as its start does. */
  lemma MonthOrder(c: Calendar, t: int, m: int)
    requires Lawful(c)
    ensures c.monthOf(t) >= m <==> t >= c.start(m)
  {
    assert m <= c.monthOf(t) || c.start(c.monthOf(t) + 1) <= c.start(m);
  }

  lemma MonthOfMonotone(c: Calendar, s: int, t: int)
    requires Lawful(c) && s <= t
    ensures c.monthOf(s) <= c.monthOf(t)
  {
    MonthOrder(c, t, c.monthOf(s));
  }

  /** Distinct months share no instant. */
  lemma MonthsDisjoint(c: Calendar, m: int, n: int, t: int)
    requires Lawful(c) && c.start(m) <= t < c.start(m + 1) && c.start(n) <= t < c.start(n + 1)
    ensures m == n == c.monthOf(t)
  {
    MonthOrder(c, t, m);
    MonthOrder(c, t, m + 1);
    MonthOrder(c, t, n);
    MonthOrder(c, t, n + 1);
  }

  /** 1 on the first day of the month. */
  function DayOfMonth(c: Calendar, t: int): int { (t - c.start(c.monthOf(t))) / DAY + 1 }
}
