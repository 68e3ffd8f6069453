/** The calendar arithmetic behind the review due date: a local calendar date as JavaScript's
    `Date` getters report it, whole-day steps, and the `Y-M-D` text the project board receives. */
module Calendar {
  import opened Wrappers
  import opened Strings

  /** A date as `getFullYear()`, `getMonth()` (zero-based, 0 = January), `getDate()` (day of
      the month, from 1) and `getDay()` (0 = Sunday .. 6 = Saturday) report it. The weekday
      is part of the input, as the clock reports it; it is not derived from the date. */
  datatype Date = Date(year: nat, month: nat, day: nat, weekday: nat)

  const Sunday: nat := 0
  const Saturday: nat := 6

  predicate IsLeapYear(y: nat) {
    y % 4 == 0 && (y % 100 != 0 || y % 400 == 0)
  }

  function DaysInMonth(y: nat, m: nat): nat
    requires m < 12
  {
    if m == 1 then (if IsLeapYear(y) then 29 else 28)
    else if m == 3 || m == 5 || m == 8 || m == 10 then 30
    else 31
  }

  predicate Valid(d: Date) {
    d.month < 12 && 1 <= d.day <= DaysInMonth(d.year, d.month) && d.weekday < 7
  }

  /** The following calendar day (what adding 24 hours to a date's time value gives). */
  function NextDay(d: Date): (e: Date)
    requires Valid(d)
    ensures Valid(e)
  {
    var w := (d.weekday + 1) % 7;
    if d.day < DaysInMonth(d.year, d.month) then Date(d.year, d.month, d.day + 1, w)
    else if d.month < 11 then Date(d.year, d.month + 1, 1, w)
    else Date(d.year + 1, 0, 1, w)
  }

  /** The date `n` whole days after `d`. */
  function AddDays(d: Date, n: nat): (e: Date)
    requires Valid(d)
    ensures Valid(e)
    decreases n
  {
    if n == 0 then d else AddDays(NextDay(d), n - 1)
  }

  function DaysInYear(y: nat): nat {
    if IsLeapYear(y) then 366 else 365
  }

  function DaysBeforeYear(y: nat): nat {
    if y == 0 then 0 else DaysBeforeYear(y - 1) + DaysInYear(y - 1)
  }

  /** Days of year `y` that precede the first of month `m` (`m == 12` gives the whole year). */
  function DaysBeforeMonth(y: nat, m: nat): nat
    requires m <= 12
  {
    var table := [0, 31, 59, 90, 120, 151, 181, 212, 243, 273, 304, 334, 365];
    table[m] + if m >= 2 && IsLeapYear(y) then 1 else 0
  }

  /** An independent count of days: the number of days from 1 January of year 0 to `d`. */
  function DayNumber(d: Date): nat
    requires Valid(d)
  {
    DaysBeforeYear(d.year) + DaysBeforeMonth(d.year, d.month) + d.day - 1
  }

  lemma MonthStep(y: nat, m: nat)
    requires m < 12
    ensures DaysBeforeMonth(y, m + 1) == DaysBeforeMonth(y, m) + DaysInMonth(y, m)
    ensures DaysBeforeMonth(y, 12) == DaysInYear(y)
  {
  }

  lemma NextDayIsOneDayLater(d: Date)
    requires Valid(d)
    ensures DayNumber(NextDay(d)) == DayNumber(d) + 1
    ensures NextDay(d).weekday == (d.weekday + 1) % 7
  {
    var y, m := d.year, d.month;
    if d.day == DaysInMonth(y, m) {
      MonthStep(y, m);
      if m == 11 {
        assert DaysBeforeYear(y + 1) == DaysBeforeYear(y) + DaysInYear(y);
        assert DaysBeforeMonth(y + 1, 0) == 0;
      }
    }
  }

  lemma WeekdayStep(w: nat, n: nat)
    requires w < 7
    ensures ((w + 1) % 7 + n) % 7 == (w + 1 + n) % 7
  {
    if w == 6 {
      assert (7 + n) % 7 == n % 7;
    }
  }

  /** `AddDays` moves the day count forward by exactly `n` and the weekday by `n` modulo 7. */
  lemma {:induction false} AddDaysIsNDaysLater(d: Date, n: nat)
    requires Valid(d)
    ensures DayNumber(AddDays(d, n)) == DayNumber(d) + n
    ensures AddDays(d, n).weekday == (d.weekday + n) % 7
    decreases n
  {
    if n > 0 {
      NextDayIsOneDayLater(d);
      AddDaysIsNDaysLater(NextDay(d), n - 1);
      WeekdayStep(d.weekday, n - 1);
    }
  }

  /** `formatDate`: full year, zero-based month and day of month, each in plain decimal
      without padding, separated by `-`. */
  function FormatDate(d: Date): string {
    NatToString(d.year) + "-" + NatToString(d.month) + "-" + NatToString(d.day)
  }

  /** Reads `Y-M-D` back into its three numbers. */
  function ParseDate(s: string): Option<(nat, nat, nat)> {
    match IndexFrom(s, "-", 0)
    case None => None
    case Some(i) =>
      match IndexFrom(s, "-", i + 1)
      case None => None
      case Some(j) =>
        match (ParseDecimal(s[..i]), ParseDecimal(s[i + 1..j]), ParseDecimal(s[j + 1..]))
        case (Some(y), Some(m), Some(day)) => Some((y, m, day))
        case _ => None
  }

  /** The text a date is formatted to determines the year, the zero-based month and the day:
      the format is unambiguous. */
  lemma FormatDateRoundTrip(d: Date)
    ensures ParseDate(FormatDate(d)) == Some((d.year, d.month, d.day))
  {
    var y, m, day := NatToString(d.year), NatToString(d.month), NatToString(d.day);
    ParseDateSplits(y, m, day);
    DecimalRoundTrip(d.year);
    DecimalRoundTrip(d.month);
    DecimalRoundTrip(d.day);
  }

  /** Two fields of digits and a third field joined by dashes are split back at the two
      dashes, each field read as a number. */
  lemma ParseDateSplits(y: string, m: string, day: string)
    requires AllDigits(y) && AllDigits(m)
    ensures ParseDate(y + "-" + m + "-" + day)
      == match (ParseDecimal(y), ParseDecimal(m), ParseDecimal(day))
         case (Some(a), Some(b), Some(c)) => Some((a, b, c))
         case _ => None
  {
    var s := y + "-" + m + "-" + day;
    var i := |y|;
    var j := i + 1 + |m|;
    FirstOccurrenceOfChar(s, '-', 0, i);
    FirstOccurrenceOfChar(s, '-', i + 1, j);
    assert s[..i] == y;
    assert s[i + 1..j] == m;
    assert s[j + 1..] == day;
  }

  /** The month is written zero-based and nothing is padded: 5 January 2022 is "2022-0-5". */
  lemma FormatDateExample()
    ensures FormatDate(Date(2022, 0, 5, 3)) == "2022-0-5"
  {
    assert NatToString(2022) == "2022" by {
      assert NatToString(2) == "2";
      assert NatToString(20) == "20";
      assert NatToString(202) == "202";
    }
  }
}
