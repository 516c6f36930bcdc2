/** Days since 1970-01-01 of dates in the proleptic Gregorian calendar, negative years included. */
module CivilDays {
  datatype Date = Date(year: int, month: int, day: int)

  predicate Leap(year: int) {
    year % 4 == 0 && (year % 100 != 0 || year % 400 == 0)
  }

  function MonthLength(year: int, month: int): int {
    if month == 2 then if Leap(year) then 29 else 28
    else if month in {4, 6, 9, 11} then 30
    else 31
  }

  predicate Valid(d: Date) {
    1 <= d.month <= 12 && 1 <= d.day <= MonthLength(d.year, d.month)
  }

  /** The day after, by the calendar. */
  function Next(d: Date): (next: Date)
    requires Valid(d)
    ensures Valid(next)
  {
    if d.day < MonthLength(d.year, d.month) then d.(day := d.day + 1)
    else if d.month < 12 then Date(d.year, d.month + 1, 1)
    else Date(d.year + 1, 1, 1)
  }

  /** Years are counted from March, in eras of 400. */
  function DaysFromCivil(y: int, m: int, d: int): int {
    var year := if m <= 2 then y - 1 else y;
    var era, yoe := year / 400, year % 400;
    var mp := (m + 9) % 12;
    var doy := (153 * mp + 2) / 5 + d - 1;
    var doe := yoe * 365 + yoe / 4 - yoe / 100 + doy;
    era * 146_097 + doe - 719_468
  }

  function Days(d: Date): int {
    DaysFromCivil(d.year, d.month, d.day)
  }

  /** The days before the March that starts a year. */
  function YearStart(year: int): int {
    year / 400 * 146_097 + year % 400 * 365 + year % 400 / 4 - year % 400 / 100
  }

  /** A year from March has the leap day of the January and February that end it. */
  lemma YearLength(year: int)
    ensures YearStart(year) - YearStart(year - 1) == if Leap(year) then 366 else 365
  {
    var era, yoe := year / 400, year % 400;
    SameInEra(year, era, yoe);
    if yoe == 0 {
      Divided(year - 1, era - 1, 399);
    } else {
      Divided(year - 1, era, yoe - 1);
      LeapDays(yoe);
    }
  }

  lemma Divided(year: int, era: int, yoe: int)
    requires year == era * 400 + yoe && 0 <= yoe < 400
    ensures year / 400 == era && year % 400 == yoe
  {
  }

  lemma SameInEra(year: int, era: int, yoe: int)
    requires year == era * 400 + yoe && 0 <= yoe < 400
    ensures Leap(year) <==> Leap(yoe)
  {
    ByFour(100 * era, yoe);
    ByHundred(4 * era, yoe);
    ByFourHundred(era, yoe);
  }

  lemma ByFour(q: int, r: int)
    ensures (4 * q + r) % 4 == r % 4
  {
  }

  lemma ByHundred(q: int, r: int)
    ensures (100 * q + r) % 100 == r % 100
  {
  }

  lemma ByFourHundred(q: int, r: int)
    ensures (400 * q + r) % 400 == r % 400
  {
  }

  lemma LeapDays(yoe: int)
    requires 0 < yoe < 400
    ensures yoe / 4 - (yoe - 1) / 4 == if yoe % 4 == 0 then 1 else 0
    ensures yoe / 100 - (yoe - 1) / 100 == if yoe % 100 == 0 then 1 else 0
  {
  }

  lemma Epoch()
    ensures Days(Date(1970, 1, 1)) == 0
  {
  }

  /** The days from the first of March to the first of a month. */
  function MonthStart(m: int): int {
    (153 * ((m + 9) % 12) + 2) / 5
  }

  /** The year from March that a date is in. */
  function YearOf(d: Date): int {
    if d.month <= 2 then d.year - 1 else d.year
  }

  /** The days of a date in a year from March that starts after `start` days. */
  function DaysFrom(start: int, d: Date): int {
    start + MonthStart(d.month) + d.day - 1 - 719_468
  }

  lemma InYear(d: Date)
    requires Valid(d)
    ensures Days(d) == DaysFrom(YearStart(YearOf(d)), d)
  {
  }

  /** A month starts where the one before ends; March starts a year. */
  lemma MonthFollows(year: int, month: int)
    requires 1 <= month <= 12
    ensures month != 2 && month != 12 ==> MonthStart(month + 1) == MonthStart(month) + MonthLength(year, month)
    ensures MonthStart(1) == MonthStart(12) + 31 && MonthStart(2) == 337 && MonthStart(3) == 0
  {
  }

  lemma NextInYear(d: Date, start: int)
    requires Valid(d) && YearOf(Next(d)) == YearOf(d)
    ensures DaysFrom(start, Next(d)) == DaysFrom(start, d) + 1
  {
    MonthFollows(d.year, d.month);
  }

  lemma NextInMarch(d: Date, before: int, start: int)
    requires Valid(d) && YearOf(Next(d)) != YearOf(d) && start - before == if Leap(d.year) then 366 else 365
    ensures YearOf(d) == d.year - 1 && YearOf(Next(d)) == d.year
    ensures DaysFrom(start, Next(d)) == DaysFrom(before, d) + 1
  {
    MonthFollows(d.year, d.month);
  }

  lemma NextWithinYear(d: Date)
    requires Valid(d) && YearOf(Next(d)) == YearOf(d)
    ensures Days(Next(d)) == Days(d) + 1
  {
    InYear(d);
    InYear(Next(d));
    NextInYear(d, YearStart(YearOf(d)));
  }

  lemma NextIsMarch(d: Date)
    requires Valid(d) && YearOf(Next(d)) != YearOf(d)
    ensures Days(Next(d)) == Days(d) + 1
  {
    InYear(d);
    InYear(Next(d));
    YearLength(d.year);
    NextInMarch(d, YearStart(d.year - 1), YearStart(d.year));
  }

  /** Over every month end, leap day and turn of the year, the next date is one day more. */
  lemma NextDayIsOneMore(d: Date)
    requires Valid(d)
    ensures Days(Next(d)) == Days(d) + 1
  {
    if YearOf(Next(d)) == YearOf(d) {
      NextWithinYear(d);
    } else {
      NextIsMarch(d);
    }
  }

  function Later(d: Date, n: nat): (later: Date)
    requires Valid(d)
    ensures Valid(later)
  {
    if n == 0 then d else Next(Later(d, n - 1))
  }

  /** So the count is exact between any two dates. */
  lemma {:induction false} DaysBetween(d: Date, n: nat)
    requires Valid(d)
    ensures Days(Later(d, n)) == Days(d) + n
    decreases n
  {
    if n > 0 {
      DaysBetween(d, n - 1);
      NextDayIsOneMore(Later(d, n - 1));
    }
  }

  predicate Before(a: Date, b: Date) {
    a.year < b.year || (a.year == b.year && (a.month < b.month || (a.month == b.month && a.day < b.day)))
  }

  /** Any date is reached from any earlier one day by day. */
  lemma {:induction false} Reached(a: Date, b: Date, years: nat)
    requires Valid(a) && Valid(b) && Before(a, b) && b.year - a.year == years
    ensures exists n: nat :: n > 0 && Later(a, n) == b
    decreases years, 12 - a.month, 31 - a.day
  {
    var next := Next(a);
    if next == b {
      assert Later(a, 1) == b by {
        assert Later(a, 0) == a;
      }
    } else {
      NothingBetween(a, b);
      Reached(next, b, b.year - next.year);
      var n: nat :| n > 0 && Later(next, n) == b;
      LaterNext(a, n);
      assert Later(a, n + 1) == b;
    }
  }

  lemma NothingBetween(a: Date, b: Date)
    requires Valid(a) && Valid(b) && Before(a, b) && Next(a) != b
    ensures Before(Next(a), b)
  {
  }

  lemma {:induction false} LaterNext(a: Date, n: nat)
    requires Valid(a)
    ensures Later(a, n + 1) == Later(Next(a), n)
    decreases n
  {
    if n > 0 {
      LaterNext(a, n - 1);
    }
  }

  /** Later dates have more days, and different dates different ones. */
  lemma DaysAscend(a: Date, b: Date)
    requires Valid(a) && Valid(b)
    ensures Before(a, b) <==> Days(a) < Days(b)
  {
    if Before(a, b) {
      Reached(a, b, b.year - a.year);
      var n: nat :| n > 0 && Later(a, n) == b;
      DaysBetween(a, n);
    } else if Before(b, a) {
      Reached(b, a, a.year - b.year);
      var n: nat :| n > 0 && Later(b, n) == a;
      DaysBetween(b, n);
    }
  }
}
