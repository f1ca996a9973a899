/** Calendar dates as the rent schedule sees them: a year, a zero-based month
    (0 = January, as JavaScript's Date.getMonth() numbers them) and a day of
    the month.  Month lengths follow the Gregorian calendar, which is what the
    JavaScript Date object implements. */
module Calendar {

  datatype Date = Date(year: int, month0: int, day: int)

  /** Gregorian leap years: divisible by 4, except centuries that are not
      divisible by 400. */
  predicate IsLeapYear(year: int) {
    year % 4 == 0 && (year % 100 != 0 || year % 400 == 0)
  }

  /** The number of days of the zero-based month `month0` of `year`: the value
      that `new Date(year, month0 + 1, 0).getDate()` yields (day 0 of the next
      month is the last day of this one) for the year the constructor makes of
      its first argument (see `ConstructorYear`). */
  function DaysInMonth(year: int, month0: int): (d: int)
    requires 0 <= month0 < 12
    ensures 28 <= d <= 31
    ensures d == 28 <==> month0 == 1 && !IsLeapYear(year)
    ensures d == 29 <==> month0 == 1 && IsLeapYear(year)
  {
    if month0 == 1 then
      (if IsLeapYear(year) then 29 else 28)
    else if month0 == 3 || month0 == 5 || month0 == 8 || month0 == 10 then
      30
    else
      31
  }

  /** A date that names an existing calendar day, which every JavaScript Date
      does once constructed (the constructor rolls out-of-range fields over). */
  predicate ValidDate(d: Date) {
    0 <= d.month0 < 12 && 1 <= d.day <= DaysInMonth(d.year, d.month0)
  }

  /** Number of days in the months of `year` before the zero-based month `m`. */
  function DaysBeforeMonth(year: int, m: int): int
    requires 0 <= m <= 12
  {
    if m == 0 then 0 else DaysBeforeMonth(year, m - 1) + DaysInMonth(year, m - 1)
  }

  /** The twelve month lengths add up to the length of the Gregorian year. */
  lemma {:induction false} YearLength(year: int)
    ensures DaysBeforeMonth(year, 12) == if IsLeapYear(year) then 366 else 365
  {
    assert DaysBeforeMonth(year, 1) == 31;
    assert DaysBeforeMonth(year, 2) == if IsLeapYear(year) then 60 else 59;
    assert DaysBeforeMonth(year, 3) == DaysBeforeMonth(year, 2) + 31;
    assert DaysBeforeMonth(year, 4) == DaysBeforeMonth(year, 3) + 30;
    assert DaysBeforeMonth(year, 5) == DaysBeforeMonth(year, 4) + 31;
    assert DaysBeforeMonth(year, 6) == DaysBeforeMonth(year, 5) + 30;
    assert DaysBeforeMonth(year, 7) == DaysBeforeMonth(year, 6) + 31;
    assert DaysBeforeMonth(year, 8) == DaysBeforeMonth(year, 7) + 31;
    assert DaysBeforeMonth(year, 9) == DaysBeforeMonth(year, 8) + 30;
    assert DaysBeforeMonth(year, 10) == DaysBeforeMonth(year, 9) + 31;
    assert DaysBeforeMonth(year, 11) == DaysBeforeMonth(year, 10) + 30;
  }

  /** Centennial years are leap years only when divisible by 400. */
  lemma LeapYearExamples()
    ensures IsLeapYear(2000) && IsLeapYear(2024)
    ensures !IsLeapYear(1900) && !IsLeapYear(2100) && !IsLeapYear(2023)
    ensures DaysInMonth(2000, 1) == 29 && DaysInMonth(1900, 1) == 28
  {
  }

  /** The year the `Date` constructor means by its first argument: a year from
      0 to 99 is read as 1900 + year, every other year as itself. A date the
      constructor builds therefore never has a two-digit year. */
  function ConstructorYear(year: int): (y: int)
    ensures !(0 <= y <= 99)
  {
    if 0 <= year <= 99 then 1900 + year else year
  }

  /** A year read back from a constructed date is kept as it is: only a year
      from 0 to 99, which no constructed date has, is shifted. */
  lemma ConstructorYearStable(year: int)
    ensures ConstructorYear(ConstructorYear(year)) == ConstructorYear(year)
  {
  }

  /** `getDays(year, month)`: the last day of the month before the zero-based
      month `month`, that is `new Date(year, month, 0).getDate()`. The source
      passes `index + 1`, so `month` runs from 1 to 12 (12 being January of
      the next year, whose day 0 is December 31). */
  function GetDays(year: int, month: int): (d: int)
    requires 1 <= month <= 12
    ensures 28 <= d <= 31
    ensures d >= 30 <==> month != 2
    ensures month == 2 ==> (d == 29 <==> IsLeapYear(ConstructorYear(year)))
  {
    DaysInMonth(ConstructorYear(year), month - 1)
  }

  /** The due date of the zero-based month `index` of `leaseYear`: the rent-due
      day, clamped to the last day of a month that is too short for it. The
      year is the one the `Date` constructor makes of `leaseYear`. */
  function GetDueDate(leaseYear: int, index: int, dayOfMonthRentDue: int): (d: Date)
    requires 0 <= index < 12
    requires 1 <= dayOfMonthRentDue
    ensures d.year == ConstructorYear(leaseYear) && d.month0 == index
    ensures ValidDate(d)
    ensures dayOfMonthRentDue <= DaysInMonth(d.year, index) ==> d.day == dayOfMonthRentDue
    ensures dayOfMonthRentDue > DaysInMonth(d.year, index) ==> d.day == DaysInMonth(d.year, index)
  {
    var daysInCurrentMonth := GetDays(leaseYear, index + 1);
    var newDateDay := if dayOfMonthRentDue > daysInCurrentMonth then daysInCurrentMonth else dayOfMonthRentDue;
    Date(ConstructorYear(leaseYear), index, newDateDay)
  }
}
