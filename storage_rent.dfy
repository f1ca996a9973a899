/** The month-by-month rent schedule of a leased storage unit: for every month
    of a reporting window, whether the unit was vacant, what rent was due and
    on which date. */
module StorageRent {
  import opened Calendar
  import opened Money

  datatype Option<T> = None | Some(value: T)

  /** The lease: base rent in cents, start date, rent-due day of the month,
      escalation cadence in months (0 = never) and the signed rate of change. */
  datatype LeaseTerms = LeaseTerms(
    baseMonthlyRent: int,
    leaseStartDate: Date,
    dayOfMonthRentDue: int,
    rentRateChangeFrequency: int,
    rentChangeRate: real)

  /** The reporting window; only the months of its two dates are consulted. */
  datatype ReportingWindow = ReportingWindow(windowStartDate: Date, windowEndDate: Date)

  datatype MonthlyRentRecord = MonthlyRentRecord(vacancy: bool, rentAmount: int, rentDueDate: Date)

  /** Every date passed in is a date of the calendar. */
  predicate WellFormed(terms: LeaseTerms, window: ReportingWindow) {
    ValidDate(terms.leaseStartDate) && ValidDate(window.windowStartDate) && ValidDate(window.windowEndDate)
  }

  /** A month before the lease-start month is vacant. */
  predicate IsVacancy(currentMonth: int, leaseStartMonth: int)
    ensures IsVacancy(currentMonth, leaseStartMonth) ==> currentMonth != leaseStartMonth
  {
    leaseStartMonth > currentMonth
  }

  /** Rent may rise only while the unit is occupied and fall only while it is vacant. */
  predicate IsAllowedToUpdateRent(vacancy: bool, rentChangeRate: real)
    ensures IsAllowedToUpdateRent(vacancy, rentChangeRate) <==>
              rentChangeRate != 0.0 && (vacancy <==> rentChangeRate < 0.0)
  {
    (vacancy == false && rentChangeRate > 0.0) || (vacancy == true && rentChangeRate < 0.0)
  }

  /** The quotient JavaScript's `%` is defined by: the exact quotient
      truncated toward zero. */
  function TruncatedQuotient(a: nat, b: int): int
    requires b != 0
  {
    if b > 0 then a / b else -(a / -b)
  }

  /** For a non-negative dividend, Dafny's Euclidean remainder is the remainder
      of truncated division that JavaScript's `%` computes, for every non-zero
      divisor, negative ones included. */
  lemma TruncatedRemainderAgrees(a: nat, b: int)
    requires b != 0
    ensures a - b * TruncatedQuotient(a, b) == a % b
  {
  }

  /** The source computes `incrementMonths % frequency === 0`. With a frequency
      of 0 the remainder is NaN, so the test never holds; otherwise it holds
      exactly when JavaScript's remainder is 0. */
  predicate ShouldUpdateRent(incrementMonths: nat, rentRateChangeFrequency: int)
    ensures ShouldUpdateRent(incrementMonths, rentRateChangeFrequency) <==>
              rentRateChangeFrequency != 0 &&
              incrementMonths - rentRateChangeFrequency * TruncatedQuotient(incrementMonths, rentRateChangeFrequency) == 0
  {
    if rentRateChangeFrequency == 0 then
      false
    else
      TruncatedRemainderAgrees(incrementMonths, rentRateChangeFrequency);
      incrementMonths % rentRateChangeFrequency == 0
  }

  /** The rent of the month `index`, given the rent carried from the month before. */
  function StepMonthlyRent(
    index: int,
    windowStartMonth: int,
    incrementMonths: nat,
    rentRateChangeFrequency: int,
    vacancy: bool,
    rentChangeRate: real,
    montlyRent: int): (r: int)
    ensures index == windowStartMonth ==> r == montlyRent
    ensures r != montlyRent ==>
              ShouldUpdateRent(incrementMonths, rentRateChangeFrequency) &&
              IsAllowedToUpdateRent(vacancy, rentChangeRate)
    ensures montlyRent >= 0 && !vacancy ==> r >= montlyRent
    ensures montlyRent >= 0 && rentChangeRate >= -1.0 ==> r >= 0
    ensures montlyRent >= 0 && vacancy && rentChangeRate >= -1.0 ==> r <= montlyRent
  {
    if index != windowStartMonth
       && ShouldUpdateRent(incrementMonths, rentRateChangeFrequency)
       && IsAllowedToUpdateRent(vacancy, rentChangeRate)
    then
      var x := CalculateNewMonthlyRent(montlyRent, rentChangeRate);
      if montlyRent >= 0 && !vacancy then
        Round2Monotone(montlyRent as real, x);
        Round2OfWholeCents(montlyRent);
        Round2(x)
      else if montlyRent >= 0 && rentChangeRate >= -1.0 then
        Round2Between(0, x, montlyRent);
        Round2(x)
      else
        Round2(x)
    else
      montlyRent
  }

  /** The due date recorded for the month `index`: the lease-start date itself
      in the lease-start month, the clamped rent-due day otherwise. */
  function DueDateFor(terms: LeaseTerms, index: int): (d: Date)
    requires 0 <= index < 12
    requires 1 <= terms.dayOfMonthRentDue
    ensures d.month0 == index
    ensures index == terms.leaseStartDate.month0 ==> d == terms.leaseStartDate
    ensures index != terms.leaseStartDate.month0 ==>
              && d.year == ConstructorYear(terms.leaseStartDate.year)
              && ValidDate(d)
              && d.day == if terms.dayOfMonthRentDue > DaysInMonth(d.year, index)
                          then DaysInMonth(d.year, index) else terms.dayOfMonthRentDue
  {
    if index != terms.leaseStartDate.month0 then
      GetDueDate(terms.leaseStartDate.year, index, terms.dayOfMonthRentDue)
    else
      terms.leaseStartDate
  }

  /** The record of the month `index`: its vacancy, its rent (one step from
      the rent carried into it, with the month counter at `incrementMonths`)
      and its due date. */
  function MonthRecord(
    terms: LeaseTerms,
    windowStartMonth: int,
    index: int,
    incrementMonths: nat,
    rent: int): (record: MonthlyRentRecord)
    requires 0 <= index < 12
    requires 1 <= terms.dayOfMonthRentDue
    ensures record.vacancy <==> index < terms.leaseStartDate.month0
    ensures record.rentDueDate.month0 == index
  {
    var vacancy := IsVacancy(index, terms.leaseStartDate.month0);
    MonthlyRentRecord(
      vacancy,
      StepMonthlyRent(index, windowStartMonth, incrementMonths, terms.rentRateChangeFrequency,
                      vacancy, terms.rentChangeRate, rent),
      DueDateFor(terms, index))
  }

  /** The records of the months `index` .. `windowEndMonth`, given the rent
      carried into month `index` and the number of months already iterated. */
  function RecordsFrom(
    terms: LeaseTerms,
    windowStartMonth: int,
    windowEndMonth: int,
    index: int,
    rent: int,
    incrementMonths: nat): (rs: seq<MonthlyRentRecord>)
    requires 0 <= index && windowEndMonth < 12
    requires 1 <= terms.dayOfMonthRentDue
    ensures |rs| == if index <= windowEndMonth then windowEndMonth - index + 1 else 0
    decreases windowEndMonth - index + 1
  {
    if index > windowEndMonth then
      []
    else
      var record := MonthRecord(terms, windowStartMonth, index, incrementMonths + 1, rent);
      [record] + RecordsFrom(terms, windowStartMonth, windowEndMonth, index + 1, record.rentAmount, incrementMonths + 1)
  }

  /** What the calculation returns: no result when the rent-due day differs
      from the lease-start day and the window holds a month, otherwise one
      record per month of the window. */
  function MonthlyRentSchedule(terms: LeaseTerms, window: ReportingWindow): (r: Option<seq<MonthlyRentRecord>>)
    requires WellFormed(terms, window)
    ensures r.None? <==>
              window.windowStartDate.month0 <= window.windowEndDate.month0 &&
              terms.dayOfMonthRentDue != terms.leaseStartDate.day
    ensures r.Some? ==>
              |r.value| == if window.windowStartDate.month0 <= window.windowEndDate.month0
                           then window.windowEndDate.month0 - window.windowStartDate.month0 + 1
                           else 0
  {
    var windowStartMonth := window.windowStartDate.month0;
    var windowEndMonth := window.windowEndDate.month0;
    if windowStartMonth > windowEndMonth then
      Some([])
    else if terms.dayOfMonthRentDue != terms.leaseStartDate.day then
      None
    else
      Some(RecordsFrom(terms, windowStartMonth, windowEndMonth, windowStartMonth, terms.baseMonthlyRent, 0))
  }

  /** The calculation as the source performs it: a loop over the month
      indices of the window that pushes one record per month and returns
      early from the first iteration when the rent-due day is not the
      lease-start day. */
  method CalculateMonthlyRent(terms: LeaseTerms, window: ReportingWindow)
    returns (result: Option<seq<MonthlyRentRecord>>)
    requires WellFormed(terms, window)
    ensures result == MonthlyRentSchedule(terms, window)
  {
    var monthlyRentRecords: seq<MonthlyRentRecord> := [];
    var montlyRent := terms.baseMonthlyRent;
    var incrementMonths: nat := 0;

    var leaseYear := terms.leaseStartDate.year;
    var leaseStartMonth := terms.leaseStartDate.month0;
    var leaseStartDay := terms.leaseStartDate.day;

    var windowStartMonth := window.windowStartDate.month0;
    var windowEndMonth := window.windowEndDate.month0;

    // The records the loop is to produce, when it produces any.
    ghost var schedule := if terms.dayOfMonthRentDue == leaseStartDay
      then RecordsFrom(terms, windowStartMonth, windowEndMonth, windowStartMonth, terms.baseMonthlyRent, 0)
      else [];
    var index := windowStartMonth;
    while index <= windowEndMonth
      invariant windowStartMonth <= index
      invariant index != windowStartMonth ==> index <= windowEndMonth + 1
      invariant incrementMonths == index - windowStartMonth
      invariant index == windowStartMonth ==> monthlyRentRecords == [] && montlyRent == terms.baseMonthlyRent
      invariant index != windowStartMonth ==> terms.dayOfMonthRentDue == leaseStartDay
      invariant index != windowStartMonth ==> |schedule| == windowEndMonth - windowStartMonth + 1
      invariant index != windowStartMonth ==>
                  && monthlyRentRecords == schedule[..index - windowStartMonth]
                  && montlyRent == schedule[index - windowStartMonth - 1].rentAmount
      decreases windowEndMonth - index
    {
      var vacancy := IsVacancy(index, leaseStartMonth);
      var dueDate := terms.leaseStartDate;
      incrementMonths := incrementMonths + 1;

      if terms.dayOfMonthRentDue > leaseStartDay {
        return None;
      }

      if terms.dayOfMonthRentDue == leaseStartDay {
        ghost var carried := montlyRent;
        if index != leaseStartMonth {
          dueDate := GetDueDate(leaseYear, index, terms.dayOfMonthRentDue);
        }

        montlyRent := StepMonthlyRent(
          index,
          windowStartMonth,
          incrementMonths,
          terms.rentRateChangeFrequency,
          vacancy,
          terms.rentChangeRate,
          montlyRent);

        var record := MonthlyRentRecord(vacancy, montlyRent, dueDate);
        assert record == MonthRecord(terms, windowStartMonth, index, incrementMonths, carried);
        SchedulePrefixStep(terms, windowStartMonth, windowEndMonth, index - windowStartMonth, carried);
        monthlyRentRecords := monthlyRentRecords + [record];
      }

      if terms.dayOfMonthRentDue < leaseStartDay {
        return None;
      }
      index := index + 1;
    }

    assert index != windowStartMonth ==> schedule[..index - windowStartMonth] == schedule;
    return Some(monthlyRentRecords);
  }

  /** One turn of the loop: the prefix of the schedule built so far, extended
      by the record of the next month, is one record longer. */
  lemma SchedulePrefixStep(terms: LeaseTerms, windowStartMonth: int, windowEndMonth: int, done: nat, carried: int)
    requires 0 <= windowStartMonth && windowStartMonth + done <= windowEndMonth < 12
    requires 1 <= terms.dayOfMonthRentDue
    requires done == 0 ==> carried == terms.baseMonthlyRent
    requires done > 0 ==> carried == RecordsFrom(terms, windowStartMonth, windowEndMonth, windowStartMonth,
                                                 terms.baseMonthlyRent, 0)[done - 1].rentAmount
    ensures var schedule := RecordsFrom(terms, windowStartMonth, windowEndMonth, windowStartMonth,
                                        terms.baseMonthlyRent, 0);
            && schedule[done] == MonthRecord(terms, windowStartMonth, windowStartMonth + done, done + 1, carried)
            && schedule[..done] + [schedule[done]] == schedule[..done + 1]
  {
    RecordsFromAt(terms, windowStartMonth, windowEndMonth, windowStartMonth, terms.baseMonthlyRent, 0, done);
  }

  // ---------------------------------------------------------------------------
  // Properties of the schedule

  /** Record `j` of `RecordsFrom` is the record of month `index + j`, one
      step from the rent of the record before it. */
  lemma {:induction false} RecordsFromAt(
    terms: LeaseTerms, windowStartMonth: int, windowEndMonth: int,
    index: int, rent: int, incrementMonths: nat, j: nat)
    requires 0 <= index && windowEndMonth < 12
    requires 1 <= terms.dayOfMonthRentDue
    requires index + j <= windowEndMonth
    ensures var rs := RecordsFrom(terms, windowStartMonth, windowEndMonth, index, rent, incrementMonths);
            rs[j] == MonthRecord(terms, windowStartMonth, index + j, incrementMonths + j + 1,
                                 if j == 0 then rent else rs[j - 1].rentAmount)
    decreases j
  {
    var rs := RecordsFrom(terms, windowStartMonth, windowEndMonth, index, rent, incrementMonths);
    var first := MonthRecord(terms, windowStartMonth, index, incrementMonths + 1, rent);
    var tail := RecordsFrom(terms, windowStartMonth, windowEndMonth, index + 1, first.rentAmount, incrementMonths + 1);
    assert rs == [first] + tail;
    if j == 0 {
      assert rs[0] == first;
    } else {
      RecordsFromAt(terms, windowStartMonth, windowEndMonth, index + 1, first.rentAmount, incrementMonths + 1, j - 1);
      assert rs[j] == tail[j - 1];
      if j == 1 {
        assert rs[0] == first;
      } else {
        assert rs[j - 1] == tail[j - 2];
      }
    }
  }

  /** The records of a produced schedule, with the facts used by the lemmas below. */
  lemma ScheduleRecordAt(terms: LeaseTerms, window: ReportingWindow, j: nat)
    requires WellFormed(terms, window)
    requires MonthlyRentSchedule(terms, window).Some?
    requires j < |MonthlyRentSchedule(terms, window).value|
    ensures var rs := MonthlyRentSchedule(terms, window).value;
            var ws := window.windowStartDate.month0;
            && terms.dayOfMonthRentDue == terms.leaseStartDate.day
            && ws + j <= window.windowEndDate.month0
            && rs[j].vacancy == IsVacancy(ws + j, terms.leaseStartDate.month0)
            && rs[j].rentDueDate == DueDateFor(terms, ws + j)
            && rs[j].rentAmount == StepMonthlyRent(
                 ws + j, ws, j + 1, terms.rentRateChangeFrequency, rs[j].vacancy,
                 terms.rentChangeRate, if j == 0 then terms.baseMonthlyRent else rs[j - 1].rentAmount)
  {
    var ws := window.windowStartDate.month0;
    RecordsFromAt(terms, ws, window.windowEndDate.month0, ws, terms.baseMonthlyRent, 0, j);
  }

  /** A month is vacant exactly when it comes before the lease-start month. */
  lemma ScheduleVacancy(terms: LeaseTerms, window: ReportingWindow, j: nat)
    requires WellFormed(terms, window)
    requires MonthlyRentSchedule(terms, window).Some?
    requires j < |MonthlyRentSchedule(terms, window).value|
    ensures MonthlyRentSchedule(terms, window).value[j].vacancy <==>
              terms.leaseStartDate.month0 > window.windowStartDate.month0 + j
  {
    ScheduleRecordAt(terms, window, j);
  }

  /** Record `j` falls due in month `windowStartMonth + j`. In the
      lease-start month it falls due on the lease-start date; in every other
      month on the rent-due day, or on the last day of a month too short for
      it, of the year the `Date` constructor makes of the lease year. Each due
      date is a calendar date, and the records run through the months in
      order. */
  lemma ScheduleDueDate(terms: LeaseTerms, window: ReportingWindow, j: nat)
    requires WellFormed(terms, window)
    requires MonthlyRentSchedule(terms, window).Some?
    requires j < |MonthlyRentSchedule(terms, window).value|
    ensures var d := MonthlyRentSchedule(terms, window).value[j].rentDueDate;
            var year := ConstructorYear(terms.leaseStartDate.year);
            var month := window.windowStartDate.month0 + j;
            var due := terms.dayOfMonthRentDue;
            && month < 12
            && d.month0 == month
            && ValidDate(d)
            && (month == terms.leaseStartDate.month0 ==> d == terms.leaseStartDate)
            && (month != terms.leaseStartDate.month0 ==>
                  d == Date(year, month, if due > DaysInMonth(year, month) then DaysInMonth(year, month) else due))
  {
    ScheduleRecordAt(terms, window, j);
  }

  /** The first month of the window keeps the base rent. */
  lemma ScheduleFirstRent(terms: LeaseTerms, window: ReportingWindow)
    requires WellFormed(terms, window)
    requires MonthlyRentSchedule(terms, window).Some?
    requires |MonthlyRentSchedule(terms, window).value| > 0
    ensures MonthlyRentSchedule(terms, window).value[0].rentAmount == terms.baseMonthlyRent
  {
  }

  /** From the second month on, the rent is the previous month's rent, changed
      by the rate and rounded to whole cents exactly when the month counter is
      a multiple of the frequency and the change is permitted in the month's
      vacancy state. */
  lemma ScheduleRentStep(terms: LeaseTerms, window: ReportingWindow, j: nat)
    requires WellFormed(terms, window)
    requires MonthlyRentSchedule(terms, window).Some?
    requires 0 < j < |MonthlyRentSchedule(terms, window).value|
    ensures var rs := MonthlyRentSchedule(terms, window).value;
            rs[j].rentAmount ==
              if ShouldUpdateRent(j + 1, terms.rentRateChangeFrequency)
                 && IsAllowedToUpdateRent(rs[j].vacancy, terms.rentChangeRate)
              then Round2(CalculateNewMonthlyRent(rs[j - 1].rentAmount, terms.rentChangeRate))
              else rs[j - 1].rentAmount
  {
    ScheduleRecordAt(terms, window, j);
  }

  /** The rent changes only in a month whose counter is a multiple of the
      frequency; with frequency 0 it never changes. */
  lemma RentChangesOnlyOnCadence(terms: LeaseTerms, window: ReportingWindow, j: nat)
    requires WellFormed(terms, window)
    requires MonthlyRentSchedule(terms, window).Some?
    requires 0 < j < |MonthlyRentSchedule(terms, window).value|
    requires MonthlyRentSchedule(terms, window).value[j].rentAmount
             != MonthlyRentSchedule(terms, window).value[j - 1].rentAmount
    ensures terms.rentRateChangeFrequency != 0
    ensures (j + 1) % terms.rentRateChangeFrequency == 0
  {
    ScheduleRentStep(terms, window, j);
  }

  /** With frequency 0 every month keeps the base rent. */
  lemma {:induction false} FrequencyZeroKeepsBaseRent(terms: LeaseTerms, window: ReportingWindow, j: nat)
    requires WellFormed(terms, window)
    requires terms.rentRateChangeFrequency == 0
    requires MonthlyRentSchedule(terms, window).Some?
    requires j < |MonthlyRentSchedule(terms, window).value|
    ensures MonthlyRentSchedule(terms, window).value[j].rentAmount == terms.baseMonthlyRent
  {
    if j == 0 {
      ScheduleFirstRent(terms, window);
    } else {
      FrequencyZeroKeepsBaseRent(terms, window, j - 1);
      ScheduleRentStep(terms, window, j);
    }
  }

  /** A non-negative base rent stays non-negative when no rate takes away more
      than the whole rent. */
  lemma {:induction false} RentNonNegative(terms: LeaseTerms, window: ReportingWindow, j: nat)
    requires WellFormed(terms, window)
    requires terms.baseMonthlyRent >= 0 && terms.rentChangeRate >= -1.0
    requires MonthlyRentSchedule(terms, window).Some?
    requires j < |MonthlyRentSchedule(terms, window).value|
    ensures MonthlyRentSchedule(terms, window).value[j].rentAmount >= 0
  {
    ScheduleRecordAt(terms, window, j);
    if j > 0 {
      RentNonNegative(terms, window, j - 1);
    }
  }

  /** Rent never falls while the unit is occupied. No bound on the rate is
      needed: an occupied month changes the rent only for a positive rate, and
      then no earlier month can have lowered it below zero. */
  lemma RentNeverFallsWhileOccupied(terms: LeaseTerms, window: ReportingWindow, j: nat)
    requires WellFormed(terms, window)
    requires terms.baseMonthlyRent >= 0
    requires MonthlyRentSchedule(terms, window).Some?
    requires 0 < j < |MonthlyRentSchedule(terms, window).value|
    requires !MonthlyRentSchedule(terms, window).value[j].vacancy
    ensures MonthlyRentSchedule(terms, window).value[j].rentAmount
            >= MonthlyRentSchedule(terms, window).value[j - 1].rentAmount
  {
    ScheduleRecordAt(terms, window, j);
    if terms.rentChangeRate > 0.0 {
      RentNonNegative(terms, window, j - 1);
    }
  }

  /** Rent never rises while the unit is vacant, when no rate takes away more
      than the whole rent. */
  lemma RentNeverRisesWhileVacant(terms: LeaseTerms, window: ReportingWindow, j: nat)
    requires WellFormed(terms, window)
    requires terms.baseMonthlyRent >= 0 && terms.rentChangeRate >= -1.0
    requires MonthlyRentSchedule(terms, window).Some?
    requires 0 < j < |MonthlyRentSchedule(terms, window).value|
    requires MonthlyRentSchedule(terms, window).value[j].vacancy
    ensures MonthlyRentSchedule(terms, window).value[j].rentAmount
            <= MonthlyRentSchedule(terms, window).value[j - 1].rentAmount
  {
    ScheduleRecordAt(terms, window, j);
    RentNonNegative(terms, window, j - 1);
  }

  /** The vacant months form a prefix of the schedule: once the unit is
      occupied it stays occupied for the rest of the window. */
  lemma OccupancyPersists(terms: LeaseTerms, window: ReportingWindow, j: nat, k: nat)
    requires WellFormed(terms, window)
    requires MonthlyRentSchedule(terms, window).Some?
    requires j <= k < |MonthlyRentSchedule(terms, window).value|
    requires !MonthlyRentSchedule(terms, window).value[j].vacancy
    ensures !MonthlyRentSchedule(terms, window).value[k].vacancy
  {
    ScheduleVacancy(terms, window, j);
    ScheduleVacancy(terms, window, k);
  }

  /** `n` successive escalations of `rent`, each rounded to whole cents. */
  function Compound(rent: int, rentChangeRate: real, n: nat): int {
    if n == 0 then rent else Round2(CalculateNewMonthlyRent(Compound(rent, rentChangeRate, n - 1), rentChangeRate))
  }

  /** With a monthly cadence, an increasing rate and a lease that started by
      the first month of the window, the rent of month `j` is the base rent
      escalated `j` times, each escalation rounded before the next. */
  lemma {:induction false} ScheduleCompoundsMonthly(terms: LeaseTerms, window: ReportingWindow, j: nat)
    requires WellFormed(terms, window)
    requires terms.rentRateChangeFrequency == 1 && terms.rentChangeRate > 0.0
    requires terms.leaseStartDate.month0 <= window.windowStartDate.month0
    requires MonthlyRentSchedule(terms, window).Some?
    requires j < |MonthlyRentSchedule(terms, window).value|
    ensures MonthlyRentSchedule(terms, window).value[j].rentAmount
            == Compound(terms.baseMonthlyRent, terms.rentChangeRate, j)
  {
    ScheduleRecordAt(terms, window, j);
    if j > 0 {
      ScheduleCompoundsMonthly(terms, window, j - 1);
    }
  }
}
