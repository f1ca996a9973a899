/** The schedules of five concrete leases over the first quarter of 2023, one
    over the first quarter of the two-digit year 24, and the cases in which no
    schedule or an empty one is produced. Amounts are in cents; months are
    zero-based. */
module StorageRentScenarios {
  import opened Calendar
  import opened StorageRent

  const FirstQuarter := ReportingWindow(Date(2023, 0, 1), Date(2023, 2, 31))

  /** Occupied from January 1, due on the 1st, 10% more every month. */
  lemma OccupiedIncreasingMonthly()
    ensures MonthlyRentSchedule(LeaseTerms(10000, Date(2023, 0, 1), 1, 1, 0.1), FirstQuarter)
            == Some([MonthlyRentRecord(false, 10000, Date(2023, 0, 1)),
                     MonthlyRentRecord(false, 11000, Date(2023, 1, 1)),
                     MonthlyRentRecord(false, 12100, Date(2023, 2, 1))])
  {
    var terms := LeaseTerms(10000, Date(2023, 0, 1), 1, 1, 0.1);
    var rs := MonthlyRentSchedule(terms, FirstQuarter).value;
    ScheduleRecordAt(terms, FirstQuarter, 0);
    ScheduleRecordAt(terms, FirstQuarter, 1);
    ScheduleRecordAt(terms, FirstQuarter, 2);
    assert rs[0] == MonthlyRentRecord(false, 10000, Date(2023, 0, 1));
    assert rs[1] == MonthlyRentRecord(false, 11000, Date(2023, 1, 1));
    assert rs[2] == MonthlyRentRecord(false, 12100, Date(2023, 2, 1));
    assert rs == [rs[0], rs[1], rs[2]];
  }

  /** Vacant in January, due on the 15th, frequency 0: the rent never changes. */
  lemma VacantThenOccupiedWithoutChange()
    ensures MonthlyRentSchedule(LeaseTerms(10000, Date(2023, 1, 15), 15, 0, 0.0), FirstQuarter)
            == Some([MonthlyRentRecord(true, 10000, Date(2023, 0, 15)),
                     MonthlyRentRecord(false, 10000, Date(2023, 1, 15)),
                     MonthlyRentRecord(false, 10000, Date(2023, 2, 15))])
  {
    var terms := LeaseTerms(10000, Date(2023, 1, 15), 15, 0, 0.0);
    var rs := MonthlyRentSchedule(terms, FirstQuarter).value;
    ScheduleRecordAt(terms, FirstQuarter, 0);
    ScheduleRecordAt(terms, FirstQuarter, 1);
    ScheduleRecordAt(terms, FirstQuarter, 2);
    assert rs == [rs[0], rs[1], rs[2]];
  }

  /** Vacant until March, 10% less every month: the rent falls while vacant
      and stays once the lease has started. */
  lemma VacantDecreasingMonthly()
    ensures MonthlyRentSchedule(LeaseTerms(10000, Date(2023, 2, 15), 15, 1, -0.1), FirstQuarter)
            == Some([MonthlyRentRecord(true, 10000, Date(2023, 0, 15)),
                     MonthlyRentRecord(true, 9000, Date(2023, 1, 15)),
                     MonthlyRentRecord(false, 9000, Date(2023, 2, 15))])
  {
    var terms := LeaseTerms(10000, Date(2023, 2, 15), 15, 1, -0.1);
    var rs := MonthlyRentSchedule(terms, FirstQuarter).value;
    ScheduleRecordAt(terms, FirstQuarter, 0);
    ScheduleRecordAt(terms, FirstQuarter, 1);
    ScheduleRecordAt(terms, FirstQuarter, 2);
    assert rs[1] == MonthlyRentRecord(true, 9000, Date(2023, 1, 15));
    assert rs[2] == MonthlyRentRecord(false, 9000, Date(2023, 2, 15));
    assert rs == [rs[0], rs[1], rs[2]];
  }

  /** Due on the 31st: the February due date is clamped to February 28. */
  lemma DueOnThirtyFirst()
    ensures MonthlyRentSchedule(LeaseTerms(10000, Date(2023, 0, 31), 31, 1, 0.1), FirstQuarter)
            == Some([MonthlyRentRecord(false, 10000, Date(2023, 0, 31)),
                     MonthlyRentRecord(false, 11000, Date(2023, 1, 28)),
                     MonthlyRentRecord(false, 12100, Date(2023, 2, 31))])
  {
    var terms := LeaseTerms(10000, Date(2023, 0, 31), 31, 1, 0.1);
    var rs := MonthlyRentSchedule(terms, FirstQuarter).value;
    ScheduleRecordAt(terms, FirstQuarter, 0);
    ScheduleRecordAt(terms, FirstQuarter, 1);
    ScheduleRecordAt(terms, FirstQuarter, 2);
    assert rs[1] == MonthlyRentRecord(false, 11000, Date(2023, 1, 28));
    assert rs[2] == MonthlyRentRecord(false, 12100, Date(2023, 2, 31));
    assert rs == [rs[0], rs[1], rs[2]];
  }

  /** A rate below −1 can make the rent negative while the unit is vacant:
      with −300% and a lease from December, every month is vacant and the rent
      goes 10000, −20000, 40000. */
  lemma VacantRateBelowMinusOne()
    ensures MonthlyRentSchedule(LeaseTerms(10000, Date(2023, 11, 1), 1, 1, -3.0), FirstQuarter)
            == Some([MonthlyRentRecord(true, 10000, Date(2023, 0, 1)),
                     MonthlyRentRecord(true, -20000, Date(2023, 1, 1)),
                     MonthlyRentRecord(true, 40000, Date(2023, 2, 1))])
  {
    var terms := LeaseTerms(10000, Date(2023, 11, 1), 1, 1, -3.0);
    var rs := MonthlyRentSchedule(terms, FirstQuarter).value;
    ScheduleRecordAt(terms, FirstQuarter, 0);
    ScheduleRecordAt(terms, FirstQuarter, 1);
    ScheduleRecordAt(terms, FirstQuarter, 2);
    assert rs[0] == MonthlyRentRecord(true, 10000, Date(2023, 0, 1));
    assert rs[1] == MonthlyRentRecord(true, -20000, Date(2023, 1, 1));
    assert rs[2] == MonthlyRentRecord(true, 40000, Date(2023, 2, 1));
    assert rs == [rs[0], rs[1], rs[2]];
  }

  /** A lease year from 0 to 99: the lease-start month keeps the lease-start
      date, while the `Date` constructor places every other due date in
      1900 + year, here the leap year 1924. */
  lemma TwoDigitLeaseYear()
    ensures MonthlyRentSchedule(LeaseTerms(10000, Date(24, 0, 31), 31, 0, 0.0),
                                ReportingWindow(Date(24, 0, 1), Date(24, 2, 31)))
            == Some([MonthlyRentRecord(false, 10000, Date(24, 0, 31)),
                     MonthlyRentRecord(false, 10000, Date(1924, 1, 29)),
                     MonthlyRentRecord(false, 10000, Date(1924, 2, 31))])
  {
    var terms := LeaseTerms(10000, Date(24, 0, 31), 31, 0, 0.0);
    var window := ReportingWindow(Date(24, 0, 1), Date(24, 2, 31));
    var rs := MonthlyRentSchedule(terms, window).value;
    ScheduleRecordAt(terms, window, 0);
    ScheduleRecordAt(terms, window, 1);
    ScheduleRecordAt(terms, window, 2);
    assert rs[1] == MonthlyRentRecord(false, 10000, Date(1924, 1, 29));
    assert rs[2] == MonthlyRentRecord(false, 10000, Date(1924, 2, 31));
    assert rs == [rs[0], rs[1], rs[2]];
  }

  /** A rent-due day before or after the lease-start day gives no result; an
      empty window gives an empty schedule whatever the rent-due day. */
  lemma MismatchedDueDayAndEmptyWindow()
    ensures MonthlyRentSchedule(LeaseTerms(10000, Date(2023, 0, 15), 10, 1, 0.1), FirstQuarter) == None
    ensures MonthlyRentSchedule(LeaseTerms(10000, Date(2023, 0, 15), 20, 1, 0.1), FirstQuarter) == None
    ensures MonthlyRentSchedule(LeaseTerms(10000, Date(2023, 0, 15), 10, 1, 0.1),
                                ReportingWindow(Date(2023, 2, 1), Date(2023, 0, 31))) == Some([])
  {
  }
}
