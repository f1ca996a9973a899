# Storage unit rent schedule

A model of `calculateMonthlyRent` and its helpers in `src/StorageRent/StorageRent.ts`. The function takes a lease and a reporting window and builds a month-by-month rent schedule. Each record holds three things:

- **Vacancy:** whether the unit was vacant that month (vacant means before the lease-start month).
- **Rent:** the rent due. It escalates or de-escalates on a cadence and is rounded to whole cents at each change.
- **Due date:** the rent-due day, clamped to the last day of a month that is too short for it.

The project has four modules:

- `Calendar` (`calendar.dfy`): dates, Gregorian month lengths, and the due-date rule (`getDays`, `getDueDate`).
- `Money` (`money.dfy`): the new-rent product (`calculateNewMonthlyRent`) and the rounding `parseFloat(x.toFixed(2))`.
- `StorageRent` (`storage_rent.dfy`): the vacancy, permission and cadence policies, the per-month rent step (`calculateMontlyRent`), the schedule as a pure fold (`MonthlyRentSchedule`), the loop as the source writes it (method `CalculateMonthlyRent`), and the lemmas about the schedule.
- `StorageRentScenarios` (`scenarios.dfy`): the four schedules the repository's tests expect, a schedule whose rent turns negative under a rate below −1, a schedule for the two-digit lease year 24, and the no-result and empty-window cases.

Modelling decisions:

- **Dates** are `Date(year, month0, day)`. Months are zero-based, as `Date.getMonth()` numbers them. Every input date is a valid calendar date, since a constructed JavaScript `Date` always is.
- **Month length** follows the full Gregorian leap-year rule (divisible by 4, and not by 100 unless by 400). That is the month length `new Date(year, month + 1, 0).getDate()` yields for the year the constructor makes of its first argument.
- **Two-digit years:** the `Date` constructor reads a year from 0 to 99 as 1900 + year. `getDays` and `getDueDate` pass the lease year to the constructor, so for such a lease year every due date outside the lease-start month lies in 1900 + year, with that year's month lengths. `Calendar.ConstructorYear` states the mapping, and `GetDays` and `GetDueDate` apply it. The lease-start month keeps the lease-start date itself.
- **Amounts** are whole cents (`int`). The rate of change is an exact rational (`real`).
- **Rounding:** `toFixed(2)` picks the nearest cent and takes the larger one on a tie, working on the magnitude and adding the sign afterwards. So a tie rounds away from zero. `Round2` states exactly this.
- **Parameters:** the seven parameters are grouped into `LeaseTerms` (base rent, lease-start date, rent-due day, frequency, rate) and `ReportingWindow` (start and end date). Only the months of the window dates are read, as in the source.
- **Frequency 0:** `x % 0` is `NaN` in JavaScript, so the cadence test `incrementMonths % frequency === 0` never holds. `ShouldUpdateRent` is false for frequency 0.
- **Remainder:** the month counter is never negative. For a non-negative dividend, Dafny's Euclidean remainder agrees with JavaScript's truncating one for any non-zero divisor, negative ones included (`TruncatedRemainderAgrees`).
- **Early exit:** the early return is reproduced literally. When the rent-due day differs from the lease-start day and the window holds at least one month, the result is `None` (the source returns `undefined` from the first iteration). An empty window (start month after end month) gives `Some([])`.
- **Imperative core:** the loop is the method `StorageRent.CalculateMonthlyRent`. It keeps the two accumulators (`montlyRent`, `incrementMonths`), pushes onto a sequence and returns early from inside the loop. It is proved equal to the pure fold `MonthlyRentSchedule`, and every property below is proved about that fold.

The model follows the code as written, even where the JSDoc (`@returns Array<MonthlyRentRecord>`, StorageRent.ts:20) or the evident intent would differ:

- The result is "no value" when the days mismatch. No error is raised.
- All months are placed in the lease-start year (as the constructor reads it) and only month indices are used. There is no year-rollover handling.
- The rent is guaranteed non-negative only for a non-negative base rent and a rate of at least −1. The code validates neither, so `RentNonNegative` assumes both. With a rate below −1, a vacant month can make the rent negative: with rate −3.0 and a lease from December it goes 10000, −20000, 40000 (`VacantRateBelowMinusOne`).

## Model

| member | source | states |
|---|---|---|
| `Calendar.DaysInMonth` | src/StorageRent/StorageRent.ts:113-116 | Every month has 28 to 31 days. A month has 28 days exactly when it is February of a common year, and 29 exactly when it is February of a Gregorian leap year. |
| `Calendar.YearLength` | src/StorageRent/StorageRent.ts:113-116 | The twelve month lengths add up to 366 days in a leap year and 365 otherwise. |
| `Calendar.LeapYearExamples` | src/StorageRent/StorageRent.ts:113-116 | 2000 and 2024 are leap years; 1900, 2100 and 2023 are not. February 2000 has 29 days and February 1900 has 28. |
| `Calendar.ConstructorYear` | src/StorageRent/StorageRent.ts:143 | A date the constructor builds never has a year from 0 to 99. |
| `Calendar.ConstructorYearStable` | src/StorageRent/StorageRent.ts:141-143 | Reading a constructed date's year through the constructor again leaves it unchanged, so the 1900 shift affects only a lease-start date whose `getFullYear()` is from 0 to 99. |
| `Calendar.GetDays` | src/StorageRent/StorageRent.ts:113-116 | The last day of the month before `month` has 28 to 31 days. It has fewer than 30 days exactly when that month is February, and 29 exactly when the year as the constructor reads it is a leap year. |
| `Calendar.GetDueDate` | src/StorageRent/StorageRent.ts:140-147 | The due date lies in the given month of the year the constructor makes of the lease year, and is a valid calendar date. Its day is the rent-due day when the month is long enough, and the month's last day otherwise. |
| `Money.CalculateNewMonthlyRent` | src/StorageRent/StorageRent.ts:78-80 | A rate of 0 leaves the rent unchanged. For a non-negative rent, a positive rate does not lower it, and a rate between −1 and 0 keeps it between 0 and the old rent. |
| `Money.Round2` | src/StorageRent/StorageRent.ts:132-134 | The result is within half a cent of the amount, and a tie goes away from zero. |
| `Money.Round2OfWholeCents` | src/StorageRent/StorageRent.ts:132-134 | Rounding an amount that is already whole cents leaves it unchanged. |
| `Money.Round2Monotone` | src/StorageRent/StorageRent.ts:132-134 | Rounding preserves order. |
| `StorageRent.IsVacancy` | src/StorageRent/StorageRent.ts:101-103 | The lease-start month itself is never vacant. That a month is vacant exactly when it comes before the lease-start month is proved for every record by `ScheduleVacancy`. |
| `StorageRent.IsAllowedToUpdateRent` | src/StorageRent/StorageRent.ts:105-107 | A change is permitted exactly when the rate is non-zero and it is negative exactly when the unit is vacant. |
| `StorageRent.TruncatedRemainderAgrees` | src/StorageRent/StorageRent.ts:110 | For a non-negative counter and a non-zero divisor, the remainder of truncated division, which JavaScript's `%` computes, equals Dafny's Euclidean remainder. |
| `StorageRent.ShouldUpdateRent` | src/StorageRent/StorageRent.ts:109-111 | The cadence test holds exactly when the frequency is non-zero and JavaScript's remainder of the month counter by it is 0. A frequency of 0 never fires, since the remainder is `NaN`. |
| `StorageRent.StepMonthlyRent` | src/StorageRent/StorageRent.ts:118-138 | The first month of the window keeps the carried rent. Any change requires both the cadence and the permission test to pass. For a non-negative rent, an occupied month never lowers it; a vacant month with a rate of at least −1 never raises it and never makes it negative. |
| `StorageRent.DueDateFor` | src/StorageRent/StorageRent.ts:37-47 | In the lease-start month the due date is the lease-start date. In every other month it is a valid date in that month of the year the constructor makes of the lease year, on the rent-due day clamped to the month's length. |
| `StorageRent.MonthRecord` | src/StorageRent/StorageRent.ts:36-59 | One iteration's record is vacant exactly when its month comes before the lease-start month, and it falls due in its own month. |
| `StorageRent.RecordsFrom` | src/StorageRent/StorageRent.ts:35-65 | The records from month `index` to the window's end month number exactly one per month. |
| `StorageRent.MonthlyRentSchedule` | src/StorageRent/StorageRent.ts:22-68 | There is no result exactly when the window holds a month and the rent-due day differs from the lease-start day. Otherwise there are `end month − start month + 1` records, or none for an empty window. |
| `StorageRent.CalculateMonthlyRent` | src/StorageRent/StorageRent.ts:22-68 | The loop, with its accumulators and its early returns, returns exactly the schedule `MonthlyRentSchedule`. |
| `StorageRent.RecordsFromAt` | src/StorageRent/StorageRent.ts:35-60 | Record `j` of the fold starting at month `index` is the record of month `index + j`. It is computed from record `j − 1`'s rent (the carried rent for `j = 0`), with the month counter `j + 1` past the starting count. |
| `StorageRent.ScheduleRecordAt` | src/StorageRent/StorageRent.ts:35-60 | Record `j` of a produced schedule is the record of month `windowStartMonth + j`. It lies inside the window, and its rent is one step from the previous record's, with the counter at `j + 1`. |
| `StorageRent.ScheduleVacancy` | src/StorageRent/StorageRent.ts:101-103 | Record `j` is vacant exactly when the lease-start month is after month `windowStartMonth + j`. |
| `StorageRent.ScheduleDueDate` | src/StorageRent/StorageRent.ts:37-47 | Record `j` falls due in month `windowStartMonth + j`, so the records run through the months in increasing order, and it is a valid date. In the lease-start month the due date is the lease-start date itself. In every other month it lies in the year the constructor makes of the lease year, on the rent-due day clamped to the month's length. |
| `StorageRent.ScheduleFirstRent` | src/StorageRent/StorageRent.ts:127-137 | The first record's rent is the base rent. |
| `StorageRent.ScheduleRentStep` | src/StorageRent/StorageRent.ts:49-57 | From the second record on, the rent is the previous record's rent, multiplied by `1 + rate` and rounded to whole cents, exactly when both the cadence and the permission test pass; otherwise it is carried over unchanged. |
| `StorageRent.RentChangesOnlyOnCadence` | src/StorageRent/StorageRent.ts:109-111 | If record `j`'s rent differs from record `j − 1`'s, the frequency is non-zero and divides `j + 1`. |
| `StorageRent.FrequencyZeroKeepsBaseRent` | src/StorageRent/StorageRent.ts:109-111 | With frequency 0, every record's rent is the base rent. |
| `StorageRent.RentNonNegative` | src/StorageRent/StorageRent.ts:128-134 | With a non-negative base rent and a rate of at least −1, no record's rent is negative. |
| `StorageRent.RentNeverFallsWhileOccupied` | src/StorageRent/StorageRent.ts:105-107 | With a non-negative base rent and any rate, an occupied month's rent is at least the previous month's. |
| `StorageRent.RentNeverRisesWhileVacant` | src/StorageRent/StorageRent.ts:105-107 | With a non-negative base rent and a rate of at least −1, a vacant month's rent is at most the previous month's. |
| `StorageRent.OccupancyPersists` | src/StorageRent/StorageRent.ts:101-103 | The vacant records form a prefix of the schedule: once a record is occupied, every later record is too. |
| `StorageRent.ScheduleCompoundsMonthly` | src/StorageRent/StorageRent.ts:49-57 | With a monthly cadence, a positive rate and a lease started by the window's first month, record `j`'s rent is the base rent escalated `j` times, each step rounded before the next. |
| `StorageRentScenarios.OccupiedIncreasingMonthly` | src/test/StorageRent/StorageRent.test.ts:7-39 | Lease from Jan 1, due on the 1st, +10% every month: Jan/Feb/Mar cost 100.00, 110.00, 121.00, all occupied, due on the 1st. |
| `StorageRentScenarios.VacantThenOccupiedWithoutChange` | src/test/StorageRent/StorageRent.test.ts:41-73 | Lease from Feb 15, frequency 0: January is vacant, and every month costs 100.00 and falls due on the 15th. |
| `StorageRentScenarios.VacantDecreasingMonthly` | src/test/StorageRent/StorageRent.test.ts:75-107 | Lease from Mar 15, −10% every month: 100.00 and 90.00 while vacant, then 90.00 once occupied. |
| `StorageRentScenarios.DueOnThirtyFirst` | src/test/StorageRent/StorageRent.test.ts:109-141 | Due on the 31st: the February due date is Feb 28, 2023 and the March one Mar 31; rents are 100.00, 110.00, 121.00. |
| `StorageRentScenarios.VacantRateBelowMinusOne` | src/StorageRent/StorageRent.ts:127-137 | Lease from Dec 1, due on the 1st, −300% every month: all three months are vacant and the rent goes 10000, −20000, 40000 cents, so the rate bound of `RentNonNegative` is needed. |
| `StorageRentScenarios.TwoDigitLeaseYear` | src/StorageRent/StorageRent.ts:140-147 | A lease from Jan 31 of year 24, due on the 31st: January falls due on the lease-start date, February on Feb 29, 1924 and March on Mar 31, 1924. |
| `StorageRentScenarios.MismatchedDueDayAndEmptyWindow` | src/StorageRent/StorageRent.ts:35-67 | A rent-due day before or after the lease-start day gives no result. An empty window gives an empty schedule. |

## Left out

- `src/index.ts` is not part of this model. It is a driver that passes uninitialised variables and holds no logic.
- `calculateProrated` (src/StorageRent/StorageRent.ts:93-99) is left out. It computes a local value, returns nothing, and nothing calls it.
- `isLeapYear` (src/StorageRent/StorageRent.ts:89-91) is left out. It omits the divisible-by-400 rule, but only the dead `calculateProrated` uses it. Month lengths come from `Date`, which applies the full Gregorian rule.
- JavaScript `Date` details are not modelled: time zones, time of day, invalid dates (`NaN` months), object identity of the returned `leaseStartDate`, and the redundant `setMonth`/copy in `getDueDate`. A date is a plain value triple. The constructor's reading of a year from 0 to 99 as 1900 + year is modelled for the dates the calculation constructs (`Calendar.ConstructorYear`); the input dates are taken as the years their `getFullYear()` reports.
- Floating point is not modelled. `Money.Round2` rounds the exact rational amount, whereas `toFixed(2)` rounds the nearest binary double, so amounts such as 1.005 can round differently. `toFixed`'s exponent notation for magnitudes of 10^21 and above is also not modelled.
- A base rent with more than two decimals is not modelled. Amounts are whole cents, while the source keeps an unrounded base rent until the first change.
- A fractional frequency or a fractional rent-due day is not modelled. Both are integers here, while JavaScript's `%` and `===` would also accept fractions.
- Windows that span two years are modelled literally. Only the month indices of the window dates are used, and every generated date is placed in the lease-start year (as the constructor reads it), as the source does.
