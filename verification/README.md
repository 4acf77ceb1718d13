# Gothenburg car tolls, modelled in Dafny

This project models the core of a small toll-fee system for the Gothenburg congestion tax. It has two parts.

The **toll calculator** prices single passages and whole days:
- A passage costs 0, 8, 13 or 18 depending on the vehicle, the date and the time of day.
- Only cars pay.
- Weekends and a fixed list of 2013 holidays (all of July included) are free.
- A day's passages are walked in the order given and grouped into 60-minute windows.
- Each window costs its highest fee. The day costs the sum of those fees, capped at 60.

The **passage registry** (`PassageTollHandler`) stores, for each vehicle, the timestamps of its passages:
- A vehicle is keyed by its license number together with its vehicle type.
- It refuses an empty license number and any type other than Car or Motorbike.
- It refuses a timestamp that the vehicle's list already holds.

Two equality rules decide identity. `VehicleEqualityComparer` keys the registry. `VehiclePassage.Equals` and its `==`/`!=` operators compare passages.

Modules:
- `Common`: option, result and error types.
- `Calendar`: the part of .NET `DateTime` the core reads. It covers the calendar fields, the tick count from 0001-01-01 in the proleptic Gregorian calendar, the date and the day of the week.
- `Vehicles`, `Passages`: the entities and their equality predicates.
- `TollCalculator`: passage fees, the daily loop (`GetDailyTollFee`, an imperative method) and the specification function it is proved against (`DailyTollFee`).
- `DailyWindows`: an independent description of the daily fee. The passages are split into the unique partition into 60-minute windows, and the fee is the capped sum of the windows' maxima.
- `PassageRegistry`: the registry as a class whose map field the registration methods update.
- `TollExamples`, `RegistryScenarios`: the repository's unit-test scenarios, stated as lemmas and methods.

Behaviour that follows the code rather than its description or its tests:
- `GetDailyTollFee` does not sort its input (source/TollFeeCalculator/TollCalculator.cs:28).
  - Passages are windowed in the order given.
  - A passage earlier than the current anchor stays in the current window.
  - The model claims no order independence.
- An exception becomes an `Err` value:
  - timestamps on mixed dates give `ArgumentException("All time stamps must be from the same date.")`;
  - an unsupported vehicle type gives `ArgumentException("Unsupported vehicle type.")`;
  - `AddMinutes(-60)` on a first timestamp in the first hour of 0001-01-01 gives `ArgumentOutOfRangeException`.
- A toll-free vehicle or a toll-free date makes every passage cost 0, so the day costs 0 (`TollCalculator.DailyTollFeeTollFree`).
  - There is no early exit for them: the first timestamp is still moved an hour back.
  - So in the first hour of 0001-01-01 they fail with `ArgumentOutOfRangeException` like any other vehicle.
- The registry keys on (license, type) (source/TollFeeCalculator/Vehicle.cs:26-28, :35).
  - So the same license and timestamp registered as a Car and then as a Motorbike succeed twice (`RegistryScenarios.SameTimestampOtherType`).
  - The unit test at source/TollFeeCalculatorTests/PassageTollHandlerTests.cs:138-151 expects the second registration to fail. That test disagrees with the code; the model follows the code and its comment.

## Model

| member | source | states |
|---|---|---|
| Calendar.DaysInMonth | source/TollFeeCalculator/TollCalculator.cs:95-97 | a month has 28 to 31 days, and 29 exactly in February of a Gregorian leap year |
| Calendar.TimeOfDayTicks | source/TollFeeCalculator/TollCalculator.cs:34 | the time of day in ticks lies in [0, one day) |
| Calendar.Ticks | source/TollFeeCalculator/TollCalculator.cs:34 | `DateTime.Ticks`: the whole days since 0001-01-01 times the ticks in a day, plus the time of day in ticks |
| Calendar.Date | source/TollFeeCalculator/TollCalculator.cs:20 | `DateTime.Date`, compared as the (year, month, day) triple |
| Calendar.DayOfWeekOf | source/TollFeeCalculator/TollCalculator.cs:99 | `DateTime.DayOfWeek`: the day count plus one, modulo 7, with Sunday as 0, because 0001-01-01 was a Monday |
| Calendar.SameDateTicks | source/TollFeeCalculator/TollCalculator.cs:34 | for two instants on the same date, their tick difference is their clock difference in hours, minutes, seconds and sub-second ticks |
| Calendar.DayNumberDeterminesDate | source/TollFeeCalculator/TollCalculator.cs:20 | two valid dates with the same day count are the same calendar date, so comparing `.Date` values is comparing day counts |
| Calendar.TicksDetermineTimestamp | source/TollFeeCalculator/PassageTollHandler.cs:44 | two valid timestamps have equal tick counts exactly when they are equal values, so `DateTime` equality, which compares ticks, is value equality |
| Calendar.EarlierYearEarlierDay | source/TollFeeCalculator/TollCalculator.cs:20 | every day of an earlier year has a smaller day count than every day of a later year |
| Calendar.EarlierMonthEarlierDay | source/TollFeeCalculator/TollCalculator.cs:20 | within one year, every day of an earlier month has a smaller day count than every day of a later month |
| Calendar.DaysBeforeYearStep | source/TollFeeCalculator/TollCalculator.cs:99 | the closed-form count of days before a year grows by that year's length, 366 in a leap year and 365 otherwise |
| Calendar.DayOfYearBounds | source/TollFeeCalculator/TollCalculator.cs:99 | a date's position within its year is below the length of that year |
| Vehicles.VehicleEquals | source/TollFeeCalculator/Vehicle.cs:32-36 | `VehicleEqualityComparer.Equals`: false when either vehicle is null, otherwise license numbers equal and vehicle types equal |
| Vehicles.VehicleEqualsNull | source/TollFeeCalculator/Vehicle.cs:34 | the comparer returns false when either argument is null, including when both are |
| Vehicles.VehicleEqualsIsKeyEquality | source/TollFeeCalculator/Vehicle.cs:35 | on non-null vehicles the comparer holds exactly when license number and vehicle type are both equal |
| Vehicles.VehicleEqualsDistinguishesTypes | source/TollFeeCalculator/Vehicle.cs:26-35 | the same license number with two different types gives two unequal vehicles |
| Vehicles.VehicleEqualsIsEquivalence | source/TollFeeCalculator/Vehicle.cs:35 | on non-null vehicles the comparer is reflexive, symmetric and transitive |
| Passages.PassageEquals | source/TollFeeCalculator/VehiclePassage.cs:9-13 | `Equals(x, y)`: false when either passage is null, otherwise license numbers equal and timestamps equal |
| Passages.ObjectEquals | source/TollFeeCalculator/VehiclePassage.cs:19-23 | `Equals(object)`: false for null or an object of another runtime type, otherwise `Equals(this, obj)` |
| Passages.OpEquality | source/TollFeeCalculator/VehiclePassage.cs:29-34 | `==`: true when both operands are null, false when one is, otherwise `Equals(left, right)` |
| Passages.OpInequality | source/TollFeeCalculator/VehiclePassage.cs:35-38 | `!=`: the negation of `==` |
| Passages.PassageEqualsNull | source/TollFeeCalculator/VehiclePassage.cs:11 | `Equals(x, y)` is false when either argument is null |
| Passages.PassageEqualsIff | source/TollFeeCalculator/VehiclePassage.cs:12 | on non-null passages `Equals(x, y)` holds exactly when license numbers and timestamps are equal |
| Passages.PassageEqualsIgnoresType | source/TollFeeCalculator/VehiclePassage.cs:12 | passages that differ only in vehicle type are equal |
| Passages.ObjectEqualsAgrees | source/TollFeeCalculator/VehiclePassage.cs:19-23 | `Equals(object)` is false for null and for an object of another runtime type, and otherwise agrees with `Equals(this, obj)` |
| Passages.OpEqualityCases | source/TollFeeCalculator/VehiclePassage.cs:29-38 | `==` is true on two nulls, false when exactly one operand is null, and otherwise `Equals(left, right)`; `!=` is its negation |
| Passages.PassageEqualitySymmetric | source/TollFeeCalculator/VehiclePassage.cs:12 | both `Equals(x, y)` and `==` are symmetric; `==` is also reflexive and transitive, while `Equals(null, null)` is false |
| TollCalculator.HourMinuteFee | source/TollFeeCalculator/TollCalculator.cs:78-90 | the time-of-day fee is always one of 0, 8, 13 or 18 |
| TollCalculator.IsTollFreeVehicle | source/TollFeeCalculator/TollCalculator.cs:62-72 | true for a null vehicle, or when the vehicle's type name equals the name of one of the six `TollFreeVehicles` members |
| TollCalculator.IsTollFreeDate | source/TollFeeCalculator/TollCalculator.cs:93-116 | true on a Saturday or Sunday; in 2013 also on the listed holidays and every day of July; false otherwise |
| TollCalculator.TimelyTollFee | source/TollFeeCalculator/TollCalculator.cs:74-91 | a passage's fee is one of 0, 8, 13 or 18, and it is 0 on a toll-free date or for a toll-free vehicle |
| TollCalculator.TollFreeVehicleIffNotCar | source/TollFeeCalculator/TollCalculator.cs:62-72 | comparing type names against the toll-free enum makes a vehicle toll free exactly when it is null or its type is not Car |
| TollCalculator.TollFreeDateIff | source/TollFeeCalculator/TollCalculator.cs:93-116 | a date is toll free exactly when it is a Saturday or a Sunday of any year, or one of the listed 2013 holidays (every day of July included) |
| TollCalculator.FeeScheduleCoversDay | source/TollFeeCalculator/TollCalculator.cs:78-90 | the published fee bands cover the whole day from 00:00 to 23:59 without gap or overlap |
| TollCalculator.HourMinuteFeeFollowsSchedule | source/TollFeeCalculator/TollCalculator.cs:81-90 | at every minute of every band of the published schedule, the chain of tests charges that band's fee |
| TollCalculator.CarFeeFollowsSchedule | source/TollFeeCalculator/TollCalculator.cs:74-90 | a car on a day that is not toll free pays the schedule's fee for its hour and minute, whatever the seconds |
| TollCalculator.SumOfLevels | source/TollFeeCalculator/TollCalculator.cs:36 | a sum of fee levels is between 0 and 18 per term |
| TollCalculator.Marks | source/TollFeeCalculator/TollCalculator.cs:28-30 | the loop sees exactly one (tick, fee) mark per timestamp |
| TollCalculator.MarkAt | source/TollFeeCalculator/TollCalculator.cs:28-30 | the mark at each position is that timestamp's tick count and its `GetTimelyTollFee` fee |
| TollCalculator.MarksAreLevels | source/TollFeeCalculator/TollCalculator.cs:30 | every fee the loop meets is a fee level |
| TollCalculator.WindowMaxima | source/TollFeeCalculator/TollCalculator.cs:28-54 | the walk emits at least one window maximum (the open window) and never more than one per passage plus one |
| TollCalculator.WindowMaximaAreLevels | source/TollFeeCalculator/TollCalculator.cs:46-52 | every window maximum is a fee level, so their sum lies between 0 and 18 per window |
| TollCalculator.DailyTollFee | source/TollFeeCalculator/TollCalculator.cs:16-60 | the daily fee of no passages is 0; the call fails with the same-date message exactly when some timestamp's date differs from the first one's; a success lies between 0 and 60 |
| TollCalculator.WindowMaximaAt | source/TollFeeCalculator/TollCalculator.cs:34-53 | one step of the walk: a passage 60 minutes or more after the anchor closes the window and opens one at itself, and any other passage raises the current maximum |
| TollCalculator.GetDailyTollFee | source/TollFeeCalculator/TollCalculator.cs:16-60 | the loop, with its cap and early return at 60, returns or fails exactly as the capped sum of all window maxima specifies |
| TollCalculator.Windows | source/TollFeeCalculator/TollCalculator.cs:25-54 | there is at least one window and at most one per passage |
| TollCalculator.FirstMarkOpensWindow | source/TollFeeCalculator/TollCalculator.cs:25-26 | the first passage always opens a window: the anchor starts 60 minutes earlier with a maximum of 0, which contributes a leading 0 |
| TollCalculator.DailyTollFeeIsCappedSum | source/TollFeeCalculator/TollCalculator.cs:25-59 | on success the daily fee is min(60, sum of the maxima of the windows anchored at the first passage) |
| TollCalculator.DailyTollFeeOutOfRange | source/TollFeeCalculator/TollCalculator.cs:25 | for same-date input, the only failure is a first timestamp in hour 0 of 0001-01-01, where moving the anchor back leaves the range of `DateTime` |
| TollCalculator.FreeWindowMaxima | source/TollFeeCalculator/TollCalculator.cs:28-57 | when every passage costs 0, the window maxima met by the loop sum to 0 |
| TollCalculator.DailyTollFeeTollFree | source/TollFeeCalculator/TollCalculator.cs:16-60 | for a toll-free vehicle, or timestamps on a toll-free date, every successful daily fee is 0 |
| DailyWindows.MaxFee | source/TollFeeCalculator/TollCalculator.cs:52 | a window's maximum bounds every fee in it and is attained by one of them |
| DailyWindows.MaxFeeSnoc | source/TollFeeCalculator/TollCalculator.cs:52 | adding a passage to a window raises its maximum to `Math.Max` of the old maximum and the new fee |
| DailyWindows.WindowFees | source/TollFeeCalculator/TollCalculator.cs:36 | one maximum per window, each the `MaxFee` of its window |
| DailyWindows.PartitionFromFlattens | source/TollFeeCalculator/TollCalculator.cs:28 | the windows built from a starting window and the remaining passages concatenate back to exactly those passages, in order |
| DailyWindows.PartitionFromIsWellFormed | source/TollFeeCalculator/TollCalculator.cs:34 | the built windows are well formed: each member lies less than 60 minutes after its window's first passage, and each window starts 60 minutes or more after the previous one starts |
| DailyWindows.WindowMaximaOfPartitionFrom | source/TollFeeCalculator/TollCalculator.cs:28-54 | the walk's window maxima are the maxima of the built windows |
| DailyWindows.PartitionIsTheWindows | source/TollFeeCalculator/TollCalculator.cs:25-54 | the partition of a day's passages is well formed, concatenates back to the passages, and its window maxima are the loop's |
| DailyWindows.PartitionIsUnique | source/TollFeeCalculator/TollCalculator.cs:34 | any well-formed split of the passages into windows, in order, is that partition |
| DailyWindows.DailyTollFeeOfWindows | source/TollFeeCalculator/TollCalculator.cs:16-60 | on success the daily fee is min(60, sum of the maxima of the unique well-formed windows) |
| PassageRegistry.CreateVehicle | source/TollFeeCalculator/PassageTollHandler.cs:53-64 | Car and Motorbike give a vehicle with that license number and type; every other type fails with the unsupported-type message |
| PassageRegistry.TotalPassagesUpdate | source/TollFeeCalculator/PassageTollHandler.cs:49 | replacing one key's list changes the total number of stored timestamps by the change in that list's length |
| PassageRegistry.PassageTollHandler.constructor | source/TollFeeCalculator/PassageTollHandler.cs:17-20 | a new handler has an empty registry, which satisfies the invariant |
| PassageRegistry.PassageTollHandler.RegisterPassage | source/TollFeeCalculator/PassageTollHandler.cs:23-33 | a null or empty license gives false and an unsupported type the error, both with the registry unchanged; otherwise the private overload's result and new state; no key ever holds a duplicate, and the total grows by one exactly on true |
| PassageRegistry.PassageTollHandler.RegisterVehiclePassage | source/TollFeeCalculator/PassageTollHandler.cs:35-51 | returns true exactly when the key's list lacks the timestamp; then the timestamp is appended unmodified to that list (created when missing) and no other key changes; otherwise nothing changes |
| TollExamples.Jan2IsFeeDay | source/TollFeeCalculator/TollCalculator.cs:99 | 2013-01-02 is a Wednesday and not toll free |
| TollExamples.Jan2CarFee | source/TollFeeCalculator/TollCalculator.cs:74-90 | a car on 2013-01-02 pays the time-of-day fee |
| TollExamples.OneWindowChargesItsMaximum | source/TollFeeCalculatorTests/TollCalculatorTests.cs:54-76 | 06:29, 06:30 and 07:00 form one window costing 18 |
| TollExamples.FirstPassageIsTheMaximum | source/TollFeeCalculatorTests/TollCalculatorTests.cs:78-95 | 07:59, 08:00 and 08:30 form one window costing 18, its first passage's fee |
| TollExamples.WindowMaximaAddUp | source/TollFeeCalculatorTests/TollCalculatorTests.cs:98-129 | seven passages form windows costing 18, 18 and 8, so 44 |
| TollExamples.DailyFeeIsCappedAt60 | source/TollFeeCalculatorTests/TollCalculatorTests.cs:132-163 | windows costing 18, 18, 8 and 18 sum to 62, capped at 60 |
| RegistryScenarios.EmptyLicenseIsRejected | source/TollFeeCalculatorTests/PassageTollHandlerTests.cs:41-52 | an empty license number returns false and stores nothing |
| RegistryScenarios.UnsupportedTypeThrows | source/TollFeeCalculatorTests/PassageTollHandlerTests.cs:55-75 | any type other than Car or Motorbike fails with the unsupported-type message and stores nothing |
| RegistryScenarios.DuplicateIsRejected | source/TollFeeCalculatorTests/PassageTollHandlerTests.cs:78-90 | a second registration of the same vehicle and timestamp returns false and leaves one stored timestamp |
| RegistryScenarios.DifferentTimestampsAreKept | source/TollFeeCalculatorTests/PassageTollHandlerTests.cs:93-120 | two different timestamps for one vehicle are both stored, in order |
| RegistryScenarios.SameTimestampOtherLicense | source/TollFeeCalculatorTests/PassageTollHandlerTests.cs:123-135 | the same timestamp for two license numbers succeeds twice, in two lists |
| RegistryScenarios.SameTimestampOtherType | source/TollFeeCalculator/PassageTollHandler.cs:19 | the same license and timestamp as a Car and as a Motorbike succeeds twice, in two lists |

## Left out

- `GetHashCode` of the comparer and of `VehiclePassage`: they depend on randomised string hashing. The registry is a map keyed by value, which gives the same key identity.
- `VehiclePassage.ToString`: it depends on culture-dependent date formatting.
- `DateTime` is modelled by its calendar fields and its tick count. `DateTime.Kind` is not modelled, and neither is the clock (`DateTime.Now` in the tests).
- `TotalMinutes` is a `double`. The model compares the exact tick difference with 60 minutes' worth of ticks. Floating point is not modelled. The timestamps compared lie within two days of each other, so their tick differences are far below 2^53 and the division that `TotalMinutes` performs reaches 60.0 exactly when the difference reaches 60 minutes.
- `vehicle.GetVehicleType()` and the `Car`/`Motorbike` classes are not part of this model. A vehicle reports its `VehicleType` enum value, and its name is the enum member's name.
- A null `timeStamps` array, and a vehicle whose `LicenseNumber` is null, are not modelled: the registry only creates vehicles with non-empty license numbers.
- The WPF user interface (source/VehiclePassageTolls/MainWindow.xaml.cs) is not part of this model.
- The tests exercise several members that the handler does not contain. These are left out:
  - `RegisterListOfPassages`, `GetListOfPassages` and `GetListOfDailyFees`;
  - the invalid-license and wrong-order messages;
  - truncation of timestamps to the minute;
  - deduplication by license number alone.
- Integer overflow: every quantity is bounded (at most 60 for fees, tick counts within `DateTime`'s range), so unbounded integers behave like the source's.
- Passages.ObjectEquals: the receiver is taken to have runtime type exactly `VehiclePassage`, as no subclass exists. A subclass instance compared with another instance of the same subclass is not modelled.
