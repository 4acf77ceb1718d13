/** `TollCalculator`: the fee of one passage, and the capped daily total of a
    vehicle's passages on one date. */
module TollCalculator {
  import opened Common
  import opened Calendar
  import opened Vehicles

  /** The most a vehicle pays in one day. */
  const DailyMaxFee: int := 60
  /** Passages less than this many ticks after a window's anchor fall into that window. */
  const WindowTicks: int := 60 * TicksPerMinute
  const SameDateMessage: string := "All time stamps must be from the same date."

  /** The fee levels a single passage can cost. */
  predicate IsFeeLevel(fee: int) {
    fee == 0 || fee == 8 || fee == 13 || fee == 18
  }

  /** The private `TollFreeVehicles` enum: every vehicle type except Car, by name. */
  datatype TollFreeVehicles = Motorbike | Tractor | Emergency | Diplomat | Foreign | Military
  {
    function Name(): string {
      match this
      case Motorbike => "Motorbike"
      case Tractor => "Tractor"
      case Emergency => "Emergency"
      case Diplomat => "Diplomat"
      case Foreign => "Foreign"
      case Military => "Military"
    }
  }

  /** `IsTollFreeVehicle`: null, or a vehicle whose type name is one of the toll-free names. */
  predicate IsTollFreeVehicle(vehicle: Option<Vehicle>) {
    vehicle.None? ||
    var vehicleType := vehicle.value.vehicleType.Name();
    || vehicleType == TollFreeVehicles.Motorbike.Name()
    || vehicleType == TollFreeVehicles.Tractor.Name()
    || vehicleType == TollFreeVehicles.Emergency.Name()
    || vehicleType == TollFreeVehicles.Diplomat.Name()
    || vehicleType == TollFreeVehicles.Foreign.Name()
    || vehicleType == TollFreeVehicles.Military.Name()
  }

  /** `IsTollFreeDate`: weekends, and the listed 2013 holidays (all of July among them). */
  predicate IsTollFreeDate(timeStamp: Timestamp) {
    var year, month, day := timeStamp.year, timeStamp.month, timeStamp.day;
    if DayOfWeekOf(timeStamp) == Saturday || DayOfWeekOf(timeStamp) == Sunday then true
    else if year == 2013 then
      || (month == 1 && day == 1)
      || (month == 3 && (day == 28 || day == 29))
      || (month == 4 && (day == 1 || day == 30))
      || (month == 5 && (day == 1 || day == 8 || day == 9))
      || (month == 6 && (day == 5 || day == 6 || day == 21))
      || month == 7
      || (month == 11 && day == 1)
      || (month == 12 && (day == 24 || day == 25 || day == 26 || day == 31))
    else false
  }

  /** The time-of-day part of `GetTimelyTollFee`, as its chain of tests is written. */
  function HourMinuteFee(hour: int, minute: int): (fee: int)
    ensures IsFeeLevel(fee)
  {
    if hour == 6 && minute <= 29 then 8
    else if hour == 6 then 13
    else if hour == 7 then 18
    else if hour == 8 && minute <= 29 then 13
    else if hour >= 8 && hour <= 14 then 8
    else if hour == 15 && minute <= 29 then 13
    else if hour >= 15 && hour <= 16 then 18
    else if hour == 17 then 13
    else if hour == 18 && minute <= 29 then 8
    else 0
  }

  /** `GetTimelyTollFee`: the fee of one passage. */
  function TimelyTollFee(timeStamp: Timestamp, vehicle: Option<Vehicle>): (fee: int)
    ensures IsFeeLevel(fee)
    ensures IsTollFreeDate(timeStamp) || IsTollFreeVehicle(vehicle) ==> fee == 0
  {
    if IsTollFreeDate(timeStamp) || IsTollFreeVehicle(vehicle) then 0
    else HourMinuteFee(timeStamp.hour, timeStamp.minute)
  }

  /** Only a Car pays: every other type, and a null vehicle, is toll free. */
  lemma TollFreeVehicleIffNotCar(vehicle: Option<Vehicle>)
    ensures IsTollFreeVehicle(vehicle) <==> vehicle.None? || vehicle.value.vehicleType != Car
  {
    if vehicle.Some? && vehicle.value.vehicleType == Car {
      var name := "Car";
      assert |name| == 3;
      assert |TollFreeVehicles.Motorbike.Name()| == 9 && |TollFreeVehicles.Tractor.Name()| == 7;
      assert |TollFreeVehicles.Emergency.Name()| == 9 && |TollFreeVehicles.Diplomat.Name()| == 8;
      assert |TollFreeVehicles.Foreign.Name()| == 7 && |TollFreeVehicles.Military.Name()| == 8;
    }
  }

  /** The 2013 holidays as (month, day) pairs, every day of July included. */
  function Holidays2013(): set<(int, int)> {
    {(1, 1), (3, 28), (3, 29), (4, 1), (4, 30), (5, 1), (5, 8), (5, 9), (6, 5), (6, 6), (6, 21),
     (11, 1), (12, 24), (12, 25), (12, 26), (12, 31)}
    + set d | 1 <= d <= 31 :: (7, d)
  }

  /** A date is toll free exactly when it is a Saturday or a Sunday of any year, or one of
      the 2013 holidays; no other year has holidays. */
  lemma TollFreeDateIff(timeStamp: Timestamp)
    ensures IsTollFreeDate(timeStamp) <==>
      || DayOfWeekOf(timeStamp) in {Saturday, Sunday}
      || (timeStamp.year == 2013 && (timeStamp.month, timeStamp.day) in Holidays2013())
  {
    if timeStamp.year == 2013 && timeStamp.month == 7 {
      var july := set d | 1 <= d <= 31 :: (7, d);
      assert 1 <= timeStamp.day <= DaysInMonth(2013, 7) == 31;
      assert (7, timeStamp.day) in july;
    }
  }

  /** A band of the fee schedule: minutes of the day `first` to `last`, both included. */
  datatype FeeBand = FeeBand(first: int, last: int, fee: int)

  /** The published fee schedule, in minutes of the day. */
  const FeeSchedule: seq<FeeBand> := [
    FeeBand(0, 5 * 60 + 59, 0),          // 00:00-05:59
    FeeBand(6 * 60, 6 * 60 + 29, 8),     // 06:00-06:29
    FeeBand(6 * 60 + 30, 6 * 60 + 59, 13),
    FeeBand(7 * 60, 7 * 60 + 59, 18),
    FeeBand(8 * 60, 8 * 60 + 29, 13),
    FeeBand(8 * 60 + 30, 14 * 60 + 59, 8),
    FeeBand(15 * 60, 15 * 60 + 29, 13),
    FeeBand(15 * 60 + 30, 16 * 60 + 59, 18),
    FeeBand(17 * 60, 17 * 60 + 59, 13),
    FeeBand(18 * 60, 18 * 60 + 29, 8),
    FeeBand(18 * 60 + 30, 23 * 60 + 59, 0)   // 18:30-23:59
  ]

  /** The bands follow each other without gap or overlap and cover the whole day. */
  lemma FeeScheduleCoversDay()
    ensures FeeSchedule[0].first == 0 && FeeSchedule[|FeeSchedule| - 1].last == 24 * 60 - 1
    ensures forall k | 0 <= k < |FeeSchedule| :: FeeSchedule[k].first <= FeeSchedule[k].last
    ensures forall k | 0 < k < |FeeSchedule| :: FeeSchedule[k].first == FeeSchedule[k - 1].last + 1
  {
  }

  /** The chain of tests in `GetTimelyTollFee` charges, at every minute of every band,
      that band's fee. */
  lemma HourMinuteFeeFollowsSchedule(hour: int, minute: int, k: int)
    requires 0 <= minute < 60 && 0 <= k < |FeeSchedule|
    requires FeeSchedule[k].first <= hour * 60 + minute <= FeeSchedule[k].last
    ensures HourMinuteFee(hour, minute) == FeeSchedule[k].fee
  {
  }

  /** For a car on a day that is not toll free, the fee is the schedule's fee for the
      passage's hour and minute; seconds and the date play no part. */
  lemma CarFeeFollowsSchedule(timeStamp: Timestamp, license: string, k: int)
    requires !IsTollFreeDate(timeStamp) && 0 <= k < |FeeSchedule|
    requires FeeSchedule[k].first <= timeStamp.hour * 60 + timeStamp.minute <= FeeSchedule[k].last
    ensures TimelyTollFee(timeStamp, Some(Vehicle(license, Car))) == FeeSchedule[k].fee
  {
    TollFreeVehicleIffNotCar(Some(Vehicle(license, Car)));
    HourMinuteFeeFollowsSchedule(timeStamp.hour, timeStamp.minute, k);
  }

  function Sum(fees: seq<int>): int {
    if fees == [] then 0 else fees[0] + Sum(fees[1..])
  }

  lemma {:induction false} SumOfLevels(fees: seq<int>)
    requires forall k | 0 <= k < |fees| :: IsFeeLevel(fees[k])
    ensures 0 <= Sum(fees) <= 18 * |fees|
  {
    if fees != [] {
      SumOfLevels(fees[1..]);
    }
  }

  /** A passage as the daily loop sees it: its instant in ticks and its fee. */
  datatype Mark = Mark(tick: int, fee: int)

  /** The marks of `timeStamps` for `vehicle`, in the given order. */
  function Marks(vehicle: Option<Vehicle>, timeStamps: seq<Timestamp>): (marks: seq<Mark>)
    ensures |marks| == |timeStamps|
  {
    if timeStamps == [] then []
    else [Mark(Ticks(timeStamps[0]), TimelyTollFee(timeStamps[0], vehicle))] + Marks(vehicle, timeStamps[1..])
  }

  /** The mark at position `k` is the tick count and the fee of the timestamp there. */
  lemma {:induction false} MarkAt(vehicle: Option<Vehicle>, timeStamps: seq<Timestamp>, k: int)
    requires 0 <= k < |timeStamps|
    ensures Marks(vehicle, timeStamps)[k] == Mark(Ticks(timeStamps[k]), TimelyTollFee(timeStamps[k], vehicle))
    decreases k
  {
    if k > 0 {
      MarkAt(vehicle, timeStamps[1..], k - 1);
      assert timeStamps[1..][k - 1] == timeStamps[k];
    }
  }

  predicate FeesAreLevels(marks: seq<Mark>) {
    forall k | 0 <= k < |marks| :: IsFeeLevel(marks[k].fee)
  }

  lemma FeesAreLevelsSuffix(marks: seq<Mark>, i: int)
    requires FeesAreLevels(marks) && 0 <= i <= |marks|
    ensures FeesAreLevels(marks[i..])
  {
    var suffix := marks[i..];
    forall k | 0 <= k < |suffix| ensures IsFeeLevel(suffix[k].fee) {
      assert suffix[k] == marks[i + k];
    }
  }

  /** Every mark's fee is a fee level. */
  lemma MarksAreLevels(vehicle: Option<Vehicle>, timeStamps: seq<Timestamp>)
    ensures FeesAreLevels(Marks(vehicle, timeStamps))
  {
    var marks := Marks(vehicle, timeStamps);
    forall k | 0 <= k < |marks|
      ensures IsFeeLevel(marks[k].fee)
    {
      MarkAt(vehicle, timeStamps, k);
    }
  }

  /** The window maxima met while `GetDailyTollFee` walks `marks` in the given order,
      starting inside a window anchored at tick `anchor` whose highest fee so far is
      `intervalMax`. A mark at least `WindowTicks` after the anchor closes the window (its
      maximum is emitted) and opens a new one anchored at itself; any other mark only
      raises the current maximum. The last element is the window still open at the end. */
  function WindowMaxima(marks: seq<Mark>, anchor: int, intervalMax: int): (maxima: seq<int>)
    ensures 1 <= |maxima| <= |marks| + 1
    decreases |marks|
  {
    if marks == [] then [intervalMax]
    else if marks[0].tick - anchor >= WindowTicks then
      [intervalMax] + WindowMaxima(marks[1..], marks[0].tick, marks[0].fee)
    else
      WindowMaxima(marks[1..], anchor, Max(intervalMax, marks[0].fee))
  }

  /** Every window maximum is itself a fee level, and so is at most 18. */
  lemma {:induction false} WindowMaximaAreLevels(marks: seq<Mark>, anchor: int, intervalMax: int)
    requires FeesAreLevels(marks) && IsFeeLevel(intervalMax)
    ensures var maxima := WindowMaxima(marks, anchor, intervalMax);
      && (forall k | 0 <= k < |maxima| :: IsFeeLevel(maxima[k]))
      && 0 <= Sum(maxima) <= 18 * |maxima|
    decreases |marks|
  {
    if marks != [] {
      FeesAreLevelsSuffix(marks, 1);
      if marks[0].tick - anchor >= WindowTicks {
        WindowMaximaAreLevels(marks[1..], marks[0].tick, marks[0].fee);
      } else {
        WindowMaximaAreLevels(marks[1..], anchor, Max(intervalMax, marks[0].fee));
      }
    }
    SumOfLevels(WindowMaxima(marks, anchor, intervalMax));
  }

  predicate SameDate(timeStamps: seq<Timestamp>) {
    forall i | 0 <= i < |timeStamps| :: Date(timeStamps[i]) == Date(timeStamps[0])
  }

  /** What `GetDailyTollFee` returns or throws, without its early return: the anchor
      starts one window before the first timestamp with a maximum of 0, and the result
      is the capped sum of every window maximum. */
  function DailyTollFee(vehicle: Option<Vehicle>, timeStamps: seq<Timestamp>): (result: Result<int, Error>)
    ensures timeStamps == [] ==> result == Ok(0)
    ensures result == Err(ArgumentException(SameDateMessage)) <==> !SameDate(timeStamps)
    ensures result.Ok? ==> 0 <= result.value <= DailyMaxFee
  {
    if timeStamps == [] then Ok(0)
    else if !SameDate(timeStamps) then Err(ArgumentException(SameDateMessage))
    else if Ticks(timeStamps[0]) < WindowTicks then Err(ArgumentOutOfRangeException)
    else
      var marks := Marks(vehicle, timeStamps);
      MarksAreLevels(vehicle, timeStamps);
      WindowMaximaAreLevels(marks, Ticks(timeStamps[0]) - WindowTicks, 0);
      Ok(Min(Sum(WindowMaxima(marks, Ticks(timeStamps[0]) - WindowTicks, 0)), DailyMaxFee))
  }

  /** One step of the walk, seen from position `i`. */
  lemma WindowMaximaAt(marks: seq<Mark>, i: int, anchor: int, intervalMax: int)
    requires 0 <= i < |marks| && FeesAreLevels(marks)
    ensures
      var rest := WindowMaxima(marks[i + 1..], marks[i].tick, marks[i].fee);
      && Sum(rest) >= 0
      && Sum(WindowMaxima(marks[i..], anchor, intervalMax)) ==
         if marks[i].tick - anchor >= WindowTicks then intervalMax + Sum(rest)
         else Sum(WindowMaxima(marks[i + 1..], anchor, Max(intervalMax, marks[i].fee)))
  {
    assert marks[i..][0] == marks[i];
    assert marks[i..][1..] == marks[i + 1..];
    FeesAreLevelsSuffix(marks, i + 1);
    WindowMaximaAreLevels(marks[i + 1..], marks[i].tick, marks[i].fee);
  }

  /** `GetDailyTollFee`, loop and early return as written. */
  method GetDailyTollFee(vehicle: Option<Vehicle>, timeStamps: seq<Timestamp>) returns (result: Result<int, Error>)
    ensures result == DailyTollFee(vehicle, timeStamps)
  {
    if |timeStamps| == 0 {
      return Ok(0);
    }
    // Some timestamp falls on another date than the first one.
    if !SameDate(timeStamps) {
      return Err(ArgumentException(SameDateMessage));
    }
    // `AddMinutes(-60)` throws when it would leave the range of DateTime.
    if Ticks(timeStamps[0]) < WindowTicks {
      return Err(ArgumentOutOfRangeException);
    }
    var intervalStart := Ticks(timeStamps[0]) - WindowTicks;
    var intervalMaxFee := 0;
    var totalFee := 0;
    ghost var marks := Marks(vehicle, timeStamps);
    ghost var total := Sum(WindowMaxima(marks, intervalStart, 0));
    assert DailyTollFee(vehicle, timeStamps) == Ok(Min(total, DailyMaxFee));
    MarksAreLevels(vehicle, timeStamps);
    // The sum of the window maxima the walk has still to meet.
    ghost var remaining := total;
    assert marks[0..] == marks;
    for i := 0 to |timeStamps|
      invariant 0 <= totalFee < DailyMaxFee
      invariant IsFeeLevel(intervalMaxFee)
      invariant remaining == Sum(WindowMaxima(marks[i..], intervalStart, intervalMaxFee))
      invariant Min(totalFee + remaining, DailyMaxFee) == Min(total, DailyMaxFee)
    {
      var timeStamp := timeStamps[i];
      var fee := TimelyTollFee(timeStamp, vehicle);
      MarkAt(vehicle, timeStamps, i);
      WindowMaximaAt(marks, i, intervalStart, intervalMaxFee);
      if Ticks(timeStamp) - intervalStart >= WindowTicks {
        remaining := Sum(WindowMaxima(marks[i + 1..], Ticks(timeStamp), fee));
        totalFee := totalFee + intervalMaxFee;
        totalFee := Min(totalFee, DailyMaxFee);
        if totalFee == DailyMaxFee {
          return Ok(totalFee);
        }
        intervalStart := Ticks(timeStamp);
        intervalMaxFee := fee;
      } else {
        remaining := Sum(WindowMaxima(marks[i + 1..], intervalStart, Max(intervalMaxFee, fee)));
        intervalMaxFee := Max(intervalMaxFee, fee);
      }
    }
    assert Sum(WindowMaxima(marks[|timeStamps|..], intervalStart, intervalMaxFee)) == intervalMaxFee;
    totalFee := totalFee + intervalMaxFee;
    totalFee := Min(totalFee, DailyMaxFee);
    return Ok(totalFee);
  }

  /** The maxima of the windows proper, in order: the first window is anchored at the
      first mark. */
  function Windows(marks: seq<Mark>): (maxima: seq<int>)
    requires marks != []
    ensures 1 <= |maxima| <= |marks|
  {
    WindowMaxima(marks[1..], marks[0].tick, marks[0].fee)
  }

  /** The first mark always opens a window: the anchor starts a full window earlier with a
      maximum of 0, so the walk emits a leading 0 and then the windows proper. */
  lemma FirstMarkOpensWindow(marks: seq<Mark>)
    requires marks != []
    ensures WindowMaxima(marks, marks[0].tick - WindowTicks, 0) == [0] + Windows(marks)
  {
  }

  /** On success the daily fee is min(60, sum of the window maxima), whether or not the
      loop returned early. */
  lemma DailyTollFeeIsCappedSum(vehicle: Option<Vehicle>, timeStamps: seq<Timestamp>)
    requires timeStamps != [] && SameDate(timeStamps) && Ticks(timeStamps[0]) >= WindowTicks
    ensures DailyTollFee(vehicle, timeStamps) == Ok(Min(Sum(Windows(Marks(vehicle, timeStamps))), DailyMaxFee))
  {
    FirstMarkOpensWindow(Marks(vehicle, timeStamps));
  }

  /** The only failure besides mixed dates: a first timestamp in the first hour of
      0001-01-01, where moving the anchor an hour back leaves DateTime's range. */
  lemma DailyTollFeeOutOfRange(vehicle: Option<Vehicle>, timeStamps: seq<Timestamp>)
    requires timeStamps != [] && SameDate(timeStamps)
    ensures DailyTollFee(vehicle, timeStamps).Err? <==>
      Date(timeStamps[0]) == (1, 1, 1) && timeStamps[0].hour == 0
  {
  }

  predicate FeesAreZero(marks: seq<Mark>) {
    forall k | 0 <= k < |marks| :: marks[k].fee == 0
  }

  /** A walk that meets only free passages sums to nothing. */
  lemma {:induction false} FreeWindowMaxima(marks: seq<Mark>, anchor: int)
    requires FeesAreZero(marks)
    ensures Sum(WindowMaxima(marks, anchor, 0)) == 0
    decreases |marks|
  {
    if marks != [] {
      assert FeesAreZero(marks[1..]) by {
        forall k | 0 <= k < |marks| - 1 ensures marks[1..][k].fee == 0 {
          assert marks[1..][k] == marks[k + 1];
        }
      }
      if marks[0].tick - anchor >= WindowTicks {
        FreeWindowMaxima(marks[1..], marks[0].tick);
      } else {
        FreeWindowMaxima(marks[1..], anchor);
      }
    }
  }

  /** A toll-free vehicle, or a toll-free date, costs nothing for the whole day. There is
      no shortcut for them: the anchor is still moved an hour back, so the range failure
      of `DailyTollFeeOutOfRange` still applies. */
  lemma DailyTollFeeTollFree(vehicle: Option<Vehicle>, timeStamps: seq<Timestamp>)
    requires timeStamps != [] && SameDate(timeStamps)
    requires IsTollFreeVehicle(vehicle) || IsTollFreeDate(timeStamps[0])
    ensures DailyTollFee(vehicle, timeStamps).Ok? ==> DailyTollFee(vehicle, timeStamps) == Ok(0)
  {
    var marks := Marks(vehicle, timeStamps);
    forall k | 0 <= k < |marks| ensures marks[k].fee == 0 {
      MarkAt(vehicle, timeStamps, k);
      assert Date(timeStamps[k]) == Date(timeStamps[0]);
      assert DayNumber(timeStamps[k]) == DayNumber(timeStamps[0]);
    }
    FreeWindowMaxima(marks, Ticks(timeStamps[0]) - WindowTicks);
  }
}
