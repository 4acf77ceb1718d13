/** The daily-fee scenarios of the repository's unit tests, on Wednesday 2013-01-02. */
module TollExamples {
  import opened Common
  import opened Calendar
  import opened Vehicles
  import opened TollCalculator

  /** 2013-01-02 at hour:minute. */
  function Jan2(hour: int, minute: int): Timestamp
    requires 0 <= hour < 24 && 0 <= minute < 60
  {
    DateTime(2013, 1, 2, hour, minute, 0, 0)
  }

  lemma Jan2IsFeeDay(hour: int, minute: int)
    requires 0 <= hour < 24 && 0 <= minute < 60
    ensures DayOfWeekOf(Jan2(hour, minute)) == Wednesday
    ensures !IsTollFreeDate(Jan2(hour, minute))
  {
    assert DayNumber(Jan2(hour, minute)) == 734869;
  }

  lemma Jan2Ticks(hour: int, minute: int)
    requires 0 <= hour < 24 && 0 <= minute < 60
    ensures Ticks(Jan2(hour, minute)) == 734869 * TicksPerDay + hour * TicksPerHour + minute * TicksPerMinute
  {
    assert DayNumber(Jan2(hour, minute)) == 734869;
  }

  /** A car passing at hour:minute on 2013-01-02 pays the schedule's fee. */
  lemma Jan2CarFee(license: string, hour: int, minute: int)
    requires 0 <= hour < 24 && 0 <= minute < 60
    ensures TimelyTollFee(Jan2(hour, minute), Some(Vehicle(license, Car))) == HourMinuteFee(hour, minute)
    ensures Ticks(Jan2(hour, minute)) == 734869 * TicksPerDay + hour * TicksPerHour + minute * TicksPerMinute
  {
    Jan2Ticks(hour, minute);
    Jan2IsFeeDay(hour, minute);
    TollFreeVehicleIffNotCar(Some(Vehicle(license, Car)));
  }

  /** The mark of a car's passage at hour:minute on 2013-01-02. */
  function Jan2Mark(hour: int, minute: int): Mark
    requires 0 <= hour < 24 && 0 <= minute < 60
  {
    Mark(734869 * TicksPerDay + hour * TicksPerHour + minute * TicksPerMinute, HourMinuteFee(hour, minute))
  }

  lemma Jan2MarkAt(license: string, timeStamps: seq<Timestamp>, k: int, hour: int, minute: int)
    requires 0 <= k < |timeStamps| && 0 <= hour < 24 && 0 <= minute < 60
    requires timeStamps[k] == Jan2(hour, minute)
    ensures Marks(Some(Vehicle(license, Car)), timeStamps)[k] == Jan2Mark(hour, minute)
  {
    MarkAt(Some(Vehicle(license, Car)), timeStamps, k);
    Jan2CarFee(license, hour, minute);
  }

  /** 06:29, 06:30 and 07:00 fall in one window whose highest fee is 18. */
  lemma OneWindowChargesItsMaximum(license: string)
    ensures DailyTollFee(Some(Vehicle(license, Car)), [Jan2(6, 29), Jan2(6, 30), Jan2(7, 0)]) == Ok(18)
  {
    var car := Some(Vehicle(license, Car));
    var ts := [Jan2(6, 29), Jan2(6, 30), Jan2(7, 0)];
    Jan2MarkAt(license, ts, 0, 6, 29);
    Jan2MarkAt(license, ts, 1, 6, 30);
    Jan2MarkAt(license, ts, 2, 7, 0);
    var marks := Marks(car, ts);
    assert marks == [Jan2Mark(6, 29), Jan2Mark(6, 30), Jan2Mark(7, 0)];
    DailyTollFeeIsCappedSum(car, ts);
    var t1 := Jan2Mark(6, 29).tick;
    assert WindowMaxima([Jan2Mark(7, 0)], t1, 13) == [18];
    assert marks[1..] == [Jan2Mark(6, 30), Jan2Mark(7, 0)];
    assert Windows(marks) == [18];
  }

  /** 07:59, 08:00 and 08:30 fall in one window whose highest fee, 18, comes first. */
  lemma FirstPassageIsTheMaximum(license: string)
    ensures DailyTollFee(Some(Vehicle(license, Car)), [Jan2(7, 59), Jan2(8, 0), Jan2(8, 30)]) == Ok(18)
  {
    var car := Some(Vehicle(license, Car));
    var ts := [Jan2(7, 59), Jan2(8, 0), Jan2(8, 30)];
    Jan2MarkAt(license, ts, 0, 7, 59);
    Jan2MarkAt(license, ts, 1, 8, 0);
    Jan2MarkAt(license, ts, 2, 8, 30);
    var marks := Marks(car, ts);
    assert marks == [Jan2Mark(7, 59), Jan2Mark(8, 0), Jan2Mark(8, 30)];
    DailyTollFeeIsCappedSum(car, ts);
    var t1 := Jan2Mark(7, 59).tick;
    assert WindowMaxima([Jan2Mark(8, 30)], t1, 18) == [18];
    assert marks[1..] == [Jan2Mark(8, 0), Jan2Mark(8, 30)];
    assert Windows(marks) == [18];
  }

  /** Three windows with maxima 18, 18 and 8 add up to 44. */
  lemma WindowMaximaAddUp(license: string)
    ensures DailyTollFee(Some(Vehicle(license, Car)),
      [Jan2(6, 29), Jan2(6, 30), Jan2(7, 0), Jan2(7, 59), Jan2(8, 0), Jan2(8, 30), Jan2(14, 44)]) == Ok(44)
  {
    var car := Some(Vehicle(license, Car));
    var ts := [Jan2(6, 29), Jan2(6, 30), Jan2(7, 0), Jan2(7, 59), Jan2(8, 0), Jan2(8, 30), Jan2(14, 44)];
    Jan2MarkAt(license, ts, 0, 6, 29);
    Jan2MarkAt(license, ts, 1, 6, 30);
    Jan2MarkAt(license, ts, 2, 7, 0);
    Jan2MarkAt(license, ts, 3, 7, 59);
    Jan2MarkAt(license, ts, 4, 8, 0);
    Jan2MarkAt(license, ts, 5, 8, 30);
    Jan2MarkAt(license, ts, 6, 14, 44);
    var marks := Marks(car, ts);
    assert marks == [Jan2Mark(6, 29), Jan2Mark(6, 30), Jan2Mark(7, 0), Jan2Mark(7, 59),
                     Jan2Mark(8, 0), Jan2Mark(8, 30), Jan2Mark(14, 44)];
    DailyTollFeeIsCappedSum(car, ts);
    var t1 := Jan2Mark(6, 29).tick;
    var t4 := Jan2Mark(7, 59).tick;
    assert WindowMaxima([Jan2Mark(14, 44)], t4, 18) == [18, 8];
    assert WindowMaxima([Jan2Mark(8, 0), Jan2Mark(8, 30), Jan2Mark(14, 44)], t4, 18) == [18, 8];
    assert WindowMaxima(marks[3..], t1, 18) == [18, 18, 8];
    assert WindowMaxima(marks[2..], t1, 13) == [18, 18, 8];
    assert Windows(marks) == [18, 18, 8];
    assert Sum([8]) == 8 && Sum([18, 8]) == 26 && Sum([18, 18, 8]) == 44;
  }

  /** Window maxima 18, 18, 8 and 18 add up to 62, which is capped at 60. */
  lemma DailyFeeIsCappedAt60(license: string)
    ensures DailyTollFee(Some(Vehicle(license, Car)),
      [Jan2(6, 29), Jan2(7, 0), Jan2(7, 59), Jan2(8, 30), Jan2(14, 44), Jan2(16, 59)]) == Ok(60)
  {
    var car := Some(Vehicle(license, Car));
    var ts := [Jan2(6, 29), Jan2(7, 0), Jan2(7, 59), Jan2(8, 30), Jan2(14, 44), Jan2(16, 59)];
    Jan2MarkAt(license, ts, 0, 6, 29);
    Jan2MarkAt(license, ts, 1, 7, 0);
    Jan2MarkAt(license, ts, 2, 7, 59);
    Jan2MarkAt(license, ts, 3, 8, 30);
    Jan2MarkAt(license, ts, 4, 14, 44);
    Jan2MarkAt(license, ts, 5, 16, 59);
    var marks := Marks(car, ts);
    assert marks == [Jan2Mark(6, 29), Jan2Mark(7, 0), Jan2Mark(7, 59), Jan2Mark(8, 30),
                     Jan2Mark(14, 44), Jan2Mark(16, 59)];
    DailyTollFeeIsCappedSum(car, ts);
    var t1 := Jan2Mark(6, 29).tick;
    var t3 := Jan2Mark(7, 59).tick;
    var t5 := Jan2Mark(14, 44).tick;
    assert WindowMaxima([Jan2Mark(16, 59)], t5, 8) == [8, 18];
    assert WindowMaxima([Jan2Mark(14, 44), Jan2Mark(16, 59)], t3, 18) == [18, 8, 18];
    assert WindowMaxima(marks[2..], t1, 18) == [18, 18, 8, 18];
    assert Windows(marks) == [18, 18, 8, 18];
    assert Sum([18]) == 18 && Sum([8, 18]) == 26 && Sum([18, 8, 18]) == 44 && Sum([18, 18, 8, 18]) == 62;
  }
}
