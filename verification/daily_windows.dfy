/** The windows `GetDailyTollFee` charges, described independently of its loop: the
    passages, in the order given, split into consecutive windows; each window holds its
    anchor and the passages less than an hour after that anchor; each new window's anchor
    is at least an hour after the previous anchor. That split exists and is unique, and the
    loop charges the capped sum of each window's highest fee. */
module DailyWindows {
  import opened Common
  import opened Calendar
  import opened Vehicles
  import opened TollCalculator

  /** A window: its first mark is the anchor; every other member comes less than an hour
      after the anchor (earlier passages, in unsorted input, included). */
  predicate IsWindow(window: seq<Mark>) {
    window != [] && forall j | 1 <= j < |window| :: window[j].tick - window[0].tick < WindowTicks
  }

  /** Consecutive windows whose anchors are each at least an hour after the previous one. */
  predicate WellFormed(windows: seq<seq<Mark>>) {
    && (forall k | 0 <= k < |windows| :: IsWindow(windows[k]))
    && (forall k | 0 < k < |windows| :: windows[k][0].tick - windows[k - 1][0].tick >= WindowTicks)
  }

  function Flatten(windows: seq<seq<Mark>>): seq<Mark> {
    if windows == [] then [] else windows[0] + Flatten(windows[1..])
  }

  /** Splits `rest` into windows, the first of which is `current` so far. */
  function PartitionFrom(rest: seq<Mark>, current: seq<Mark>): seq<seq<Mark>>
    requires current != []
    decreases |rest|
  {
    if rest == [] then [current]
    else if rest[0].tick - current[0].tick >= WindowTicks then [current] + PartitionFrom(rest[1..], [rest[0]])
    else PartitionFrom(rest[1..], current + [rest[0]])
  }

  /** The windows of a day's passages, in the given order. */
  function Partition(marks: seq<Mark>): seq<seq<Mark>>
    requires marks != []
  {
    PartitionFrom(marks[1..], [marks[0]])
  }

  /** The highest fee in a window. */
  function MaxFee(window: seq<Mark>): (fee: int)
    requires window != []
    ensures forall j | 0 <= j < |window| :: window[j].fee <= fee
    ensures exists j | 0 <= j < |window| :: window[j].fee == fee
    decreases |window|
  {
    if |window| == 1 then window[0].fee
    else
      var fee := Max(window[0].fee, MaxFee(window[1..]));
      assert forall j | 1 <= j < |window| :: window[j] == window[1..][j - 1];
      fee
  }

  lemma {:induction false} MaxFeeSnoc(window: seq<Mark>, mark: Mark)
    requires window != []
    ensures MaxFee(window + [mark]) == Max(MaxFee(window), mark.fee)
    decreases |window|
  {
    if |window| > 1 {
      assert (window + [mark])[1..] == window[1..] + [mark];
      MaxFeeSnoc(window[1..], mark);
    }
  }

  /** The highest fee of each window, in order. */
  function WindowFees(windows: seq<seq<Mark>>): (fees: seq<int>)
    requires forall k | 0 <= k < |windows| :: windows[k] != []
    ensures |fees| == |windows|
    ensures forall k | 0 <= k < |windows| :: fees[k] == MaxFee(windows[k])
  {
    if windows == [] then [] else [MaxFee(windows[0])] + WindowFees(windows[1..])
  }

  lemma FlattenCons(window: seq<Mark>, windows: seq<seq<Mark>>)
    ensures Flatten([window] + windows) == window + Flatten(windows)
  {
    assert ([window] + windows)[1..] == windows;
  }

  lemma {:induction false} PartitionFromFlattens(rest: seq<Mark>, current: seq<Mark>)
    requires current != []
    ensures var windows := PartitionFrom(rest, current);
      && windows != [] && |windows[0]| >= |current| && windows[0][0] == current[0]
      && Flatten(windows) == current + rest
    decreases |rest|
  {
    if rest == [] {
      assert Flatten([current]) == current + Flatten([]);
    } else if rest[0].tick - current[0].tick >= WindowTicks {
      PartitionFromFlattens(rest[1..], [rest[0]]);
      FlattenCons(current, PartitionFrom(rest[1..], [rest[0]]));
      assert rest == [rest[0]] + rest[1..];
    } else {
      var next := current + [rest[0]];
      PartitionFromFlattens(rest[1..], next);
      assert next + rest[1..] == current + rest;
    }
  }

  lemma ExtendWindow(current: seq<Mark>, mark: Mark)
    requires IsWindow(current) && mark.tick - current[0].tick < WindowTicks
    ensures IsWindow(current + [mark])
  {
    var next := current + [mark];
    forall j | 1 <= j < |next|
      ensures next[j].tick - next[0].tick < WindowTicks
    {
      if j < |current| { assert next[j] == current[j]; }
    }
  }

  lemma ConsWindow(current: seq<Mark>, tail: seq<seq<Mark>>)
    requires IsWindow(current) && WellFormed(tail) && tail != []
    requires tail[0][0].tick - current[0].tick >= WindowTicks
    ensures WellFormed([current] + tail)
  {
    var windows: seq<seq<Mark>> := [current] + tail;
    forall k | 0 < k < |windows|
      ensures windows[k][0].tick - windows[k - 1][0].tick >= WindowTicks
    {
      if k > 1 {
        assert windows[k] == tail[k - 1] && windows[k - 1] == tail[k - 2];
      }
    }
  }

  lemma {:induction false} PartitionFromIsWellFormed(rest: seq<Mark>, current: seq<Mark>)
    requires IsWindow(current)
    ensures WellFormed(PartitionFrom(rest, current))
    decreases |rest|
  {
    if rest == [] {
    } else if rest[0].tick - current[0].tick >= WindowTicks {
      PartitionFromIsWellFormed(rest[1..], [rest[0]]);
      PartitionFromFlattens(rest[1..], [rest[0]]);
      ConsWindow(current, PartitionFrom(rest[1..], [rest[0]]));
    } else {
      ExtendWindow(current, rest[0]);
      PartitionFromIsWellFormed(rest[1..], current + [rest[0]]);
    }
  }

  /** The loop's fold over a window in progress emits exactly the highest fee of each
      window of the split. */
  lemma {:induction false} WindowMaximaOfPartitionFrom(rest: seq<Mark>, current: seq<Mark>)
    requires IsWindow(current)
    ensures WellFormed(PartitionFrom(rest, current))
    ensures WindowMaxima(rest, current[0].tick, MaxFee(current)) == WindowFees(PartitionFrom(rest, current))
    decreases |rest|
  {
    PartitionFromIsWellFormed(rest, current);
    if rest == [] {
    } else if rest[0].tick - current[0].tick >= WindowTicks {
      WindowMaximaOfPartitionFrom(rest[1..], [rest[0]]);
      var windows := [current] + PartitionFrom(rest[1..], [rest[0]]);
      assert windows[1..] == PartitionFrom(rest[1..], [rest[0]]);
    } else {
      var next := current + [rest[0]];
      MaxFeeSnoc(current, rest[0]);
      ExtendWindow(current, rest[0]);
      WindowMaximaOfPartitionFrom(rest[1..], next);
    }
  }

  /** The split of the passages is well formed and loses or reorders nothing, and the
      windows the daily fee adds up are its windows' highest fees. */
  lemma PartitionIsTheWindows(marks: seq<Mark>)
    requires marks != []
    ensures WellFormed(Partition(marks))
    ensures Flatten(Partition(marks)) == marks
    ensures Windows(marks) == WindowFees(Partition(marks))
  {
    PartitionFromFlattens(marks[1..], [marks[0]]);
    assert [marks[0]] + marks[1..] == marks;
    WindowMaximaOfPartitionFrom(marks[1..], [marks[0]]);
  }

  lemma WellFormedTail(windows: seq<seq<Mark>>)
    requires WellFormed(windows) && windows != []
    ensures WellFormed(windows[1..])
  {
    var tail: seq<seq<Mark>> := windows[1..];
    forall k | 0 < k < |tail|
      ensures tail[k][0].tick - tail[k - 1][0].tick >= WindowTicks
    {
      assert tail[k] == windows[k + 1] && tail[k - 1] == windows[k];
    }
  }

  lemma FlattenEmpty(windows: seq<seq<Mark>>)
    requires WellFormed(windows) && Flatten(windows) == []
    ensures windows == []
  {
  }

  lemma FlattenSplit(rest: seq<Mark>, current: seq<Mark>, extra: seq<Mark>, windows: seq<seq<Mark>>)
    requires windows != [] && windows[0] == current + extra && Flatten(windows) == current + rest
    ensures extra + Flatten(windows[1..]) == rest
  {
    var after := extra + Flatten(windows[1..]);
    assert Flatten(windows) == current + after;
    assert (current + after)[|current|..] == after;
    assert (current + rest)[|current|..] == rest;
  }

  /** The mark after the first window anchors the second one. */
  lemma NextWindowAnchor(rest: seq<Mark>, current: seq<Mark>, windows: seq<seq<Mark>>)
    requires current != [] && WellFormed(windows) && windows != [] && rest != []
    requires windows[0] == current && Flatten(windows[1..]) == rest
    ensures |windows| > 1 && windows[1] == [rest[0]] + windows[1][1..]
    ensures Flatten(windows[1..]) == [rest[0]] + rest[1..]
    ensures rest[0].tick - current[0].tick >= WindowTicks
  {
    var tail: seq<seq<Mark>> := windows[1..];
    assert tail != [];
    assert Flatten(tail) == tail[0] + Flatten(tail[1..]);
    assert IsWindow(tail[0]);
    assert tail[0][0] == rest[0];
  }

  /** The mark after `current`, when the first window goes on, belongs to it. */
  lemma SameWindowMember(rest: seq<Mark>, current: seq<Mark>, extra: seq<Mark>, windows: seq<seq<Mark>>)
    requires current != [] && WellFormed(windows) && windows != [] && rest != [] && extra != []
    requires windows[0] == current + extra && extra + Flatten(windows[1..]) == rest
    ensures windows[0] == (current + [rest[0]]) + extra[1..]
    ensures rest[0].tick - current[0].tick < WindowTicks
  {
    assert extra[0] == rest[0];
    assert windows[0][|current|] == rest[0];
    assert IsWindow(windows[0]);
  }

  /** No marks left: the windows are `current` alone. */
  lemma LastWindow(current: seq<Mark>, extra: seq<Mark>, windows: seq<seq<Mark>>)
    requires current != [] && WellFormed(windows) && windows != []
    requires windows[0] == current + extra && Flatten(windows) == current
    ensures windows == PartitionFrom([], current)
  {
    FlattenSplit([], current, extra, windows);
    WellFormedTail(windows);
    FlattenEmpty(windows[1..]);
    assert windows == [windows[0]];
  }

  /** The first window is exactly `current`: the next mark opens the second window. */
  lemma CloseWindowCase(rest: seq<Mark>, current: seq<Mark>, windows: seq<seq<Mark>>)
    requires current != [] && WellFormed(windows) && windows != [] && rest != []
    requires windows[0] == current && Flatten(windows[1..]) == rest
    requires windows[1..] == PartitionFrom(rest[1..], [rest[0]])
    ensures windows == PartitionFrom(rest, current)
  {
    NextWindowAnchor(rest, current, windows);
    assert windows == [current] + windows[1..];
  }

  /** The first window goes on past `current`: the next mark joins it. */
  lemma ExtendWindowCase(rest: seq<Mark>, current: seq<Mark>, extra: seq<Mark>, windows: seq<seq<Mark>>)
    requires current != [] && WellFormed(windows) && windows != [] && rest != [] && extra != []
    requires windows[0] == current + extra && extra + Flatten(windows[1..]) == rest
    requires windows == PartitionFrom(rest[1..], current + [rest[0]])
    ensures windows == PartitionFrom(rest, current)
  {
    SameWindowMember(rest, current, extra, windows);
  }

  lemma {:induction false} PartitionFromUnique(rest: seq<Mark>, current: seq<Mark>,
                                               extra: seq<Mark>, windows: seq<seq<Mark>>)
    requires current != [] && WellFormed(windows) && windows != []
    requires windows[0] == current + extra && Flatten(windows) == current + rest
    ensures windows == PartitionFrom(rest, current)
    decreases |rest|
  {
    if rest == [] {
      LastWindow(current, extra, windows);
    } else {
      FlattenSplit(rest, current, extra, windows);
      if extra == [] {
        var tail := windows[1..];
        NextWindowAnchor(rest, current, windows);
        WellFormedTail(windows);
        PartitionFromUnique(rest[1..], [rest[0]], tail[0][1..], tail);
        CloseWindowCase(rest, current, windows);
      } else {
        SameWindowMember(rest, current, extra, windows);
        assert current + rest == (current + [rest[0]]) + rest[1..];
        PartitionFromUnique(rest[1..], current + [rest[0]], extra[1..], windows);
        ExtendWindowCase(rest, current, extra, windows);
      }
    }
  }

  /** The split is the only one: any well-formed sequence of windows that lays out the
      passages in their given order is `Partition` of them. */
  lemma PartitionIsUnique(marks: seq<Mark>, windows: seq<seq<Mark>>)
    requires marks != [] && WellFormed(windows) && Flatten(windows) == marks
    ensures windows == Partition(marks)
  {
    assert windows != [];
    assert Flatten(windows) == windows[0] + Flatten(windows[1..]);
    assert windows[0][0] == marks[0];
    assert windows[0] == [marks[0]] + windows[0][1..];
    assert Flatten(windows) == [marks[0]] + marks[1..];
    PartitionFromUnique(marks[1..], [marks[0]], windows[0][1..], windows);
  }

  /** Put together: on success the daily fee is min(60, the sum over the windows of the
      split of each window's highest fee). */
  lemma DailyTollFeeOfWindows(vehicle: Option<Vehicle>, timeStamps: seq<Timestamp>)
    requires timeStamps != [] && SameDate(timeStamps) && Ticks(timeStamps[0]) >= WindowTicks
    ensures var windows := Partition(Marks(vehicle, timeStamps));
      && WellFormed(windows)
      && DailyTollFee(vehicle, timeStamps) == Ok(Min(Sum(WindowFees(windows)), DailyMaxFee))
  {
    DailyTollFeeIsCappedSum(vehicle, timeStamps);
    PartitionIsTheWindows(Marks(vehicle, timeStamps));
  }
}
