/** The three-level history of one device: seconds, minutes and hours, rolled up as samples arrive. */
module History {
  import opened RingBuffers
  import opened Grouping

  const SECONDS_KEPT := 3600 * 2
  const MINUTES_KEPT := 60 * 24 * 7
  const HOURS_KEPT := 24 * 366 * 2

  /** What the clock has to guarantee: at least an hour after the epoch, within 32 bits, never going back and
      never giving more than 60 samples to one minute. */
  ghost predicate Timeline(h: seq<Sample>) {
    && Ordered(h)
    && Sparse(h, MINUTE)
    && forall i :: 0 <= i < |h| ==> HOUR <= h[i].time < 0x1_0000_0000
  }

  /** A clock that is strictly increasing, as the sampling loop assumes, meets the guarantee. */
  lemma {:induction false} StrictClockIsTimeline(h: seq<Sample>)
    requires forall i :: 0 <= i < |h| ==> HOUR <= h[i].time < 0x1_0000_0000
    requires forall i, j :: 0 <= i < j < |h| ==> h[i].time < h[j].time
    ensures Timeline(h)
  {
    var times := seq(|h|, i requires 0 <= i < |h| => h[i].time);
    forall i, j | 0 <= i && i + 60 <= j < |h| ensures Slot(h[i], MINUTE) != Slot(h[j], MINUTE) {
      StrictlyIncreasingGap(times, i, j);
    }
  }

  /** Not every closed hour gets a number: here hour 2 was sampled in minute 120 only. */
  lemma LonelyMinuteIsNaN(h: seq<Sample>)
    requires h == [Sample(5.0, 3600), Sample(7.0, 3660), Sample(9.0, 7200), Sample(11.0, 10800)]
    ensures Timeline(h) && 2 in ClosedSlots(h, HOUR)
    ensures HourRecord(h, 2) == [HourSample(NaN, 7200)]
  {
    StrictClockIsTimeline(h);
    SampledExact(h, HOUR, 2);
    assert Slot(h[2], HOUR) == 2;
    ClosedSlotsExact(h, HOUR);
    HourIsNumber(h, 2);
    var p := [h[0], h[1], h[2]];
    assert Init(h) == p && UpToHour(h, 2) == p;
    SampledExact(p, MINUTE, 60);
    assert Slot(p[0], MINUTE) == 60;
    ClosedSlotsExact(p, MINUTE);
    assert 60 in ClosedSlots(p, MINUTE);
  }

  // ---- the fast form: what the code computes from 60 raw slots ----

  ghost function FastMinute(seconds: seq<Sample>, time: nat): seq<Sample> {
    if seconds == [] || Slot(Last(seconds), MINUTE) == time / MINUTE then []
    else
      var slot := Slot(Last(seconds), MINUTE);
      NewestCounts(seconds, MINUTE);
      [Sample(SumIn(Window(seconds), MINUTE, slot) / CountIn(Window(seconds), MINUTE, slot) as real, slot * MINUTE)]
  }

  ghost function FastHour(minutes: seq<Sample>, newest: Sample, time: nat): seq<HourSample> {
    if minutes == [] || Slot(newest, HOUR) == time / HOUR then []
    else
      var slot := Slot(newest, HOUR);
      var n := CountIn(Window(minutes), HOUR, slot);
      [HourSample(if n == 0 then NaN else Num(SumIn(Window(minutes), HOUR, slot) / n as real), slot * HOUR)]
  }

  function Newest(h: seq<Sample>): Sample {
    if h == [] then ZERO else Last(h)
  }

  /** All minute records of a history, whatever the clock did. */
  ghost function Minutes(h: seq<Sample>): seq<Sample> {
    if h == [] then [] else Minutes(Init(h)) + FastMinute(Init(h), Last(h).time)
  }

  /** All its hour records. */
  ghost function Hours(h: seq<Sample>): seq<HourSample> {
    if h == [] then []
    else Hours(Init(h)) + FastHour(Minutes(Init(h)), Newest(Init(h)), Last(h).time)
  }

  // ---- that is what grouping the whole history gives ----

  /** A minute roll-over averages all samples of the minute. */
  lemma MinuteDivisor(h: seq<Sample>)
    requires Timeline(h) && h != []
    ensures 0 < CountIn(Window(h), MINUTE, Slot(Last(h), MINUTE)) == CountIn(h, MINUTE, Slot(Last(h), MINUTE))
  {
    NewestCounts(h, MINUTE);
    WindowSuffices(h, MINUTE, Slot(Last(h), MINUTE));
  }

  /** Averaging the last 60 second slots produces the record that grouping the whole history produces. */
  lemma MinuteRollUp(h: seq<Sample>, x: Sample)
    requires Timeline(h + [x]) && Timeline(h)
    ensures MinuteRecords(h + [x]) == MinuteRecords(h) + FastMinute(h, x.time)
  {
    if h != [] {
      MinuteStep(h, x);
      MinuteDivisor(h);
      WindowSuffices(h, MINUTE, Slot(Last(h), MINUTE));
    }
  }

  /** The same for hours, over the minute records pushed so far. */
  lemma HourRollUp(h: seq<Sample>, x: Sample)
    requires Timeline(h + [x]) && Timeline(h)
    ensures HourRecords(h + [x]) == HourRecords(h) + FastHour(MinuteRecords(h), Newest(h), x.time)
  {
    if h != [] {
      HourStep(h, x);
      MinuteRecordsSparse(h);
      assert UpToHour(h, Slot(Last(h), HOUR)) == h;
      WindowSuffices(MinuteRecords(h), HOUR, Slot(Last(h), HOUR));
    }
  }

  lemma TimelineBefore(h: seq<Sample>)
    requires Timeline(h) && h != []
    ensures Timeline(Init(h))
  {
    assert forall i :: 0 <= i < |h| - 1 ==> Init(h)[i] == h[i];
  }

  /** Under that guarantee the records taken from 60 raw slots each are, over the whole run, those of grouping all
      samples by minute and hour. */
  lemma {:induction false} RollUpsGroup(h: seq<Sample>)
    requires Timeline(h)
    ensures Minutes(h) == MinuteRecords(h) && Hours(h) == HourRecords(h)
  {
    if h != [] {
      TimelineBefore(h);
      RollUpsGroup(Init(h));
      assert Init(h) + [Last(h)] == h;
      MinuteRollUp(Init(h), Last(h));
      HourRollUp(Init(h), Last(h));
    }
  }

  lemma FewSeconds(h: seq<Sample>, x: Sample)
    requires h != [] && |h| < 60 && Slot(Last(h), MINUTE) != Slot(x, MINUTE) && 0 < Slot(Last(h), MINUTE)
    ensures var slot := Slot(Last(h), MINUTE);
            Minutes(h + [x]) == Minutes(h) + [Sample(MeanIn(h, MINUTE, slot), slot * MINUTE)]
  {
    assert Init(h + [x]) == h;
    WindowOfFew(h, MINUTE, Slot(Last(h), MINUTE));
  }

  lemma OneMore(h: seq<Sample>, x: Sample, slot: nat)
    ensures SumIn(h + [x], MINUTE, slot) == SumIn(h, MINUTE, slot) + if Slot(x, MINUTE) == slot then x.value else 0.0
    ensures CountIn(h + [x], MINUTE, slot) == CountIn(h, MINUTE, slot) + if Slot(x, MINUTE) == slot then 1 else 0
  {
    assert Init(h + [x]) == h;
  }

  lemma MeansOfParts(a: Sample, b: Sample, c: Sample)
    requires a == Sample(1.0, 60) && b == Sample(4.0, 120) && c == Sample(3.0, 61)
    ensures (MeanIn([a], MINUTE, 1), MeanIn([a, b], MINUTE, 2), MeanIn([a, b, c], MINUTE, 1)) == (1.0, 4.0, 2.0)
  {
    assert [] + [a] == [a] && [a] + [b] == [a, b] && [a, b] + [c] == [a, b, c];
    OneMore([], a, 1);
    OneMore([], a, 2);
    OneMore([a], b, 1);
    OneMore([a], b, 2);
    OneMore([a, b], c, 1);
  }

  /** A clock that is set back breaks it: here minute 1 is recorded a second time, behind minute 2 and over both of its
      parts. */
  lemma SetBackRecordsTwice(h: seq<Sample>)
    requires h == [Sample(1.0, 60), Sample(4.0, 120), Sample(3.0, 61), Sample(5.0, 121)]
    ensures Minutes(h) == [Sample(1.0, 60), Sample(4.0, 120), Sample(2.0, 60)]
  {
    var one, two, three := [h[0]], [h[0], h[1]], [h[0], h[1], h[2]];
    assert one + [h[1]] == two && two + [h[2]] == three && three + [h[3]] == h;
    MeansOfParts(h[0], h[1], h[2]);
    FirstMinutes(h[0]);
    FewSeconds(one, h[1]);
    FewSeconds(two, h[2]);
    FewSeconds(three, h[3]);
  }

  lemma FirstMinutes(x: Sample)
    ensures Minutes([x]) == []
  {
    assert Init([x]) == [];
  }

  class DeviceData {
    const perSecond: RingBuffer<Sample>
    const perMinute: RingBuffer<Sample>
    const perHour: RingBuffer<HourSample>
    ghost var history: seq<Sample> // every sample ever added

    ghost const Repr: set<object>

    ghost predicate Rings()
      reads this, Repr
    {
      && Repr == {this, perSecond, perMinute, perHour, perSecond.storage, perMinute.storage, perHour.storage}
      && perSecond != perMinute
      && perSecond.storage != perMinute.storage
      && perHour as object != perSecond && perHour as object != perMinute
      && perHour.storage as object != perSecond.storage && perHour.storage as object != perMinute.storage
      && perSecond.Valid() && perSecond.capacity == SECONDS_KEPT
      && perMinute.Valid() && perMinute.capacity == MINUTES_KEPT
      && perHour.Valid() && perHour.capacity == HOURS_KEPT
      && perSecond.base == seq(SECONDS_KEPT, _ => ZERO)
      && perMinute.base == seq(MINUTES_KEPT, _ => ZERO)
    }

    /** Each buffer has received exactly the records the whole history calls for, and keeps the newest of them. */
    ghost predicate Valid()
      reads this, Repr
    {
      && Rings()
      && perSecond.pushed == history
      && perMinute.pushed == Minutes(history)
      && perHour.pushed == Hours(history)
    }

    constructor ()
      ensures Valid() && fresh(Repr)
      ensures history == []
    {
      var seconds := new RingBuffer(SECONDS_KEPT, ZERO);
      var minutes := new RingBuffer(MINUTES_KEPT, ZERO);
      var hours := new RingBuffer(HOURS_KEPT, HourSample(Num(0.0), 0));
      perSecond, perMinute, perHour, history := seconds, minutes, hours, [];
      Repr := {this, seconds, minutes, hours, seconds.storage, minutes.storage, hours.storage};
    }

    /** Sum and number of those among the last 60 raw slots that lie in period `slot`. */
    method SumLast60(ring: RingBuffer<Sample>, period: Period, slot: nat) returns (sum: real, n: nat)
      requires ring.Valid() && 60 <= ring.capacity && ring.base == seq(ring.capacity, _ => ZERO)
      ensures sum == SumIn(Window(ring.pushed), period, slot)
      ensures n == CountIn(Window(ring.pushed), period, slot)
    {
      sum, n := 0.0, 0;
      ghost var window := Window(ring.pushed);
      for i := 0 to 60
        invariant sum == SumIn(window[..i], period, slot)
        invariant n == CountIn(window[..i], period, slot)
      {
        var dt := ring.At(-60 + i);
        assert dt == window[i];
        assert Init(window[..i + 1]) == window[..i];
        if dt.time / period == slot {
          sum := sum + dt.value;
          n := n + 1;
        }
      }
      assert window[..60] == window;
    }

    /** The minute record to push along with a sample taken at `time`: the average of the minute it closes. */
    method CloseMinute(time: nat) returns (record: seq<Sample>)
      requires Rings()
      ensures record == FastMinute(perSecond.pushed, time)
    {
      record := [];
      var hasData := perSecond.Size() != 0;
      var last := perSecond.At(-1);
      assert hasData <==> perSecond.pushed != [];
      assert hasData ==> last == Last(perSecond.pushed);
      var prevMinute := last.time / MINUTE;
      if hasData {
        NewestCounts(perSecond.pushed, MINUTE);
      }
      if hasData && prevMinute != time / MINUTE {
        var sum, n := SumLast60(perSecond, MINUTE, prevMinute);
        record := [Sample(sum / n as real, prevMinute * MINUTE)];
      }
    }

    /** The hour record to push along with that sample; the minute that the sample closes is not in it yet. */
    method CloseHour(time: nat) returns (record: seq<HourSample>)
      requires Rings()
      ensures record == FastHour(perMinute.pushed, Newest(perSecond.pushed), time)
    {
      record := [];
      var hasData := perMinute.Size() != 0;
      var last := perSecond.At(-1);
      assert last == Newest(perSecond.pushed) && (hasData <==> perMinute.pushed != []);
      var prevHour := last.time / HOUR;
      if hasData && prevHour != time / HOUR {
        var sum, n := SumLast60(perMinute, HOUR, prevHour);
        record := [HourSample(if n == 0 then NaN else Num(sum / n as real), prevHour * HOUR)];
      }
    }

    method PushRecords(second: Sample, minute: seq<Sample>, hour: seq<HourSample>)
      requires Rings() && |minute| <= 1 && |hour| <= 1
      modifies Repr - {this}
      ensures Rings()
      ensures perSecond.pushed == old(perSecond.pushed) + [second]
      ensures perMinute.pushed == old(perMinute.pushed) + minute
      ensures perHour.pushed == old(perHour.pushed) + hour
    {
      perSecond.Push(second);
      perMinute.PushOptional(minute);
      perHour.PushOptional(hour);
    }

    /** Whatever the clock does the buffers keep the newest samples, and of minutes and hours the newest records; with
        a clock that keeps to its guarantee those are the means of the groups. */
    method AddData(value: real, time: nat)
      requires Valid() && time < 0x1_0000_0000
      modifies Repr
      ensures Valid()
      ensures history == old(history) + [Sample(value, time)]
      ensures perSecond.Contents() == LastN(history, SECONDS_KEPT)
      ensures perMinute.Contents() == LastN(Minutes(history), MINUTES_KEPT)
      ensures perHour.Contents() == LastN(Hours(history), HOURS_KEPT)
      ensures Timeline(history) ==>
                && perMinute.Contents() == LastN(MinuteRecords(history), MINUTES_KEPT)
                && perHour.Contents() == LastN(HourRecords(history), HOURS_KEPT)
    {
      ghost var x := Sample(value, time);
      var newMinute := CloseMinute(time);
      var newHour := CloseHour(time);
      PushRecords(Sample(value, time), newMinute, newHour);
      assert Init(history + [x]) == history;
      history := history + [x];
      if Timeline(history) {
        RollUpsGroup(history);
      }
    }
  }
}
