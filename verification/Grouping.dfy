/** The simple reading of a roll-up: group the whole, unbounded sample history by period and average each group. */
module Grouping {
  import opened RingBuffers

  datatype Sample = Sample(value: real, time: nat)

  const ZERO := Sample(0.0, 0)

  /** The length of a period in seconds. */
  type Period = p: nat | 0 < p witness 1

  function Slot(s: Sample, period: Period): nat
  {
    s.time / period
  }

  function Last(h: seq<Sample>): Sample
    requires h != []
  {
    h[|h| - 1]
  }

  function Init(h: seq<Sample>): seq<Sample>
    requires h != []
  {
    h[..|h| - 1]
  }

  /** Sum of the values whose time lies in period number `slot`. */
  function SumIn(h: seq<Sample>, period: Period, slot: nat): real
  {
    if h == [] then 0.0
    else SumIn(Init(h), period, slot) + if Slot(Last(h), period) == slot then Last(h).value else 0.0
  }

  function CountIn(h: seq<Sample>, period: Period, slot: nat): nat
  {
    if h == [] then 0
    else CountIn(Init(h), period, slot) + if Slot(Last(h), period) == slot then 1 else 0
  }

  /** The mean over one period; 0 for a period without samples. */
  function MeanIn(h: seq<Sample>, period: Period, slot: nat): real
  {
    var n := CountIn(h, period, slot);
    if n == 0 then 0.0 else SumIn(h, period, slot) / n as real
  }

  predicate Sampled(h: seq<Sample>, period: Period, slot: nat)
  {
    0 < CountIn(h, period, slot)
  }

  ghost predicate Ordered(h: seq<Sample>) {
    forall i, j :: 0 <= i <= j < |h| ==> h[i].time <= h[j].time
  }

  /** No period holds more than the 60 entries a roll-over looks at. */
  ghost predicate Sparse(h: seq<Sample>, period: Period)
  {
    forall i, j :: 0 <= i && i + 60 <= j < |h| ==> Slot(h[i], period) != Slot(h[j], period)
  }

  /** The periods that have been sampled, oldest first, without the one still open. */
  function ClosedSlots(h: seq<Sample>, period: Period): seq<nat>
  {
    if |h| < 2 then []
    else
      var before := Init(h);
      ClosedSlots(before, period)
      + if Slot(Last(before), period) != Slot(Last(h), period) then [Slot(Last(before), period)] else []
  }

  // ---- what the definitions mean ----

  lemma SlotMonotone(a: Sample, b: Sample, period: Period)
    requires a.time <= b.time
    ensures Slot(a, period) <= Slot(b, period)
  {
    var q, r := a.time / period, b.time / period;
    assert a.time == q * period + a.time % period && b.time == r * period + b.time % period;
    if r < q {
      assert (r + 1) * period <= q * period;
    }
  }

  lemma {:induction false} SampledExact(h: seq<Sample>, period: Period, slot: nat)
    ensures Sampled(h, period, slot) <==> exists i :: 0 <= i < |h| && Slot(h[i], period) == slot
  {
    if h != [] {
      SampledExact(Init(h), period, slot);
      assert forall i :: 0 <= i < |h| - 1 ==> Init(h)[i] == h[i];
    }
  }

  lemma {:induction false} Absent(h: seq<Sample>, period: Period, slot: nat)
    requires forall i :: 0 <= i < |h| ==> Slot(h[i], period) != slot
    ensures SumIn(h, period, slot) == 0.0 && CountIn(h, period, slot) == 0
  {
    if h != [] {
      Absent(Init(h), period, slot);
    }
  }

  lemma {:induction false} SumSplit(a: seq<Sample>, b: seq<Sample>, period: Period, slot: nat)
    ensures SumIn(a + b, period, slot) == SumIn(a, period, slot) + SumIn(b, period, slot)
    ensures CountIn(a + b, period, slot) == CountIn(a, period, slot) + CountIn(b, period, slot)
  {
    if b == [] {
      assert a + b == a;
    } else {
      assert Init(a + b) == a + Init(b);
      SumSplit(a, Init(b), period, slot);
    }
  }

  lemma SampledNotAfterLast(h: seq<Sample>, period: Period, slot: nat)
    requires Ordered(h) && Sampled(h, period, slot)
    ensures slot <= Slot(Last(h), period)
  {
    SampledExact(h, period, slot);
    var i :| 0 <= i < |h| && Slot(h[i], period) == slot;
    SlotMonotone(h[i], Last(h), period);
  }

  /** The closed periods are exactly the sampled ones before the last, in strictly increasing order. */
  lemma {:induction false} ClosedSlotsExact(h: seq<Sample>, period: Period)
    requires Ordered(h) && h != []
    ensures forall i, j :: 0 <= i < j < |ClosedSlots(h, period)| ==>
              ClosedSlots(h, period)[i] < ClosedSlots(h, period)[j]
    ensures forall s: nat :: s in ClosedSlots(h, period) <==> Sampled(h, period, s) && s < Slot(Last(h), period)
  {
    if |h| == 1 {
      forall s: nat | Sampled(h, period, s) ensures s == Slot(Last(h), period) {
        assert CountIn(Init(h), period, s) == 0;
      }
      return;
    }
    var g := Init(h);
    ClosedSlotsExact(g, period);
    SlotMonotone(Last(g), Last(h), period);
    var closed := ClosedSlots(g, period);
    assert forall i :: 0 <= i < |closed| ==> closed[i] in closed;
    forall s: nat ensures s in ClosedSlots(h, period) <==> Sampled(h, period, s) && s < Slot(Last(h), period) {
      if Sampled(g, period, s) {
        SampledNotAfterLast(g, period, s);
      }
    }
  }

  /** A sample in a later period changes neither the sum nor the count of a period before it. */
  lemma MeanStable(h: seq<Sample>, x: Sample, period: Period, slot: nat)
    requires Slot(x, period) != slot
    ensures SumIn(h + [x], period, slot) == SumIn(h, period, slot)
    ensures CountIn(h + [x], period, slot) == CountIn(h, period, slot)
  {
    assert Init(h + [x]) == h;
  }

  // ---- the fast form: the last 60 raw slots ----

  /** What a ring buffer shows at indices -60 .. -1 after `h` has been pushed into zeroed storage. */
  function Window(h: seq<Sample>): (w: seq<Sample>)
    ensures |w| == 60
  {
    if 60 <= |h| then h[|h| - 60..] else seq(60 - |h|, _ => ZERO) + h
  }

  /** Looking only at the last 60 raw slots loses nothing for the newest period or a later one: the entries
      of that period lie within them, and a slot never written cannot be mistaken for one of them. */
  lemma WindowSuffices(h: seq<Sample>, period: Period, slot: nat)
    requires 0 < slot && Ordered(h) && Sparse(h, period)
    requires h != [] ==> Slot(Last(h), period) <= slot
    ensures SumIn(Window(h), period, slot) == SumIn(h, period, slot)
    ensures CountIn(Window(h), period, slot) == CountIn(h, period, slot)
  {
    if 60 <= |h| {
      var unseen := h[..|h| - 60];
      assert h == unseen + Window(h);
      SumSplit(unseen, Window(h), period, slot);
      forall i | 0 <= i < |unseen| ensures Slot(unseen[i], period) != slot {
        SlotMonotone(h[i], Last(h), period);
        assert unseen[i] == h[i] && i + 60 <= |h| - 1;
      }
      Absent(unseen, period, slot);
    } else {
      WindowOfFew(h, period, slot);
    }
  }

  /** The newest entry is always among them, whatever the clock did. */
  lemma NewestCounts(h: seq<Sample>, period: Period)
    requires h != []
    ensures 0 < CountIn(Window(h), period, Slot(Last(h), period))
  {
    assert Last(Window(h)) == Last(h);
  }

  /** With a clock that never goes back a roll-over sees exactly 60 entries of the newest period, or all there are. */
  lemma WindowCount(h: seq<Sample>, period: Period)
    requires Ordered(h) && h != [] && 0 < Slot(Last(h), period)
    ensures var slot := Slot(Last(h), period);
            CountIn(Window(h), period, slot) == if CountIn(h, period, slot) < 60 then CountIn(h, period, slot) else 60
  {
    var slot := Slot(Last(h), period);
    if |h| < 60 {
      WindowOfFew(h, period, slot);
      CountBounded(h, period, slot);
    } else {
      var unseen := h[..|h| - 60];
      assert h == unseen + Window(h);
      SumSplit(unseen, Window(h), period, slot);
      CountBounded(Window(h), period, slot);
      if Slot(h[|h| - 60], period) == slot {
        AllCount(h, Window(h), period, slot);
      } else {
        forall i | 0 <= i < |unseen| ensures Slot(unseen[i], period) != slot {
          SlotMonotone(h[i], h[|h| - 60], period);
          SlotMonotone(h[|h| - 60], Last(h), period);
        }
        Absent(unseen, period, slot);
      }
    }
  }

  lemma WindowOfFew(h: seq<Sample>, period: Period, slot: nat)
    requires |h| < 60 && 0 < slot
    ensures SumIn(Window(h), period, slot) == SumIn(h, period, slot)
    ensures CountIn(Window(h), period, slot) == CountIn(h, period, slot)
  {
    var unused := seq(60 - |h|, _ => ZERO);
    SumSplit(unused, h, period, slot);
    assert 0 / period == 0;
    Absent(unused, period, slot);
  }

  lemma {:induction false} CountBounded(h: seq<Sample>, period: Period, slot: nat)
    ensures CountIn(h, period, slot) <= |h|
  {
    if h != [] {
      CountBounded(Init(h), period, slot);
    }
  }

  lemma AllCount(h: seq<Sample>, window: seq<Sample>, period: Period, slot: nat)
    requires Ordered(h) && 60 <= |h| && window == h[|h| - 60..]
    requires Slot(h[|h| - 60], period) == slot == Slot(Last(h), period)
    ensures CountIn(window, period, slot) == 60
  {
    forall i | 0 <= i < |window| ensures Slot(window[i], period) == slot {
      SlotMonotone(h[|h| - 60], h[|h| - 60 + i], period);
      SlotMonotone(h[|h| - 60 + i], Last(h), period);
    }
    CountOfAll(window, period, slot);
  }

  lemma {:induction false} CountOfAll(h: seq<Sample>, period: Period, slot: nat)
    requires forall i :: 0 <= i < |h| ==> Slot(h[i], period) == slot
    ensures CountIn(h, period, slot) == |h|
  {
    if h != [] {
      CountOfAll(Init(h), period, slot);
    }
  }

  // ---- the records a roll-over should have produced ----

  const MINUTE := 60
  const HOUR := 3600

  /** One record per closed minute: the mean over everything ever sampled in it. */
  function MinuteRecords(h: seq<Sample>): (records: seq<Sample>)
    ensures |records| == |ClosedSlots(h, MINUTE)|
  {
    var minutes := ClosedSlots(h, MINUTE);
    seq(|minutes|, i requires 0 <= i < |minutes| => Sample(MeanIn(h, MINUTE, minutes[i]), minutes[i] * MINUTE))
  }

  /** A stored hour value: a float, which is not a number when the code divides by zero. */
  datatype Float = NaN | Num(value: real)
  datatype HourSample = HourSample(data: Float, time: nat)

  /** The samples taken up to the end of hour `hour`. */
  function UpToHour(h: seq<Sample>, hour: nat): seq<Sample> {
    if h == [] || Slot(Last(h), HOUR) <= hour then h else UpToHour(Init(h), hour)
  }

  /** The record for one closed hour: the mean of the minute records that exist when the hour closes, that is
      of all its sampled minutes but the closing one. There is none while no minute record exists at all. */
  function HourRecord(h: seq<Sample>, hour: nat): (record: seq<HourSample>) {
    var minutes := MinuteRecords(UpToHour(h, hour));
    if minutes == [] then []
    else
      var n := CountIn(minutes, HOUR, hour);
      [HourSample(if n == 0 then NaN else Num(SumIn(minutes, HOUR, hour) / n as real), hour * HOUR)]
  }

  function HourRecordsOf(h: seq<Sample>, hours: seq<nat>): seq<HourSample> {
    if hours == [] then []
    else HourRecordsOf(h, hours[..|hours| - 1]) + HourRecord(h, hours[|hours| - 1])
  }

  function HourRecords(h: seq<Sample>): seq<HourSample> {
    HourRecordsOf(h, ClosedSlots(h, HOUR))
  }

  // ---- one more sample ----

  lemma ClosedStep(h: seq<Sample>, x: Sample, period: Period)
    requires h != [] && Ordered(h + [x])
    ensures Slot(Last(h), period) <= Slot(x, period)
    ensures ClosedSlots(h + [x], period) == ClosedSlots(h, period)
      + if Slot(Last(h), period) == Slot(x, period) then [] else [Slot(Last(h), period)]
    ensures forall i :: 0 <= i < |ClosedSlots(h, period)| ==> ClosedSlots(h, period)[i] < Slot(Last(h), period)
  {
    assert Init(h + [x]) == h;
    OrderedPrefix(h, x);
    ClosedSlotsExact(h, period);
    SlotMonotone(Last(h), x, period);
    assert forall i :: 0 <= i < |ClosedSlots(h, period)| ==> ClosedSlots(h, period)[i] in ClosedSlots(h, period);
  }

  lemma MinuteStep(h: seq<Sample>, x: Sample)
    requires h != [] && Ordered(h + [x])
    ensures MinuteRecords(h + [x]) == MinuteRecords(h)
      + if Slot(Last(h), MINUTE) == Slot(x, MINUTE) then []
        else [Sample(MeanIn(h, MINUTE, Slot(Last(h), MINUTE)), Slot(Last(h), MINUTE) * MINUTE)]
  {
    ClosedStep(h, x, MINUTE);
    var after := ClosedSlots(h + [x], MINUTE);
    forall i | 0 <= i < |ClosedSlots(h, MINUTE)|
      ensures MeanIn(h + [x], MINUTE, after[i]) == MeanIn(h, MINUTE, after[i])
    {
      MeanStable(h, x, MINUTE, after[i]);
    }
    if Slot(Last(h), MINUTE) != Slot(x, MINUTE) {
      MeanStable(h, x, MINUTE, Slot(Last(h), MINUTE));
    }
  }

  lemma OrderedPrefix(h: seq<Sample>, x: Sample)
    requires Ordered(h + [x])
    ensures Ordered(h) && (h != [] ==> Last(h).time <= x.time)
  {
    forall i, j | 0 <= i <= j < |h| ensures h[i].time <= h[j].time {
      assert (h + [x])[i].time <= (h + [x])[j].time;
    }
    if h != [] {
      assert (h + [x])[|h| - 1].time <= (h + [x])[|h|].time;
    }
  }

  lemma {:induction false} HourRecordsStable(h: seq<Sample>, x: Sample, hours: seq<nat>)
    requires forall i :: 0 <= i < |hours| ==> hours[i] < Slot(x, HOUR)
    ensures HourRecordsOf(h + [x], hours) == HourRecordsOf(h, hours)
  {
    if hours != [] {
      assert Init(h + [x]) == h;
      HourRecordsStable(h, x, hours[..|hours| - 1]);
    }
  }

  lemma HourRecordsAppend(h: seq<Sample>, hours: seq<nat>, hour: nat)
    ensures HourRecordsOf(h, hours + [hour]) == HourRecordsOf(h, hours) + HourRecord(h, hour)
  {
    assert (hours + [hour])[..|hours|] == hours;
  }

  lemma ClosingHour(h: seq<Sample>, x: Sample)
    requires h != [] && Slot(Last(h), HOUR) < Slot(x, HOUR)
    ensures HourRecord(h + [x], Slot(Last(h), HOUR)) == HourRecord(h, Slot(Last(h), HOUR))
  {
    assert Init(h + [x]) == h;
  }

  lemma HourStep(h: seq<Sample>, x: Sample)
    requires h != [] && Ordered(h + [x])
    ensures HourRecords(h + [x]) == HourRecords(h)
      + if Slot(Last(h), HOUR) == Slot(x, HOUR) then [] else HourRecord(h, Slot(Last(h), HOUR))
  {
    ClosedStep(h, x, HOUR);
    var before, last := ClosedSlots(h, HOUR), Slot(Last(h), HOUR);
    HourRecordsStable(h, x, before);
    if last != Slot(x, HOUR) {
      HourRecordsAppend(h + [x], before, last);
      ClosingHour(h, x);
    } else {
      assert ClosedSlots(h + [x], HOUR) == before;
    }
  }

  // ---- minute records are themselves a sparse series ----

  lemma {:induction false} StrictlyIncreasingGap(s: seq<nat>, i: nat, j: nat)
    requires i <= j < |s| && forall a, b :: 0 <= a < b < |s| ==> s[a] < s[b]
    ensures s[i] + (j - i) <= s[j]
  {
    if i < j {
      StrictlyIncreasingGap(s, i, j - 1);
    }
  }

  lemma MinuteRecordsSparse(h: seq<Sample>)
    requires Ordered(h)
    ensures Ordered(MinuteRecords(h)) && Sparse(MinuteRecords(h), HOUR)
    ensures h != [] && MinuteRecords(h) != [] ==> Slot(Last(MinuteRecords(h)), HOUR) <= Slot(Last(h), HOUR)
  {
    if h != [] {
      var minutes, records := ClosedSlots(h, MINUTE), MinuteRecords(h);
      ClosedSlotsExact(h, MINUTE);
      forall i, j | 0 <= i && i + 60 <= j < |records| ensures Slot(records[i], HOUR) != Slot(records[j], HOUR) {
        StrictlyIncreasingGap(minutes, i, j);
      }
      if records != [] {
        assert minutes[|minutes| - 1] in minutes;
      }
    }
  }

  // ---- when an hour value is a number ----

  /** Some two samples of the hour lie in different minutes. */
  ghost predicate TwoMinutes(h: seq<Sample>, hour: nat) {
    exists i, j :: 0 <= i < j < |h| && Slot(h[i], HOUR) == hour == Slot(h[j], HOUR)
                   && Slot(h[i], MINUTE) != Slot(h[j], MINUTE)
  }

  lemma {:induction false} UpToHourPrefix(h: seq<Sample>, hour: nat) returns (k: nat)
    requires Ordered(h)
    ensures k <= |h| && UpToHour(h, hour) == h[..k]
    ensures forall i :: 0 <= i < |h| ==> (Slot(h[i], HOUR) <= hour <==> i < k)
  {
    if h == [] {
      return 0;
    }
    forall i | 0 <= i < |h| ensures Slot(h[i], HOUR) <= Slot(Last(h), HOUR) {
      SlotMonotone(h[i], Last(h), HOUR);
    }
    if Slot(Last(h), HOUR) <= hour {
      k := |h|;
    } else {
      k := UpToHourPrefix(Init(h), hour);
      assert forall i :: 0 <= i < |h| - 1 ==> Init(h)[i] == h[i];
    }
  }

  /** Some sample of the hour was taken before the newest minute. */
  ghost predicate EarlierSample(p: seq<Sample>, hour: nat)
    requires p != []
  {
    exists i :: 0 <= i < |p| && Slot(p[i], HOUR) == hour && Slot(p[i], MINUTE) < Slot(Last(p), MINUTE)
  }

  /** A minute record falls into an hour exactly when some earlier minute than the newest was sampled in it. */
  lemma MinuteRecordInHour(p: seq<Sample>, hour: nat)
    requires p != [] && Ordered(p)
    ensures Sampled(MinuteRecords(p), HOUR, hour)
       <==> EarlierSample(p, hour)
  {
    if Sampled(MinuteRecords(p), HOUR, hour) {
      SampleOfRecord(p, hour);
    }
    if i :| 0 <= i < |p| && Slot(p[i], HOUR) == hour && Slot(p[i], MINUTE) < Slot(Last(p), MINUTE) {
      RecordOfSample(p, i);
    }
  }

  /** A minute record carries the hour of the samples it averages. */
  lemma SameHour(s: Sample, record: Sample)
    requires record.time == Slot(s, MINUTE) * MINUTE
    ensures Slot(record, HOUR) == Slot(s, HOUR)
  {
    var hour, rest := s.time / HOUR, s.time % HOUR;
    assert s.time == hour * HOUR + rest;
    assert s.time / MINUTE == hour * 60 + rest / MINUTE;
    assert record.time == hour * HOUR + rest / MINUTE * MINUTE && rest / MINUTE * MINUTE < HOUR;
  }

  lemma SampleOfRecord(p: seq<Sample>, hour: nat)
    requires p != [] && Ordered(p) && Sampled(MinuteRecords(p), HOUR, hour)
    ensures EarlierSample(p, hour)
  {
    var minutes, records := ClosedSlots(p, MINUTE), MinuteRecords(p);
    SampledExact(records, HOUR, hour);
    var k :| 0 <= k < |records| && Slot(records[k], HOUR) == hour;
    ClosedSlotsExact(p, MINUTE);
    assert minutes[k] in minutes;
    SampledExact(p, MINUTE, minutes[k]);
    var i :| 0 <= i < |p| && Slot(p[i], MINUTE) == minutes[k];
    SameHour(p[i], records[k]);
  }

  lemma RecordOfSample(p: seq<Sample>, i: nat)
    requires Ordered(p) && i < |p| && Slot(p[i], MINUTE) < Slot(Last(p), MINUTE)
    ensures Sampled(MinuteRecords(p), HOUR, Slot(p[i], HOUR))
  {
    var minutes, records := ClosedSlots(p, MINUTE), MinuteRecords(p);
    ClosedSlotsExact(p, MINUTE);
    SampledExact(p, MINUTE, Slot(p[i], MINUTE));
    assert Slot(p[i], MINUTE) in minutes;
    var k :| 0 <= k < |minutes| && minutes[k] == Slot(p[i], MINUTE);
    SameHour(p[i], records[k]);
    SampledExact(records, HOUR, Slot(p[i], HOUR));
  }

  /** The value recorded for a closed hour is a number if and only if the hour was sampled in two minutes;
      otherwise it is the quotient 0/0, or missing when no minute had been closed before. */
  lemma HourIsNumber(h: seq<Sample>, hour: nat)
    requires Ordered(h) && Sampled(h, HOUR, hour)
    ensures (HourRecord(h, hour) != [] && HourRecord(h, hour)[0].data.Num?) <==> TwoMinutes(h, hour)
  {
    var k := UpToHourPrefix(h, hour);
    SampledExact(h, HOUR, hour);
    var w :| 0 <= w < |h| && Slot(h[w], HOUR) == hour;
    SlotMonotone(h[w], h[k - 1], HOUR);
    EarlierMinute(h, hour, k);
    MinuteRecordInHour(h[..k], hour);
  }

  lemma EarlierMinute(h: seq<Sample>, hour: nat, k: nat)
    requires Ordered(h) && 0 < k <= |h| && Slot(h[k - 1], HOUR) == hour
    requires forall i :: 0 <= i < |h| ==> (Slot(h[i], HOUR) <= hour <==> i < k)
    ensures TwoMinutes(h, hour) <==> EarlierSample(h[..k], hour)
  {
    var p := h[..k];
    if i :| 0 <= i < |p| && Slot(p[i], HOUR) == hour && Slot(p[i], MINUTE) < Slot(Last(p), MINUTE) {
      assert p[i] == h[i] && Last(p) == h[k - 1];
    }
    if TwoMinutes(h, hour) {
      var i, j :| 0 <= i < j < |h| && Slot(h[i], HOUR) == hour == Slot(h[j], HOUR)
                  && Slot(h[i], MINUTE) != Slot(h[j], MINUTE);
      SlotMonotone(h[i], h[j], MINUTE);
      SlotMonotone(h[j], h[k - 1], MINUTE);
      assert p[i] == h[i] && Last(p) == h[k - 1];
    }
  }
}
