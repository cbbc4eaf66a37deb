/**
  What a clock change does to a delivery day: to its length, to the peak block
  (src/shiden/timeaxis.py), to the repeated hour, and to the hourly buckets of
  the facts (src/shiden/processing/gold/gold_price_hourly.py,
  src/shiden/processing/silver/fact_generation.py,
  src/shiden/processing/delta_io.py).
 */
module DeliveryDays {
  import opened Options
  import opened TimeAxis

  // --------------------------------------------------- days with one transition

  /**
    A clean day whose offset is the midnight's until `at` and `delta` slots
    more from there to the next midnight: forward when positive, backward when
    negative, and an ordinary day when zero.
   */
  ghost predicate OneShift(z: Zone, d: int, at: int, delta: int) {
    && CleanDay(z, d) && Midnight(z, d) <= at <= Midnight(z, d + 1)
    && (forall u :: Midnight(z, d) <= u < at ==> OffsetAt(z, u) == MidnightOffset(z, d))
    && (forall u :: at <= u < Midnight(z, d + 1) ==> OffsetAt(z, u) == MidnightOffset(z, d) + delta)
    && MidnightOffset(z, d + 1) == MidnightOffset(z, d) + delta
  }

  /** `z` continues `stage` with transitions none of which touches the wall clock before `wall`. */
  predicate Continues(stage: Zone, z: Zone, wall: int) {
    stage == z || (z.Shift? && wall <= WallLo(z) && Continues(stage, z.before, wall))
  }

  /** A transition after the day leaves the day as it was. */
  lemma LaterTransition(z: Zone, d: int, at: int, delta: int)
    requires WellFormed(z) && z.Shift? && OneShift(z.before, d, at, delta) && SLOTS_PER_DAY * (d + 1) <= WallLo(z)
    ensures OneShift(z, d, at, delta)
  {
    var wall := SLOTS_PER_DAY * (d + 1);
    if WallHi(z) <= wall { NotStraddledLater(z.before, wall); }
    assert WallOffset(z, wall) == WallOffset(z.before, wall);
    assert WallOffset(z, SLOTS_PER_DAY * d) == WallOffset(z.before, SLOTS_PER_DAY * d);
    SplitsAt(z.before, wall, z.at);
    assert Local(z.before, z.at) == z.at + z.before.offset;
    assert Midnight(z.before, d + 1) <= z.at;
    assert Midnight(z, d) == Midnight(z.before, d) && Midnight(z, d + 1) == Midnight(z.before, d + 1);
    assert CleanDay(z, d);
    assert MidnightOffset(z, d) == MidnightOffset(z.before, d);
    forall u | Midnight(z, d) <= u < at ensures OffsetAt(z, u) == MidnightOffset(z, d) {
      assert OffsetAt(z.before, u) == MidnightOffset(z.before, d);
    }
    forall u | at <= u < Midnight(z, d + 1) ensures OffsetAt(z, u) == MidnightOffset(z, d) + delta {
      assert OffsetAt(z.before, u) == MidnightOffset(z.before, d) + delta;
    }
  }

  lemma {:induction false} ContinuedDay(stage: Zone, z: Zone, d: int, at: int, delta: int)
    requires WellFormed(z) && Continues(stage, z, SLOTS_PER_DAY * (d + 1)) && OneShift(stage, d, at, delta)
    ensures OneShift(z, d, at, delta)
  {
    if stage != z {
      ContinuedDay(stage, z.before, d, at, delta);
      LaterTransition(z, d, at, delta);
    }
  }

  /**
    Any transition of a zone - `stage` ends with it - makes such a day when its
    effect on the wall clock lies within the day and that of its neighbours
    without.
   */
  lemma TransitionDay(stage: Zone, z: Zone, d: int)
    requires WellFormed(z) && Continues(stage, z, SLOTS_PER_DAY * (d + 1)) && WellFormed(stage) && stage.Shift?
    requires stage.before.Shift? ==> WallHi(stage.before) <= SLOTS_PER_DAY * d
    requires SLOTS_PER_DAY * d <= WallLo(stage) && WallHi(stage) <= SLOTS_PER_DAY * (d + 1)
    ensures OneShift(z, d, stage.at, stage.offset - stage.before.offset)
  {
    LatestTransitionDay(stage, d);
    ContinuedDay(stage, z, d, stage.at, stage.offset - stage.before.offset);
  }

  lemma LatestTransitionDay(z: Zone, d: int)
    requires WellFormed(z) && z.Shift? && (z.before.Shift? ==> WallHi(z.before) <= SLOTS_PER_DAY * d)
    requires SLOTS_PER_DAY * d <= WallLo(z) && WallHi(z) <= SLOTS_PER_DAY * (d + 1)
    ensures OneShift(z, d, z.at, z.offset - z.before.offset)
  {
    var wall := SLOTS_PER_DAY * d;
    NotStraddledLater(z.before, wall);
    NotStraddledLater(z, SLOTS_PER_DAY * (d + 1));
    assert MidnightOffset(z, d) == z.before.offset && MidnightOffset(z, d + 1) == z.offset;
    assert z.before.Shift? ==> z.before.at <= Midnight(z, d);
    forall u | z.at <= u < Midnight(z, d + 1)
      ensures OffsetAt(z, u) == MidnightOffset(z, d) + (z.offset - z.before.offset) {}
  }

  /** A day that falls between the effects of two transitions has one offset, and no shift. */
  lemma QuietDay(stage: Zone, z: Zone, d: int)
    requires WellFormed(z) && Continues(stage, z, SLOTS_PER_DAY * (d + 1)) && WellFormed(stage)
    requires stage.Shift? ==> WallHi(stage) <= SLOTS_PER_DAY * d
    ensures OneShift(z, d, Midnight(stage, d), 0)
  {
    QuietEnd(stage, d);
    ContinuedDay(stage, z, d, Midnight(stage, d), 0);
  }

  lemma QuietEnd(z: Zone, d: int)
    requires WellFormed(z) && (z.Shift? ==> WallHi(z) <= SLOTS_PER_DAY * d)
    ensures OneShift(z, d, Midnight(z, d), 0)
  {
    NotStraddledLater(z, SLOTS_PER_DAY * d);
    NotStraddledLater(z, SLOTS_PER_DAY * (d + 1));
    assert MidnightOffset(z, d) == z.offset && MidnightOffset(z, d + 1) == z.offset;
    assert z.Shift? ==> z.at <= Midnight(z, d);
  }

  /** 92, 96 or 100 intervals: the day loses what the clock gains. */
  lemma DayLength(z: Zone, d: int, at: int, delta: int)
    requires WellFormed(z) && OneShift(z, d, at, delta)
    ensures DayCount(z, d) == SLOTS_PER_DAY - delta
  {
    DayOwnsItsDate(z, d, at);
  }

  /** What a backward move repeats lies within the day: it does not reach back over midnight. */
  lemma ShiftFits(z: Zone, d: int, at: int, delta: int)
    requires WellFormed(z) && OneShift(z, d, at, delta)
    ensures Midnight(z, d) <= at + delta || delta >= 0
  {
    DayLength(z, d, at, delta);
    DayOwnsItsDate(z, d, at);
  }

  /** The local reading of slot k of such a day. */
  lemma ReadingAt(z: Zone, d: int, at: int, delta: int, k: nat)
    requires WellFormed(z) && OneShift(z, d, at, delta) && k < DayCount(z, d)
    ensures TimeId(z, Midnight(z, d) + k) == k + if Midnight(z, d) + k < at then 0 else delta
  {
    DayOwnsItsDate(z, d, Midnight(z, d) + k);
  }

  // -------------------------------------------------------------- the peak block

  /** The interval numbers flagged peak. */
  function Peaks(intervals: seq<Interval>): seq<int> {
    if intervals == [] then []
    else
      var last := intervals[|intervals| - 1];
      Peaks(intervals[..|intervals| - 1]) + if last.isPeak then [last.intervalOfDay] else []
  }

  /** `peak_interval_range`; without a peak interval the source raises ValueError. */
  function PeakIntervalRange(intervals: seq<Interval>): Option<(int, int)> {
    var peaks := Peaks(intervals);
    if peaks == [] then None else Some((peaks[0], peaks[|peaks| - 1]))
  }

  lemma {:induction false} PeaksOfBlock(intervals: seq<Interval>, lo: int, hi: int)
    requires 1 <= lo <= hi
    requires forall k :: 0 <= k < |intervals| ==>
      intervals[k].intervalOfDay == k + 1 && (intervals[k].isPeak <==> lo <= k + 1 <= hi)
    ensures
      var peaks, n := Peaks(intervals), Max(0, Min(|intervals|, hi) - lo + 1);
      |peaks| == n && forall i :: 0 <= i < n ==> peaks[i] == lo + i
  {
    if intervals != [] { PeaksOfBlock(intervals[..|intervals| - 1], lo, hi); }
  }

  /**
    The market operator's own label: when the clock moves `delta` slots before
    the peak begins, the peak block is unbroken and its interval numbers move
    back by `delta` (33-80 becomes 29-76 in spring and 37-84 in autumn).
   */
  lemma PeakShift(z: Zone, d: int, at: int, delta: int, peak: Peak)
    requires WellFormed(z) && OneShift(z, d, at, delta)
    requires 0 <= peak.startHour < peak.endHour <= 24
    requires
      var peakStart := SLOTS_PER_DAY * d + SLOTS_PER_HOUR * peak.startHour;
      at + MidnightOffset(z, d) <= peakStart && at + MidnightOffset(z, d) + delta <= peakStart
    ensures
      var first, last := SLOTS_PER_HOUR * peak.startHour + 1 - delta, SLOTS_PER_HOUR * peak.endHour - delta;
      && PeakIntervalRange(DayAxis(z, d, peak)) == Some((first, last))
      && |Peaks(DayAxis(z, d, peak))| == last - first + 1
  {
    var first, last := SLOTS_PER_HOUR * peak.startHour + 1 - delta, SLOTS_PER_HOUR * peak.endHour - delta;
    var ivs := DayAxis(z, d, peak);
    DayLength(z, d, at, delta);
    forall k | 0 <= k < |ivs| ensures ivs[k].intervalOfDay == k + 1 && (ivs[k].isPeak <==> first <= k + 1 <= last) {
      ReadingAt(z, d, at, delta, k);
    }
    PeaksOfBlock(ivs, first, last);
  }

  // ----------------------------------------------------------- the repeated hour

  /**
    Exactly the slots after a backward move up to its own length are flagged
    repeated; a forward move, or none, flags nothing.
   */
  lemma RepeatedSlots(z: Zone, d: int, at: int, delta: int, peak: Peak, k: nat)
    requires WellFormed(z) && OneShift(z, d, at, delta) && k < DayCount(z, d)
    ensures DayAxis(z, d, peak)[k].isRepeatedHour <==> at <= Midnight(z, d) + k < at - delta
  {
    var m := Midnight(z, d);
    ShiftFits(z, d, at, delta);
    ReadingAt(z, d, at, delta, k);
    forall v | m <= v < m + k ensures TimeId(z, v) == v - m + if v < at then 0 else delta {
      ReadingAt(z, d, at, delta, v - m);
    }
    if at <= m + k < at - delta {
      assert TimeId(z, m + k + delta) == TimeId(z, m + k);
    }
  }

  /** All of the repeated slots fit the day, and the repeat flag tells apart what the clock position does not. */
  lemma RepeatFlagSeparates(z: Zone, d: int, at: int, delta: int, peak: Peak, i: nat, j: nat)
    requires WellFormed(z) && OneShift(z, d, at, delta) && i < j < DayCount(z, d)
    ensures delta < 0 ==> at - delta <= Midnight(z, d + 1)
    ensures
      var (a, b) := (DayAxis(z, d, peak)[i], DayAxis(z, d, peak)[j]);
      && (a.localTimeId != b.localTimeId || a.isRepeatedHour != b.isRepeatedHour)
      && (a.localTimeId == b.localTimeId <==> delta < 0 && at <= Midnight(z, d) + j < at - delta && i == j + delta)
  {
    ReadingAt(z, d, at, delta, i);
    ReadingAt(z, d, at, delta, j);
    RepeatedSlots(z, d, at, delta, peak, i);
    RepeatedSlots(z, d, at, delta, peak, j);
    DayLength(z, d, at, delta);
    ShiftFits(z, d, at, delta);
    if delta < 0 { ReadingAt(z, d, at, delta, at - 1 - Midnight(z, d)); }
  }

  // --------------------------------------------------------------- hour buckets

  /** All offsets are whole hours and all transitions fall on UTC hours. */
  predicate WholeHours(z: Zone) {
    z.offset % SLOTS_PER_HOUR == 0 &&
    (z.Shift? ==> z.at % SLOTS_PER_HOUR == 0 && WholeHours(z.before))
  }

  /** `date_trunc("hour", timestamp_utc)`. */
  function UtcHour(u: int): int { u / SLOTS_PER_HOUR }

  /** The label pair the facts carry beside the UTC hour: local date and local hour. */
  function HourLabel(z: Zone, u: int): (int, int) {
    (Local(z, u) / SLOTS_PER_DAY, TimeId(z, u) / SLOTS_PER_HOUR)
  }

  lemma {:induction false} WholeHourFacts(z: Zone, u: int, wall: int)
    requires WholeHours(z)
    ensures OffsetAt(z, u) % SLOTS_PER_HOUR == 0 && WallOffset(z, wall) % SLOTS_PER_HOUR == 0
    ensures OffsetAt(z, SLOTS_PER_HOUR * UtcHour(u)) == OffsetAt(z, u)
  {
    if z.Shift? { WholeHourFacts(z.before, u, wall); }
  }

  /** The local hour, counted through the dates, that a UTC hour falls in. */
  function HourIndex(z: Zone, h: int): int { Local(z, SLOTS_PER_HOUR * h) / SLOTS_PER_HOUR }

  /** In a whole-hour zone the quarters of a UTC hour are the quarters of one local hour. */
  lemma Quarters(z: Zone, h: int, q: int)
    requires WholeHours(z) && 0 <= q < SLOTS_PER_HOUR
    ensures
      var u, i := SLOTS_PER_HOUR * h + q, HourIndex(z, h);
      && UtcHour(u) == h && Local(z, u) == SLOTS_PER_HOUR * i + q
      && TimeId(z, u) == SLOTS_PER_HOUR * (i % 24) + q && HourLabel(z, u) == (i / 24, i % 24)
  {
    var u := SLOTS_PER_HOUR * h + q;
    HourOf(u, h, q);
    WholeHourFacts(z, u, 0);
    WholeSum(h, OffsetAt(z, u));
    HourArithmetic(HourIndex(z, h), q);
  }

  lemma HourOf(u: int, h: int, q: int)
    requires u == 4 * h + q && 0 <= q < 4
    ensures u / 4 == h && u % 4 == q
  {}

  lemma WholeSum(h: int, o: int)
    requires o % 4 == 0
    ensures 4 * h + o == 4 * (h + o / 4) && (4 * h + o) / 4 == h + o / 4
  {}

  lemma HourArithmetic(i: int, q: int)
    requires 0 <= q < 4
    ensures (4 * i + q) / 96 == i / 24 && (4 * i + q) % 96 == 4 * (i % 24) + q && (4 * (i % 24) + q) / 4 == i % 24
  {
    var days, hour := i / 24, i % 24;
    assert 4 * i + q == 96 * days + (4 * hour + q);
  }

  /** A day's midnights fall on UTC hours. */
  lemma MidnightHours(z: Zone, d: int)
    requires WholeHours(z)
    ensures Midnight(z, d) == SLOTS_PER_HOUR * UtcHour(Midnight(z, d))
  {
    WholeHourFacts(z, 0, SLOTS_PER_DAY * d);
    WholeSum(24 * d, -WallOffset(z, SLOTS_PER_DAY * d));
  }

  /**
    In a whole-hour zone every UTC hour of a day lies inside the day and has
    one label and one hour start, so an hourly row averages four intervals of
    one local hour and any of their labels is the row's label.
   */
  lemma HourBucket(z: Zone, d: int, u: int, q: int)
    requires WellFormed(z) && WholeHours(z) && CleanDay(z, d) && 0 <= q < SLOTS_PER_HOUR
    requires Midnight(z, d) <= u < Midnight(z, d + 1)
    ensures
      var v := SLOTS_PER_HOUR * UtcHour(u) + q;
      && Midnight(z, d) <= v < Midnight(z, d + 1) && UtcHour(v) == UtcHour(u)
      && HourLabel(z, v) == HourLabel(z, u)
      && (TimeId(z, v) % SLOTS_PER_HOUR == 0 <==> q == 0)
  {
    var h := UtcHour(u);
    Quarters(z, h, q);
    Quarters(z, h, u % SLOTS_PER_HOUR);
    HourOf(SLOTS_PER_HOUR * (HourIndex(z, h) % 24) + q, HourIndex(z, h) % 24, q);
    MidnightHours(z, d);
    MidnightHours(z, d + 1);
    InWholeRange(u, UtcHour(Midnight(z, d)), UtcHour(Midnight(z, d + 1)), q);
  }

  lemma InWholeRange(u: int, lo: int, hi: int, q: int)
    requires 4 * lo <= u < 4 * hi && 0 <= q < 4
    ensures 4 * lo <= 4 * (u / 4) + q < 4 * hi
  {}

  /**
    What the join on the truncated hour relies on: of the rows of one UTC hour
    of the day exactly one is flagged as an hour start, the one at the hour's
    first instant, and it carries the label of all of them.
   */
  lemma OneHourStart(z: Zone, d: int, peak: Peak, i: nat) returns (s: nat)
    requires WellFormed(z) && WholeHours(z) && CleanDay(z, d) && i < DayCount(z, d)
    ensures s < DayCount(z, d)
    ensures
      var axis := DayAxis(z, d, peak);
      && axis[s].utc == 4 * (axis[i].utc / 4) && axis[s].isHourStart
      && axis[s].LocalDate() == axis[i].LocalDate() && axis[s].localHour == axis[i].localHour
      && forall k :: 0 <= k < DayCount(z, d) && axis[k].utc / 4 == axis[i].utc / 4 ==> (axis[k].isHourStart <==> k == s)
  {
    var m := Midnight(z, d);
    var u := m + i;
    HourBucket(z, d, u, 0);
    HourBucket(z, d, u, u % SLOTS_PER_HOUR);
    s := SLOTS_PER_HOUR * UtcHour(u) - m;
    SlotLabel(z, d, peak, s);
    SlotLabel(z, d, peak, i);
    forall k | 0 <= k < DayCount(z, d) && (m + k) / 4 == u / 4 ensures DayAxis(z, d, peak)[k].isHourStart <==> k == s {
      HourBucket(z, d, u, (m + k) % SLOTS_PER_HOUR);
      SlotLabel(z, d, peak, k);
    }
  }

  /** The label and the flag of a slot, from its local reading. */
  lemma SlotLabel(z: Zone, d: int, peak: Peak, k: nat)
    requires k < DayCount(z, d)
    ensures
      var (iv, u) := (DayAxis(z, d, peak)[k], Midnight(z, d) + k);
      && iv.utc == u && (iv.LocalDate(), iv.localHour) == HourLabel(z, u)
      && (iv.isHourStart <==> TimeId(z, u) % SLOTS_PER_HOUR == 0)
  {
    AxisReads(z, d, peak, k);
    var wall := Local(z, Midnight(z, d) + k);
    DivisionRange(wall, wall / SLOTS_PER_DAY);
  }

  /** A day has as many UTC hours as it is long. */
  lemma HourlyRows(z: Zone, d: int)
    requires WellFormed(z) && WholeHours(z) && CleanDay(z, d)
    ensures DayCount(z, d) % SLOTS_PER_HOUR == 0
    ensures UtcHour(Midnight(z, d + 1)) - UtcHour(Midnight(z, d)) == DayCount(z, d) / SLOTS_PER_HOUR
  {
    MidnightHours(z, d);
    MidnightHours(z, d + 1);
    DayOwnsItsDate(z, d, 0);
  }

  /** Two UTC hours of the day carry the same (date, hour) label. */
  ghost predicate LabelsCollide(z: Zone, d: int) {
    exists u, v :: Midnight(z, d) <= u < v < Midnight(z, d + 1) && UtcHour(u) != UtcHour(v) && HourLabel(z, u) == HourLabel(z, v)
  }

  /** Some interval of the day is flagged as repeating the clock. */
  ghost predicate ClockRepeats(z: Zone, d: int) {
    exists k :: 0 <= k < DayCount(z, d) && Repeated(z, Midnight(z, d), k)
  }

  /**
    Grouping on the local label instead of the UTC hour merges two delivery
    hours exactly on the days whose clock repeats.
   */
  lemma GroupingByLabelMergesIff(z: Zone, d: int)
    requires WellFormed(z) && WholeHours(z) && CleanDay(z, d)
    ensures LabelsCollide(z, d) <==> ClockRepeats(z, d)
  {
    var m := Midnight(z, d);
    if LabelsCollide(z, d) {
      var u, v :| m <= u < v < Midnight(z, d + 1) && UtcHour(u) != UtcHour(v) && HourLabel(z, u) == HourLabel(z, v);
      CollisionRepeats(z, d, u, v);
    }
    if ClockRepeats(z, d) {
      var k :| 0 <= k < DayCount(z, d) && Repeated(z, m, k);
      var v :| m <= v < m + k && TimeId(z, v) == TimeId(z, m + k);
      assert m + k < Midnight(z, d + 1);
      RepeatCollides(z, d, v, m + k);
    }
  }

  /** So on a day with one transition it merges hours precisely when the clock moves back. */
  lemma MergesOnBackwardDaysOnly(z: Zone, d: int, at: int, delta: int, peak: Peak)
    requires WellFormed(z) && WholeHours(z) && OneShift(z, d, at, delta)
    ensures LabelsCollide(z, d) <==> delta < 0
  {
    GroupingByLabelMergesIff(z, d);
    DayLength(z, d, at, delta);
    ShiftFits(z, d, at, delta);
    forall k | 0 <= k < DayCount(z, d)
      ensures Repeated(z, Midnight(z, d), k) <==> at <= Midnight(z, d) + k < at - delta
    {
      RepeatedSlots(z, d, at, delta, peak, k);
    }
    if delta < 0 {
      ReadingAt(z, d, at, delta, at - 1 - Midnight(z, d));
      assert Repeated(z, Midnight(z, d), at - Midnight(z, d));
    }
  }

  lemma LaterHour(u: int, v: int)
    requires u < v && u / 4 != v / 4
    ensures u < 4 * (v / 4) + u % 4
  {}

  /** Hours that share a label hold slots that share a clock position. */
  lemma CollisionRepeats(z: Zone, d: int, u: int, v: int)
    requires WellFormed(z) && WholeHours(z) && CleanDay(z, d)
    requires Midnight(z, d) <= u < v < Midnight(z, d + 1) && UtcHour(u) != UtcHour(v) && HourLabel(z, u) == HourLabel(z, v)
    ensures ClockRepeats(z, d)
  {
    var m, q := Midnight(z, d), u % SLOTS_PER_HOUR;
    var w := SLOTS_PER_HOUR * UtcHour(v) + q;
    Quarters(z, UtcHour(u), q);
    Quarters(z, UtcHour(v), v % SLOTS_PER_HOUR);
    Quarters(z, UtcHour(v), q);
    HourBucket(z, d, v, q);
    LaterHour(u, v);
    assert TimeId(z, u) == TimeId(z, w);
    assert Repeated(z, m, w - m);
  }

  /** Slots that share a clock position lie in different hours with one label. */
  lemma RepeatCollides(z: Zone, d: int, u: int, v: int)
    requires WellFormed(z) && WholeHours(z) && CleanDay(z, d)
    requires Midnight(z, d) <= u < v < Midnight(z, d + 1) && TimeId(z, u) == TimeId(z, v)
    ensures UtcHour(u) != UtcHour(v) && HourLabel(z, u) == HourLabel(z, v)
  {
    Quarters(z, UtcHour(u), u % SLOTS_PER_HOUR);
    Quarters(z, UtcHour(v), v % SLOTS_PER_HOUR);
    DayOwnsItsDate(z, d, u);
    DayOwnsItsDate(z, d, v);
  }

  /**
    The label of a UTC hour is only well defined because the offset is whole:
    at a fixed offset the four intervals of every UTC hour share a local hour
    if and only if it is.
   */
  lemma LabelConstantIff(offset: int)
    ensures (forall u, v :: UtcHour(u) == UtcHour(v) ==> HourLabel(Fixed(offset), u) == HourLabel(Fixed(offset), v))
       <==> offset % SLOTS_PER_HOUR == 0
  {
    var z := Fixed(offset);
    if offset % SLOTS_PER_HOUR == 0 {
      forall u, v | UtcHour(u) == UtcHour(v) ensures HourLabel(z, u) == HourLabel(z, v) {
        Quarters(z, UtcHour(u), u % SLOTS_PER_HOUR);
        Quarters(z, UtcHour(v), v % SLOTS_PER_HOUR);
      }
    } else {
      var i := offset / SLOTS_PER_HOUR;
      HourArithmetic(i, offset % SLOTS_PER_HOUR);
      HourArithmetic(i + 1, offset % SLOTS_PER_HOUR - 1);
      assert UtcHour(0) == UtcHour(3) && HourLabel(z, 0) != HourLabel(z, 3);
    }
  }
}
