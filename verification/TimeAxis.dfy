/**
  The delivery-day time axis (src/shiden/timeaxis.py) and the rows of
  dim_datetime (src/shiden/processing/silver/dimensions/dim_datetime.py).

  Time is counted in quarter-hour slots: an instant is a UTC slot, a wall-clock
  reading a local slot, and local midnight of the date with ordinal d is local
  slot 96 * d.  A time zone is an initial offset and a list of transitions on
  that grid, the latest on the outside.
 */
module TimeAxis {
  import opened Options
  import opened Calendar

  const SLOTS_PER_DAY := 96
  const SLOTS_PER_HOUR := 4

  // ------------------------------------------------------------------- zones

  /** From UTC slot `at` on the offset is `offset`, in slots east of UTC. */
  datatype Zone = Fixed(offset: int) | Shift(before: Zone, at: int, offset: int)

  function Min(a: int, b: int): int { if a < b then a else b }

  function Max(a: int, b: int): int { if a < b then b else a }

  /** The first and last wall-clock reading a transition makes skipped or ambiguous. */
  function WallLo(z: Zone): int
    requires z.Shift?
  {
    z.at + Min(z.before.offset, z.offset)
  }

  function WallHi(z: Zone): int
    requires z.Shift?
  {
    z.at + Max(z.before.offset, z.offset)
  }

  /** Transitions are in order, and what each does to the wall clock is over before the next begins. */
  predicate WellFormed(z: Zone) {
    z.Shift? ==>
      && WellFormed(z.before)
      && (z.before.Shift? ==> z.before.at < z.at && WallHi(z.before) <= WallLo(z))
  }

  /** `astimezone`: the offset in force at an instant. */
  function OffsetAt(z: Zone, u: int): int {
    match z
    case Fixed(o) => o
    case Shift(before, at, o) => if u >= at then o else OffsetAt(before, u)
  }

  function Local(z: Zone, u: int): int { u + OffsetAt(z, u) }

  /**
    The offset PEP 495 takes for a wall-clock reading with fold=0: the one
    before the transition, in the gap as well as in the first pass of a fold.
   */
  function WallOffset(z: Zone, wall: int): int {
    match z
    case Fixed(o) => o
    case Shift(before, at, o) => if wall >= WallHi(z) then o else WallOffset(before, wall)
  }

  function ToUtc(z: Zone, wall: int): int { wall - WallOffset(z, wall) }

  /** `local_midnight_utc`. */
  function Midnight(z: Zone, d: int): int { ToUtc(z, SLOTS_PER_DAY * d) }

  /** Some transition skips or repeats readings on both sides of `wall`. */
  predicate Straddled(z: Zone, wall: int) {
    z.Shift? && (WallLo(z) < wall < WallHi(z) || Straddled(z.before, wall))
  }

  lemma {:induction false} NotStraddledLater(z: Zone, wall: int)
    requires WellFormed(z) && (z.Shift? ==> wall >= WallHi(z))
    ensures !Straddled(z, wall) && WallOffset(z, wall) == z.offset
  {
    if z.Shift? { NotStraddledLater(z.before, wall); }
  }

  lemma {:induction false} LocalBefore(z: Zone, at: int, u: int)
    requires WellFormed(z) && u < at && (z.Shift? ==> z.at < at && WallHi(z) <= at + z.offset)
    ensures Local(z, u) < at + z.offset
  {
    if z.Shift? && u < z.at { LocalBefore(z.before, z.at, u); }
  }

  /** Where no transition straddles it, a wall-clock reading splits the instants: before it and from it on. */
  lemma {:induction false} SplitsAt(z: Zone, wall: int, u: int)
    requires WellFormed(z) && !Straddled(z, wall)
    ensures u >= ToUtc(z, wall) <==> Local(z, u) >= wall
  {
    if z.Shift? {
      if wall >= WallHi(z) {
        if u < z.at { LocalBefore(z.before, z.at, u); }
      } else if u < z.at {
        SplitsAt(z.before, wall, u);
      } else {
        SplitsAt(z.before, wall, z.at);
        assert Local(z.before, z.at) == z.at + z.before.offset;
      }
    }
  }

  /** Where one does, the instant of that transition is on the wrong side. */
  lemma {:induction false} StraddleBreaks(z: Zone, wall: int) returns (u: int)
    requires WellFormed(z) && Straddled(z, wall)
    ensures u <= z.at && !(u >= ToUtc(z, wall) <==> Local(z, u) >= wall)
  {
    if WallLo(z) < wall < WallHi(z) {
      u := z.at;
      NotStraddledLater(z.before, wall);
    } else {
      if wall >= WallHi(z.before) { NotStraddledLater(z.before, wall); }
      u := StraddleBreaks(z.before, wall);
    }
  }

  /**
    The instant `local_midnight_utc` returns divides earlier dates from later
    ones exactly when no transition carries the clock across that midnight.
   */
  lemma MidnightDividesDatesIff(z: Zone, d: int)
    requires WellFormed(z)
    ensures (forall u :: u >= Midnight(z, d) <==> Local(z, u) >= SLOTS_PER_DAY * d) <==> !Straddled(z, SLOTS_PER_DAY * d)
  {
    if Straddled(z, SLOTS_PER_DAY * d) {
      var u := StraddleBreaks(z, SLOTS_PER_DAY * d);
      assert !(u >= Midnight(z, d) <==> Local(z, u) >= SLOTS_PER_DAY * d);
    } else {
      forall u ensures u >= Midnight(z, d) <==> Local(z, u) >= SLOTS_PER_DAY * d {
        SplitsAt(z, SLOTS_PER_DAY * d, u);
      }
    }
  }

  /** PEP 495 with fold=0: of the instants that read `wall`, the earliest; there is one unless the clock skips `wall`. */
  lemma {:induction false} EarliestReading(z: Zone, wall: int, u: int)
    requires WellFormed(z) && Local(z, u) == wall
    ensures Local(z, ToUtc(z, wall)) == wall && ToUtc(z, wall) <= u
  {
    if z.Shift? {
      if wall >= WallHi(z) {
        if u < z.at { LocalBefore(z.before, z.at, u); }
      } else if u < z.at {
        EarliestReading(z.before, wall, u);
      } else {
        // the second pass of a fold: the first one read it before the transition
        assert z.at + z.offset <= wall < z.at + z.before.offset;
        NotStraddledLater(z.before, wall);
        assert ToUtc(z, wall) == wall - z.before.offset < z.at;
        assert OffsetAt(z.before, wall - z.before.offset) == z.before.offset;
      }
    }
  }

  // ------------------------------------------------------------------- a day

  datatype Interval = Interval(
    utc: int, local: int, intervalOfDay: int, localTimeId: int, localHour: int, quarterOfHour: int,
    utcOffset: int, isRepeatedHour: bool, isHourStart: bool, isPeak: bool)
  {
    /** The ordinal of the local date. */
    function LocalDate(): int { local / SLOTS_PER_DAY }

    function DateId(): int
      requires 1 <= LocalDate() <= LAST_DAY
    {
      DateToId(FromOrdinal(LocalDate()))
    }
  }

  /** The clock position 0 to 95. */
  function TimeId(z: Zone, u: int): int { Local(z, u) % SLOTS_PER_DAY }

  /** The clock position was already seen among the k slots from `start`. */
  predicate Repeated(z: Zone, start: int, k: int) {
    exists v :: start <= v < start + k && TimeId(z, v) == TimeId(z, start + k)
  }

  /** Peak bounds are local hours. */
  datatype Peak = Peak(startHour: int, endHour: int)

  /** Slot k, from 0, of the day that begins at `start`. */
  function IntervalAt(z: Zone, start: int, k: int, peak: Peak): Interval {
    var u := start + k;
    var timeId := TimeId(z, u);
    var hour := timeId / SLOTS_PER_HOUR;
    Interval(u, Local(z, u), k + 1, timeId, hour, timeId % SLOTS_PER_HOUR, OffsetAt(z, u),
      Repeated(z, start, k), timeId % SLOTS_PER_HOUR == 0, peak.startHour <= hour < peak.endHour)
  }

  function DayCount(z: Zone, d: int): nat { Max(0, Midnight(z, d + 1) - Midnight(z, d)) }

  /** The intervals of a local date. */
  function DayAxis(z: Zone, d: int, peak: Peak): (ivs: seq<Interval>)
    ensures |ivs| == DayCount(z, d)
  {
    seq(DayCount(z, d), k requires 0 <= k < DayCount(z, d) => IntervalAt(z, Midnight(z, d), k, peak))
  }

  /** What the fields of slot k of a walk mean: a UTC slot, and its local reading taken apart into date, hour and quarter. */
  ghost predicate Reads(z: Zone, start: int, iv: Interval, k: int, peak: Peak) {
    && iv.utc == start + k && iv.intervalOfDay == k + 1
    && iv.local == iv.utc + iv.utcOffset && iv.utcOffset == OffsetAt(z, iv.utc)
    && 0 <= iv.localHour < 24 && 0 <= iv.quarterOfHour < 4
    && iv.localTimeId == 4 * iv.localHour + iv.quarterOfHour && iv.local == 96 * iv.LocalDate() + iv.localTimeId
    && (iv.isHourStart <==> iv.local % 4 == 0)
    && (iv.isPeak <==> peak.startHour <= iv.localHour < peak.endHour)
  }

  /** Its clock position occurred earlier in the walk. */
  ghost predicate OccursEarlier(intervals: seq<Interval>, k: int)
    requires 0 <= k < |intervals|
  {
    exists j :: 0 <= j < k && intervals[j].localTimeId == intervals[k].localTimeId
  }

  lemma ReadingParts(wall: int)
    ensures
      var t := wall % 96;
      && 0 <= t / 4 < 24 && 0 <= t % 4 < 4 && t == 4 * (t / 4) + t % 4
      && wall == 96 * (wall / 96) + t && (t % 4 == 0 <==> wall % 4 == 0)
  {
    assert wall == 4 * (24 * (wall / 96) + (wall % 96) / 4) + wall % 96 % 4;
  }

  lemma AxisReads(z: Zone, d: int, peak: Peak, k: nat)
    requires k < DayCount(z, d)
    ensures Reads(z, Midnight(z, d), DayAxis(z, d, peak)[k], k, peak)
  {
    ReadingParts(Local(z, Midnight(z, d) + k));
  }

  lemma AxisRepeats(z: Zone, d: int, peak: Peak, k: nat)
    requires k < DayCount(z, d)
    ensures DayAxis(z, d, peak)[k].isRepeatedHour <==> OccursEarlier(DayAxis(z, d, peak), k)
  {
    var axis, start := DayAxis(z, d, peak), Midnight(z, d);
    if Repeated(z, start, k) {
      var v :| start <= v < start + k && TimeId(z, v) == TimeId(z, start + k);
      assert axis[v - start].localTimeId == axis[k].localTimeId;
    }
    if OccursEarlier(axis, k) {
      var j :| 0 <= j < k && axis[j].localTimeId == axis[k].localTimeId;
      assert TimeId(z, start + j) == TimeId(z, start + k);
    }
  }

  /** `day_intervals`: the walk from one local midnight to the next. */
  method DayIntervals(z: Zone, d: int, peak: Peak) returns (intervals: seq<Interval>)
    ensures |intervals| == Max(0, ToUtc(z, 96 * (d + 1)) - ToUtc(z, 96 * d))
    ensures forall k :: 0 <= k < |intervals| ==> Reads(z, ToUtc(z, 96 * d), intervals[k], k, peak)
    ensures forall k :: 0 <= k < |intervals| ==> (intervals[k].isRepeatedHour <==> OccursEarlier(intervals, k))
    ensures intervals == DayAxis(z, d, peak)
  {
    var startUtc, endUtc := Midnight(z, d), Midnight(z, d + 1);
    intervals := [];
    var seen: set<int> := {};
    var current, index := startUtc, 1;
    while current < endUtc
      invariant current == startUtc + |intervals| && index == |intervals| + 1
      invariant |intervals| <= DayCount(z, d)
      invariant forall k :: 0 <= k < |intervals| ==> intervals[k] == IntervalAt(z, startUtc, k, peak)
      invariant forall v :: startUtc <= v < current ==> TimeId(z, v) in seen
      invariant forall t :: t in seen ==> exists v :: startUtc <= v < current && TimeId(z, v) == t
    {
      var timeId := Local(z, current) % SLOTS_PER_DAY;
      var hour, quarter := timeId / SLOTS_PER_HOUR, timeId % SLOTS_PER_HOUR;
      intervals := intervals + [Interval(current, Local(z, current), index, timeId, hour, quarter, OffsetAt(z, current),
                                         timeId in seen, quarter == 0, peak.startHour <= hour < peak.endHour)];
      assert TimeId(z, current) == timeId;
      seen := seen + {timeId};
      current := current + 1;
      index := index + 1;
    }
    assert intervals == DayAxis(z, d, peak);
    forall k | 0 <= k < |intervals|
      ensures Reads(z, startUtc, intervals[k], k, peak) && (intervals[k].isRepeatedHour <==> OccursEarlier(intervals, k))
    {
      AxisReads(z, d, peak, k);
      AxisRepeats(z, d, peak, k);
    }
  }

  /** Neither midnight of the day is straddled by a transition. */
  predicate CleanDay(z: Zone, d: int) {
    !Straddled(z, SLOTS_PER_DAY * d) && !Straddled(z, SLOTS_PER_DAY * (d + 1))
  }

  /** On a clean day the slots between its midnights are exactly the instants with its local date. */
  lemma DayOwnsItsDate(z: Zone, d: int, u: int)
    requires WellFormed(z) && CleanDay(z, d)
    ensures Midnight(z, d) <= Midnight(z, d + 1)
    ensures Midnight(z, d) <= u < Midnight(z, d + 1) <==> Local(z, u) / SLOTS_PER_DAY == d
    ensures Midnight(z, d) <= u < Midnight(z, d + 1) ==> Local(z, u) == SLOTS_PER_DAY * d + TimeId(z, u)
  {
    SplitsAt(z, SLOTS_PER_DAY * d, u);
    SplitsAt(z, SLOTS_PER_DAY * (d + 1), u);
    SplitsAt(z, SLOTS_PER_DAY * d, Midnight(z, d + 1));
    SplitsAt(z, SLOTS_PER_DAY * (d + 1), Midnight(z, d + 1));
    DivisionRange(Local(z, u), d);
  }

  lemma DivisionRange(wall: int, d: int)
    ensures wall / SLOTS_PER_DAY == d <==> SLOTS_PER_DAY * d <= wall < SLOTS_PER_DAY * (d + 1)
    ensures wall == SLOTS_PER_DAY * (wall / SLOTS_PER_DAY) + wall % SLOTS_PER_DAY
  {}

  /** The offset the day's midnight was converted with. */
  function MidnightOffset(z: Zone, d: int): int { SLOTS_PER_DAY * d - Midnight(z, d) }

  /**
    The clock position drifts from the interval number by exactly what the
    offset has moved since midnight.
   */
  lemma SlotDrift(z: Zone, d: int, k: nat, peak: Peak)
    requires WellFormed(z) && CleanDay(z, d) && k < DayCount(z, d)
    ensures
      var iv := DayAxis(z, d, peak)[k];
      && iv.LocalDate() == d
      && iv.localTimeId == iv.intervalOfDay - 1 + (iv.utcOffset - MidnightOffset(z, d))
  {
    var u := Midnight(z, d) + k;
    DayOwnsItsDate(z, d, u);
    assert DayAxis(z, d, peak)[k] == IntervalAt(z, Midnight(z, d), k, peak);
  }

  // ------------------------------------------------------------- dim_datetime

  /** The rows of dim_datetime for the dates start to end. */
  function AxisRows(z: Zone, start: int, end: int, peak: Peak): seq<Interval>
    decreases end - start
  {
    if end < start then [] else AxisRows(z, start, end - 1, peak) + DayAxis(z, end, peak)
  }

  /** `make_rows`: the day walks of a date range, one after the other. */
  method MakeRows(z: Zone, start: int, end: int, peak: Peak) returns (rows: seq<Interval>)
    ensures rows == AxisRows(z, start, end, peak)
  {
    rows := [];
    var localDate := start;
    while localDate <= end
      invariant localDate <= end + 1 || localDate == start
      invariant rows == AxisRows(z, start, localDate - 1, peak)
    {
      var intervals := DayIntervals(z, localDate, peak);
      for i := 0 to |intervals|
        invariant rows == AxisRows(z, start, localDate - 1, peak) + intervals[..i]
      {
        rows := rows + [intervals[i]];
      }
      assert intervals[..|intervals|] == intervals;
      localDate := localDate + 1;
    }
  }

  predicate CleanRange(z: Zone, start: int, end: int) {
    forall d :: start <= d <= end ==> CleanDay(z, d)
  }

  /** The day's midnights are in order. */
  predicate Ascends(z: Zone, d: int) { Midnight(z, d) <= Midnight(z, d + 1) }

  predicate AllAscend(z: Zone, start: int, end: int) {
    forall d :: start <= d <= end ==> Ascends(z, d)
  }

  lemma CleanRangeAscends(z: Zone, start: int, end: int)
    requires WellFormed(z) && CleanRange(z, start, end)
    ensures AllAscend(z, start, end)
  {
    forall d | start <= d <= end ensures Ascends(z, d) { DayOwnsItsDate(z, d, 0); }
  }

  /** The rows are the whole UTC grid between the outer midnights, once each. */
  ghost predicate IsGrid(z: Zone, start: int, end: int, rows: seq<Interval>) {
    && |rows| == Midnight(z, end + 1) - Midnight(z, start)
    && forall i :: 0 <= i < |rows| ==> rows[i].utc == Midnight(z, start) + i
  }

  /** The days of a range join end to end when its midnights are in order. */
  lemma {:induction false} RowsAreTheGrid(z: Zone, start: int, end: int, peak: Peak)
    requires AllAscend(z, start, end) && start <= end + 1
    ensures IsGrid(z, start, end, AxisRows(z, start, end, peak))
    decreases end - start
  {
    if start <= end {
      RowsAreTheGrid(z, start, end - 1, peak);
      assert Ascends(z, end);
    }
  }

  lemma {:induction false} RowsCount(z: Zone, start: int, end: int, peak: Peak)
    requires start <= end + 1
    ensures |AxisRows(z, start, end, peak)| >= Midnight(z, end + 1) - Midnight(z, start)
    ensures |AxisRows(z, start, end, peak)| == Midnight(z, end + 1) - Midnight(z, start) ==> AllAscend(z, start, end)
    decreases end - start
  {
    if start <= end { RowsCount(z, start, end - 1, peak); }
  }

  /** And only then: otherwise days overlap. */
  lemma RowsAreTheGridIff(z: Zone, start: int, end: int, peak: Peak)
    requires start <= end + 1
    ensures IsGrid(z, start, end, AxisRows(z, start, end, peak)) <==> AllAscend(z, start, end)
  {
    RowsCount(z, start, end, peak);
    if AllAscend(z, start, end) { RowsAreTheGrid(z, start, end, peak); }
  }

  /** Row i belongs to the day of its own local date and carries that day's numbering. */
  lemma {:induction false} RowBelongs(z: Zone, start: int, end: int, peak: Peak, i: nat) returns (d: int)
    requires WellFormed(z) && CleanRange(z, start, end) && start <= end
    requires i < Midnight(z, end + 1) - Midnight(z, start)
    ensures start <= d <= end && |AxisRows(z, start, end, peak)| > i
    ensures
      var iv := AxisRows(z, start, end, peak)[i];
      && iv.utc == Midnight(z, start) + i && Midnight(z, d) <= iv.utc < Midnight(z, d + 1)
      && iv.LocalDate() == d && iv.intervalOfDay == iv.utc - Midnight(z, d) + 1
    decreases end - start
  {
    CleanRangeAscends(z, start, end);
    RowsAreTheGrid(z, start, end, peak);
    RowsAreTheGrid(z, start, end - 1, peak);
    var front := |AxisRows(z, start, end - 1, peak)|;
    if i < front {
      DayOwnsItsDate(z, end, 0);
      d := RowBelongs(z, start, end - 1, peak, i);
    } else {
      d := end;
      DayOwnsItsDate(z, end, Midnight(z, end) + i - front);
      assert AxisRows(z, start, end, peak)[i] == DayAxis(z, end, peak)[i - front];
    }
  }

  lemma {:induction false} MidnightsAscend(z: Zone, start: int, end: int, d: int)
    requires WellFormed(z) && CleanRange(z, start, end) && start <= d <= end + 1
    ensures Midnight(z, start) <= Midnight(z, d) <= Midnight(z, end + 1)
    decreases end - start
  {
    if start <= end {
      DayOwnsItsDate(z, end, 0);
      if d <= end { MidnightsAscend(z, start, end - 1, d); } else { MidnightsAscend(z, start, end - 1, end); }
    }
  }

  lemma JoinFindsEveryInterval(z: Zone, start: int, end: int, peak: Peak, d: int, n: int) returns (i: nat)
    requires WellFormed(z) && CleanRange(z, start, end) && start <= d <= end && 1 <= n <= DayCount(z, d)
    ensures i < |AxisRows(z, start, end, peak)|
    ensures
      var iv := AxisRows(z, start, end, peak)[i];
      iv.LocalDate() == d && iv.intervalOfDay == n && iv.utc == Midnight(z, d) + n - 1
  {
    MidnightsAscend(z, start, end, d);
    MidnightsAscend(z, start, end, d + 1);
    i := Midnight(z, d) + n - 1 - Midnight(z, start);
    CleanRangeAscends(z, start, end);
    RowsAreTheGrid(z, start, end, peak);
    var e := RowBelongs(z, start, end, peak, i);
    DayOwnsItsDate(z, d, Midnight(z, d) + n - 1);
    DayOwnsItsDate(z, e, Midnight(z, d) + n - 1);
  }
}
