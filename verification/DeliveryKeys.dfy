/**
  The key a price row finds its instant by (src/shiden/processing/silver/fact_price.py):
  local date and interval number. Over the rows of dim_datetime it is unique
  exactly when no transition carries the clock back over a midnight between
  two of its days.
 */
module DeliveryKeys {
  import opened Calendar
  import opened TimeAxis

  // ------------------------------------------------- straddled either way

  /** Some transition carries the clock back over `wall`. */
  predicate BackStraddled(z: Zone, wall: int) {
    z.Shift? && ((z.offset < z.before.offset && WallLo(z) < wall < WallHi(z)) || BackStraddled(z.before, wall))
  }

  /** Some transition makes the clock skip `wall` and readings on both sides of it. */
  predicate SkipStraddled(z: Zone, wall: int) {
    z.Shift? && ((z.before.offset < z.offset && WallLo(z) < wall < WallHi(z)) || SkipStraddled(z.before, wall))
  }

  lemma {:induction false} StraddledEitherWay(z: Zone, wall: int)
    ensures Straddled(z, wall) <==> BackStraddled(z, wall) || SkipStraddled(z, wall)
  {
    if z.Shift? { StraddledEitherWay(z.before, wall); }
  }

  /** From the instant `wall` is converted to, the clock is at it or past it, unless it is carried back over it. */
  lemma {:induction false} AtOrPast(z: Zone, wall: int, u: int)
    requires WellFormed(z) && !BackStraddled(z, wall) && u >= ToUtc(z, wall)
    ensures Local(z, u) >= wall
  {
    if z.Shift? && u < z.at && wall < WallHi(z) { AtOrPast(z.before, wall, u); }
  }

  /** Before that instant the clock is short of it, unless it skips it. */
  lemma {:induction false} ShortOf(z: Zone, wall: int, u: int)
    requires WellFormed(z) && !SkipStraddled(z, wall) && u < ToUtc(z, wall)
    ensures Local(z, u) < wall
  {
    if z.Shift? {
      if u < z.at {
        if wall >= WallHi(z) { LocalBefore(z.before, z.at, u); } else { ShortOf(z.before, wall, u); }
      } else if wall < WallHi(z) {
        assert Local(z.before, z.at) == z.at + z.before.offset;
        if z.at < ToUtc(z.before, wall) { ShortOf(z.before, wall, z.at); }
      }
    }
  }

  // ----------------------------------------------------- transitions far apart

  /** No shift moves the clock by more than a day, and a day of readings lies between one and the next. */
  predicate FarApart(z: Zone) {
    && WellFormed(z)
    && (z.Shift? ==>
        && FarApart(z.before) && WallHi(z) - WallLo(z) <= SLOTS_PER_DAY
        && (z.before.Shift? ==> WallHi(z.before) + SLOTS_PER_DAY <= WallLo(z)))
  }

  lemma {:induction false} FarMidnightsAscend(z: Zone, d: int)
    requires FarApart(z)
    ensures Ascends(z, d)
  {
    if z.Shift? {
      if SLOTS_PER_DAY * (d + 1) < WallHi(z) {
        FarMidnightsAscend(z.before, d);
      } else if SLOTS_PER_DAY * d < WallHi(z) {
        NotStraddledLater(z.before, SLOTS_PER_DAY * d);
      }
    }
  }

  lemma {:induction false} StraddledBelow(z: Zone, wall: int)
    requires FarApart(z) && Straddled(z, wall)
    ensures wall < WallHi(z)
  {
    if !(WallLo(z) < wall < WallHi(z)) { StraddledBelow(z.before, wall); }
  }

  /** Next to a straddled midnight there is none. */
  lemma {:induction false} NeighboursAreClean(z: Zone, d: int)
    requires FarApart(z) && Straddled(z, SLOTS_PER_DAY * d)
    ensures !Straddled(z, SLOTS_PER_DAY * (d - 1)) && !Straddled(z, SLOTS_PER_DAY * (d + 1))
  {
    if WallLo(z) < SLOTS_PER_DAY * d < WallHi(z) {
      NotStraddledLater(z, SLOTS_PER_DAY * (d + 1));
      NotStraddledLater(z.before, SLOTS_PER_DAY * (d - 1));
    } else {
      NeighboursAreClean(z.before, d);
      StraddledBelow(z.before, SLOTS_PER_DAY * d);
    }
  }

  /** A transition after the one that straddles a midnight comes after the days next to it. */
  lemma LaterKeeps(z: Zone, d: int)
    requires FarApart(z) && z.Shift? && Straddled(z.before, SLOTS_PER_DAY * d)
    ensures Midnight(z, d - 1) == Midnight(z.before, d - 1) && Midnight(z, d) == Midnight(z.before, d)
    ensures Midnight(z, d + 1) == Midnight(z.before, d + 1) <= z.at
  {
    var next := SLOTS_PER_DAY * (d + 1);
    StraddledBelow(z.before, SLOTS_PER_DAY * d);
    NeighboursAreClean(z.before, d);
    SplitsAt(z.before, next, z.at);
    assert Local(z.before, z.at) == z.at + z.before.offset;
  }

  /**
    Where the clock skips midnight, the slots walked with the old date that
    read the new one are numbered past the end of the new day.
   */
  lemma {:induction false} SkippedNumbers(z: Zone, d: int, u: int)
    requires FarApart(z) && u < Midnight(z, d) && Local(z, u) >= SLOTS_PER_DAY * d
    ensures u - Midnight(z, d - 1) >= Midnight(z, d + 1) - Midnight(z, d)
  {
    var wall := SLOTS_PER_DAY * d;
    if !SkipStraddled(z, wall) { ShortOf(z, wall, u); }
    if z.before.offset < z.offset && WallLo(z) < wall < WallHi(z) {
      NotStraddledLater(z.before, SLOTS_PER_DAY * (d - 1));
      NotStraddledLater(z.before, wall);
      if u < z.at { SplitsAt(z.before, wall, u); }
    } else {
      StraddledEitherWay(z.before, wall);
      LaterKeeps(z, d);
      FarMidnightsAscend(z.before, d);
      SkippedNumbers(z.before, d, u);
    }
  }

  /** Where the clock is carried back over midnight, a slot walked with the new date reads the old one, under a number the old day has. */
  lemma {:induction false} RepeatedNumber(z: Zone, d: int) returns (k: nat)
    requires FarApart(z) && BackStraddled(z, SLOTS_PER_DAY * d)
    ensures k < DayCount(z, d - 1) && k < DayCount(z, d)
    ensures Local(z, Midnight(z, d - 1) + k) / SLOTS_PER_DAY == d - 1 && Local(z, Midnight(z, d) + k) / SLOTS_PER_DAY == d - 1
  {
    if z.offset < z.before.offset && WallLo(z) < SLOTS_PER_DAY * d < WallHi(z) {
      k := OwnRepeatedNumber(z, d);
    } else {
      StraddledEitherWay(z.before, SLOTS_PER_DAY * d);
      LaterKeeps(z, d);
      FarMidnightsAscend(z, d - 1);
      k := RepeatedNumber(z.before, d);
    }
  }

  lemma OwnRepeatedNumber(z: Zone, d: int) returns (k: nat)
    requires FarApart(z) && z.Shift? && z.offset < z.before.offset && WallLo(z) < SLOTS_PER_DAY * d < WallHi(z)
    ensures k < DayCount(z, d - 1) && k < DayCount(z, d)
    ensures Local(z, Midnight(z, d - 1) + k) / SLOTS_PER_DAY == d - 1 && Local(z, Midnight(z, d) + k) / SLOTS_PER_DAY == d - 1
  {
    NotStraddledLater(z.before, SLOTS_PER_DAY * (d - 1));
    NotStraddledLater(z.before, SLOTS_PER_DAY * d);
    assert Midnight(z, d - 1) == SLOTS_PER_DAY * (d - 1) - z.before.offset;
    assert Midnight(z, d) == SLOTS_PER_DAY * d - z.before.offset;
    assert Midnight(z, d + 1) == SLOTS_PER_DAY * (d + 1) - z.offset;
    k := z.at - Midnight(z, d);
    var u := Midnight(z, d - 1) + k;
    assert z.before.Shift? ==> z.before.at <= Midnight(z, d - 1);
    assert OffsetAt(z.before, u) == z.before.offset;
    assert Local(z, u) == SLOTS_PER_DAY * (d - 1) + k;
    DivisionRange(Local(z, u), d - 1);
    DivisionRange(Local(z, z.at), d - 1);
  }

  // --------------------------------------------------------------- rows and walks

  /** The date_id of a row spells the date that its local reading falls on. */
  lemma DateIdSpells(iv: Interval, d: Date)
    requires 1 <= iv.LocalDate() <= LAST_DAY && Valid(d)
    ensures iv.DateId() == 10000 * d.year + 100 * d.month + d.day <==> Ordinal(d) == iv.local / 96
  {
    IdOrder(FromOrdinal(iv.LocalDate()), d);
  }

  /** Every row is a slot of the walk of some day of the range, and rows stand in the order of the walks. */
  lemma {:induction false} TwoRows(z: Zone, start: int, end: int, peak: Peak, i: nat, j: nat)
      returns (d: int, k: nat, e: int, l: nat)
    requires i < j < |AxisRows(z, start, end, peak)|
    ensures start <= d <= e <= end && k < DayCount(z, d) && l < DayCount(z, e) && (d == e ==> k < l)
    ensures AxisRows(z, start, end, peak)[i] == DayAxis(z, d, peak)[k] && AxisRows(z, start, end, peak)[j] == DayAxis(z, e, peak)[l]
    decreases end - start
  {
    var front := |AxisRows(z, start, end - 1, peak)|;
    if j < front {
      d, k, e, l := TwoRows(z, start, end - 1, peak, i, j);
    } else {
      e, l := end, j - front;
      if i < front { d, k := OneRow(z, start, end - 1, peak, i); } else { d, k := end, i - front; }
    }
  }

  lemma {:induction false} OneRow(z: Zone, start: int, end: int, peak: Peak, i: nat) returns (d: int, k: nat)
    requires i < |AxisRows(z, start, end, peak)|
    ensures start <= d <= end && k < DayCount(z, d) && AxisRows(z, start, end, peak)[i] == DayAxis(z, d, peak)[k]
    decreases end - start
  {
    var front := |AxisRows(z, start, end - 1, peak)|;
    if i < front { d, k := OneRow(z, start, end - 1, peak, i); } else { d, k := end, i - front; }
  }

  lemma {:induction false} RowAt(z: Zone, start: int, end: int, peak: Peak, d: int, k: nat) returns (i: nat)
    requires start <= d <= end && k < DayCount(z, d)
    ensures i < |AxisRows(z, start, end, peak)| && AxisRows(z, start, end, peak)[i] == DayAxis(z, d, peak)[k]
    decreases end - start
  {
    if d == end { i := |AxisRows(z, start, end - 1, peak)| + k; } else { i := RowAt(z, start, end - 1, peak, d, k); }
  }

  // ------------------------------------------------------------- when keys collide

  predicate SameKey(a: Interval, b: Interval) {
    a.LocalDate() == b.LocalDate() && a.intervalOfDay == b.intervalOfDay
  }

  ghost predicate KeysAreUnique(rows: seq<Interval>) {
    forall i, j :: 0 <= i < j < |rows| ==> !SameKey(rows[i], rows[j])
  }

  predicate NoneCarriedBack(z: Zone, start: int, end: int) {
    forall d :: start < d <= end ==> !BackStraddled(z, SLOTS_PER_DAY * d)
  }

  /** No slot reads a date beyond the one after its walk's, nor one before it unless the clock is carried back. */
  lemma WalkedDates(z: Zone, d: int, u: int)
    requires FarApart(z) && Midnight(z, d) <= u < Midnight(z, d + 1)
    ensures Local(z, u) / SLOTS_PER_DAY <= d + 1
    ensures !BackStraddled(z, SLOTS_PER_DAY * d) ==> Local(z, u) / SLOTS_PER_DAY >= d
  {
    if SkipStraddled(z, SLOTS_PER_DAY * (d + 2)) {
      StraddledEitherWay(z, SLOTS_PER_DAY * (d + 2));
      NeighboursAreClean(z, d + 2);
      StraddledEitherWay(z, SLOTS_PER_DAY * (d + 1));
      ShortOf(z, SLOTS_PER_DAY * (d + 1), u);
    } else {
      FarMidnightsAscend(z, d + 1);
      ShortOf(z, SLOTS_PER_DAY * (d + 2), u);
    }
    if !BackStraddled(z, SLOTS_PER_DAY * d) { AtOrPast(z, SLOTS_PER_DAY * d, u); }
  }

  lemma KeyOfSlot(z: Zone, d: int, k: nat, peak: Peak)
    requires k < DayCount(z, d)
    ensures
      var iv := DayAxis(z, d, peak)[k];
      iv.LocalDate() == Local(z, Midnight(z, d) + k) / SLOTS_PER_DAY && iv.intervalOfDay == k + 1 && iv.utc == Midnight(z, d) + k
  {}

  lemma WalksDoNotCollide(z: Zone, peak: Peak, d: int, k: nat, e: int, l: nat)
    requires FarApart(z) && d < e && k < DayCount(z, d) && l < DayCount(z, e) && !BackStraddled(z, SLOTS_PER_DAY * e)
    ensures !SameKey(DayAxis(z, d, peak)[k], DayAxis(z, e, peak)[l])
  {
    var u, v := Midnight(z, d) + k, Midnight(z, e) + l;
    KeyOfSlot(z, d, k, peak);
    KeyOfSlot(z, e, l, peak);
    if Local(z, u) / SLOTS_PER_DAY == Local(z, v) / SLOTS_PER_DAY {
      SharedDateIsNext(z, d, u, e, v);
      PastTheEnd(z, d, k, e);
    }
  }

  /** A slot of a walk that reads the next date has a number the next day lacks. */
  lemma PastTheEnd(z: Zone, d: int, k: nat, e: int)
    requires FarApart(z) && e == d + 1 && k < DayCount(z, d) && Local(z, Midnight(z, d) + k) >= SLOTS_PER_DAY * e
    ensures k >= DayCount(z, e)
  {
    SkippedNumbers(z, e, Midnight(z, d) + k);
    FarMidnightsAscend(z, e);
  }

  /** Slots of two walks share a date only if the walks are of adjacent days, and the date is the later. */
  lemma SharedDateIsNext(z: Zone, d: int, u: int, e: int, v: int)
    requires FarApart(z) && d < e && !BackStraddled(z, SLOTS_PER_DAY * e)
    requires Midnight(z, d) <= u < Midnight(z, d + 1) && Midnight(z, e) <= v < Midnight(z, e + 1)
    requires Local(z, u) / SLOTS_PER_DAY == Local(z, v) / SLOTS_PER_DAY
    ensures e == d + 1 && Local(z, u) >= SLOTS_PER_DAY * e
  {
    WalkedDates(z, d, u);
    WalkedDates(z, e, v);
    DivisionRange(Local(z, u), e);
  }

  lemma CarriedBackCollides(z: Zone, start: int, end: int, peak: Peak, d: int) returns (i: nat, j: nat)
    requires FarApart(z) && start < d <= end && BackStraddled(z, SLOTS_PER_DAY * d)
    ensures
      var rows := AxisRows(z, start, end, peak);
      i < |rows| && j < |rows| && rows[i].utc < rows[j].utc && SameKey(rows[i], rows[j])
  {
    var k := RepeatedNumber(z, d);
    i := RowAt(z, start, end, peak, d - 1, k);
    j := RowAt(z, start, end, peak, d, k);
  }

  /**
    With transitions far apart the key is unique over a range exactly when
    none carries the clock back over a midnight between two of its days;
    skipping a midnight does no harm.
   */
  lemma KeysAreUniqueIff(z: Zone, start: int, end: int, peak: Peak)
    requires FarApart(z)
    ensures KeysAreUnique(AxisRows(z, start, end, peak)) <==> NoneCarriedBack(z, start, end)
  {
    var rows := AxisRows(z, start, end, peak);
    if NoneCarriedBack(z, start, end) {
      forall i, j | 0 <= i < j < |rows| ensures !SameKey(rows[i], rows[j]) {
        var d, k, e, l := TwoRows(z, start, end, peak, i, j);
        if d < e { WalksDoNotCollide(z, peak, d, k, e, l); }
      }
    } else {
      var d :| start < d <= end && BackStraddled(z, SLOTS_PER_DAY * d);
      var i, j := CarriedBackCollides(z, start, end, peak, d);
      if i < j { assert SameKey(rows[i], rows[j]); } else { assert SameKey(rows[j], rows[i]); }
    }
  }

  lemma CleanRangeIsUnique(z: Zone, start: int, end: int, peak: Peak)
    requires WellFormed(z) && CleanRange(z, start, end)
    ensures KeysAreUnique(AxisRows(z, start, end, peak))
  {
    var rows := AxisRows(z, start, end, peak);
    forall i, j | 0 <= i < j < |rows| ensures !SameKey(rows[i], rows[j]) {
      var d, k, e, l := TwoRows(z, start, end, peak, i, j);
      KeyOfSlot(z, d, k, peak);
      KeyOfSlot(z, e, l, peak);
      DayOwnsItsDate(z, d, Midnight(z, d) + k);
      DayOwnsItsDate(z, e, Midnight(z, e) + l);
    }
  }

  /**
    What the price fact's join relies on: no two rows share an instant, or a
    (date_id, interval_of_day) pair - on transitions far apart none of which
    carries the clock back over a midnight inside the range, or on any that
    touch none of its midnights.
   */
  lemma JoinKeysAreUnique(z: Zone, start: int, end: int, peak: Peak, i: nat, j: nat)
    requires (FarApart(z) && NoneCarriedBack(z, start, end)) || (WellFormed(z) && CleanRange(z, start, end))
    requires i < j < |AxisRows(z, start, end, peak)|
    ensures
      var (a, b) := (AxisRows(z, start, end, peak)[i], AxisRows(z, start, end, peak)[j]);
      && a.utc < b.utc && !SameKey(a, b)
      && (1 <= a.LocalDate() <= LAST_DAY && 1 <= b.LocalDate() <= LAST_DAY ==>
            a.DateId() != b.DateId() || a.intervalOfDay != b.intervalOfDay)
  {
    var rows := AxisRows(z, start, end, peak);
    var (a, b) := (rows[i], rows[j]);
    RangeAscends(z, start, end);
    if FarApart(z) && NoneCarriedBack(z, start, end) { KeysAreUniqueIff(z, start, end, peak); } else { CleanRangeIsUnique(z, start, end, peak); }
    var d, k, e, l := TwoRows(z, start, end, peak, i, j);
    RowsAreTheGrid(z, start, end, peak);
    assert !SameKey(a, b);
    if 1 <= a.LocalDate() <= LAST_DAY && 1 <= b.LocalDate() <= LAST_DAY {
      IdOrder(FromOrdinal(a.LocalDate()), FromOrdinal(b.LocalDate()));
    }
  }

  lemma RangeAscends(z: Zone, start: int, end: int)
    requires FarApart(z) || (WellFormed(z) && CleanRange(z, start, end))
    ensures AllAscend(z, start, end)
  {
    if FarApart(z) {
      forall d | start <= d <= end ensures Ascends(z, d) { FarMidnightsAscend(z, d); }
    } else {
      CleanRangeAscends(z, start, end);
    }
  }
}
