/**
  The chunked rebuild of the Gold tables: the month slices of
  src/shiden/backfill.py, the date-range overwrite of
  src/shiden/processing/delta_io.py, and the loop that ties them together.

  A Gold table is partitioned by market_id and date_id; it is modelled as a
  map from market to partition id to the rows stored there.
 */
module GoldBackfill {
  import opened Options
  import opened Calendar

  // ------------------------------------------------------------ month slices

  datatype Chunk = Chunk(start: Date, end: Date)

  /** A slice lies in one calendar month. */
  predicate InOneMonth(c: Chunk) {
    Valid(c.start) && Valid(c.end) && SameMonth(c.start, c.end) && c.start.day <= c.end.day
  }

  /** The next slice begins on the next day, which is in another month. */
  predicate Follows(c: Chunk, d: Chunk)
    requires InOneMonth(c) && InOneMonth(d)
  {
    Ordinal(d.start) == Ordinal(c.end) + 1 && !SameMonth(d.start, c.end)
  }

  ghost predicate Slices(chunks: seq<Chunk>) {
    && (forall i :: 0 <= i < |chunks| ==> InOneMonth(chunks[i]))
    && (forall i, j :: 0 <= i && j == i + 1 && j < |chunks| ==> Follows(chunks[i], chunks[j]))
  }

  /** The last day of the month, computed as the day before the first of the next month. */
  function LastOfMonth(d: Date): (last: Date)
    requires Valid(d) && !SameMonth(d, LAST)
    ensures last == d.(day := DaysInMonth(d.year, d.month))
  {
    Previous(if d.month == 12 then Date(d.year + 1, 1, 1) else Date(d.year, d.month + 1, 1))
  }

  /** What holds of the loop's cursor once a slice is out: it is done, or at the start of a month. */
  predicate ReadyAfter(c: Chunk, cursor: Date, end: Date) {
    && InOneMonth(c) && Valid(cursor) && Valid(end)
    && Ordinal(cursor) == Ordinal(c.end) + 1 && !SameMonth(c.end, LAST)
    && (AtMost(cursor, end) ==> !SameMonth(cursor, c.end))
    && (!AtMost(cursor, end) ==> c.end == end)
  }

  /** The loop's state: the slices so far, ending just before the cursor. */
  ghost predicate Underway(chunks: seq<Chunk>, start: Date, cursor: Date, end: Date) {
    && Slices(chunks)
    && (chunks == [] ==> cursor == start)
    && (chunks != [] ==> chunks[0].start == start && AtMost(start, end) && ReadyAfter(chunks[|chunks| - 1], cursor, end))
  }

  lemma StillUnderway(chunks: seq<Chunk>, start: Date, cursor: Date, end: Date, c: Chunk)
    requires Underway(chunks, start, cursor, end) && AtMost(cursor, end)
    requires c.start == cursor && InOneMonth(c) && Valid(c.end) && ReadyAfter(c, Next(c.end), end)
    ensures Underway(chunks + [c], start, Next(c.end), end)
  {}

  lemma SliceStep(cursor: Date, end: Date, chunkEnd: Date)
    requires Valid(cursor) && Valid(end) && AtMost(cursor, end) && !SameMonth(cursor, LAST)
    requires chunkEnd == if Before(end, LastOfMonth(cursor)) then end else LastOfMonth(cursor)
    ensures Valid(chunkEnd) && ReadyAfter(Chunk(cursor, chunkEnd), Next(chunkEnd), end)
    ensures Ordinal(cursor) < Ordinal(Next(chunkEnd)) && Ordinal(cursor) <= Ordinal(end)
  {
    NextIsOneDayOn(chunkEnd);
    OrdinalOrder(cursor, chunkEnd);
    OrdinalOrder(cursor, end);
  }

  /**
    Splits [start, end] into calendar-month slices.  It raises when it has to
    form the first day of the year 10000, that is when a slice would fall in
    December 9999.
   */
  method MonthChunks(start: Date, end: Date) returns (r: Result<seq<Chunk>>)
    requires Valid(start) && Valid(end)
    ensures r.OutOfRange? <==> AtMost(start, end) && SameMonth(end, LAST)
    ensures r.Ok? ==> Slices(r.value)
    ensures r.Ok? ==> (r.value != [] <==> AtMost(start, end))
    ensures r.Ok? && r.value != [] ==> r.value[0].start == start && r.value[|r.value| - 1].end == end
  {
    var chunks, cursor := [], start;
    while AtMost(cursor, end)
      invariant Valid(cursor) && Underway(chunks, start, cursor, end)
      decreases Ordinal(end) - Ordinal(cursor)
    {
      if cursor.month == 12 && cursor.year == MAX_YEAR {
        return OutOfRange;
      }
      var monthEnd := LastOfMonth(cursor);
      var chunkEnd := if Before(end, monthEnd) then end else monthEnd;
      SliceStep(cursor, end, chunkEnd);
      StillUnderway(chunks, start, cursor, end, Chunk(cursor, chunkEnd));
      chunks := chunks + [Chunk(cursor, chunkEnd)];
      cursor := Next(chunkEnd);
    }
    r := Ok(chunks);
  }

  predicate Covers(c: Chunk, d: Date)
    requires InOneMonth(c) && Valid(d)
  {
    Ordinal(c.start) <= Ordinal(d) <= Ordinal(c.end)
  }

  lemma {:induction false} SlicesAscend(chunks: seq<Chunk>, i: int, j: int)
    requires Slices(chunks) && 0 <= i < j < |chunks|
    ensures Ordinal(chunks[i].end) < Ordinal(chunks[j].start)
    decreases j
  {
    assert Follows(chunks[j - 1], chunks[j]);
    if i < j - 1 {
      SlicesAscend(chunks, i, j - 1);
    }
  }

  lemma {:induction false} SlicesCover(chunks: seq<Chunk>, d: Date, n: nat) returns (i: nat)
    requires Slices(chunks) && n < |chunks| && Valid(d)
    requires Ordinal(chunks[0].start) <= Ordinal(d) <= Ordinal(chunks[n].end)
    ensures i <= n && Covers(chunks[i], d)
  {
    if Ordinal(chunks[n].start) <= Ordinal(d) {
      i := n;
    } else {
      assert Follows(chunks[n - 1], chunks[n]);
      i := SlicesCover(chunks, d, n - 1);
    }
  }

  /** Every day of the range is in exactly one slice. */
  lemma SlicesPartition(chunks: seq<Chunk>, start: Date, end: Date, d: Date)
    requires Slices(chunks) && chunks != [] && Valid(d)
    requires chunks[0].start == start && chunks[|chunks| - 1].end == end
    requires AtMost(start, d) && AtMost(d, end)
    ensures exists i :: 0 <= i < |chunks| && Covers(chunks[i], d)
    ensures forall i, j :: 0 <= i < j < |chunks| ==> !(Covers(chunks[i], d) && Covers(chunks[j], d))
  {
    OrdinalOrder(start, d);
    OrdinalOrder(d, end);
    var i := SlicesCover(chunks, d, |chunks| - 1);
    forall i, j | 0 <= i < j < |chunks| ensures !(Covers(chunks[i], d) && Covers(chunks[j], d)) {
      SlicesAscend(chunks, i, j);
    }
  }

  // ------------------------------------------------------ date-range overwrite

  /** The partitions of one market: the rows of each day, by date_id. */
  type Days<Row> = map<int, seq<Row>>

  /** The rows a processor computes for the days with ids in [lo, hi]. */
  function Slice<Row>(days: Days<Row>, lo: int, hi: int): Days<Row> {
    map id | id in days && lo <= id <= hi :: days[id]
  }

  /** The partitions of a market once the ids in [lo, hi] hold what `days` has for them, and nothing else. */
  function Spliced<Row>(stored: Days<Row>, days: Days<Row>, lo: int, hi: int): Days<Row> {
    map id | id in stored.Keys + days.Keys && (if lo <= id <= hi then id in days else id in stored) ::
      if lo <= id <= hi then days[id] else stored[id]
  }

  /** Inside [lo, hi] the partitions are those of `days`, and outside it those of `before`, id by id. */
  ghost predicate Overwritten<Row(!new)>(before: Days<Row>, days: Days<Row>, lo: int, hi: int, now: Days<Row>) {
    && (forall id :: lo <= id <= hi ==> (id in now <==> id in days) && (id in now ==> now[id] == days[id]))
    && (forall id :: !(lo <= id <= hi) ==> (id in now <==> id in before) && (id in now ==> now[id] == before[id]))
  }

  lemma SplicedIsOverwritten<Row(!new)>(before: Days<Row>, days: Days<Row>, lo: int, hi: int)
    ensures Overwritten(before, days, lo, hi, Spliced(before, days, lo, hi))
  {}

  class GoldTable<Row(!new)> {
    /** None until the table is first written. */
    var rows: Option<map<string, Days<Row>>>

    constructor ()
      ensures rows == None
    {
      rows := None;
    }

    function Stored(market: string): Days<Row>
      reads this
    {
      if rows.Some? && market in rows.value then rows.value[market] else map[]
    }

    /** `replaceWhere` on one market and id range; the rows written lie inside it. */
    method ReplaceDateRange(df: Days<Row>, market: string, lo: int, hi: int)
      requires forall id :: id in df ==> lo <= id <= hi
      modifies this
      ensures rows.Some?
      ensures rows.value == (if old(rows).None? then map[] else old(rows).value)[market := Stored(market)]
      ensures Overwritten(old(Stored(market)), df, lo, hi, Stored(market))
      ensures Stored(market) == Spliced(old(Stored(market)), df, lo, hi)
    {
      if rows == None {
        rows := Some(map[market := df]);
        assert df == Spliced(map[], df, lo, hi);
      } else {
        var kept := Stored(market);
        rows := Some(rows.value[market := (map id | id in kept && !(lo <= id <= hi) :: kept[id]) + df]);
      }
    }
  }

  // -------------------------------------------------------------- the algebra

  /** A partition id that is the YYYYMMDD of a date. */
  ghost predicate IsDateId(id: int) {
    exists d :: Valid(d) && DateToId(d) == id
  }

  ghost predicate DateKeyed<Row>(days: Days<Row>) {
    forall id :: id in days ==> IsDateId(id)
  }

  /** A rebuild absorbs an earlier rebuild of a part of its range; with the same range, a repeat does nothing. */
  lemma RebuildAbsorbs<Row>(stored: Days<Row>, days: Days<Row>, lo: int, mid: int, hi: int)
    requires mid <= hi
    ensures Spliced(Spliced(stored, days, lo, mid), days, lo, hi) == Spliced(stored, days, lo, hi)
  {}

  /** Only ids that no date has can tell two adjacent overwrites from one. */
  lemma SpliceJoins<Row>(stored: Days<Row>, days: Days<Row>, lo: int, mid: int, next: int, hi: int)
    requires lo <= mid < next <= hi
    requires forall id :: mid < id < next ==> id !in stored && id !in days
    ensures Spliced(Spliced(stored, days, lo, mid), days, next, hi) == Spliced(stored, days, lo, hi)
  {}

  lemma NoDateBetween(b: Date, c: Date, id: int)
    requires Valid(b) && Valid(c) && Ordinal(c) == Ordinal(b) + 1
    requires DateToId(b) < id < DateToId(c)
    ensures !IsDateId(id)
  {
    if IsDateId(id) {
      var d :| Valid(d) && DateToId(d) == id;
      IdOrder(b, d);
      IdOrder(d, c);
    }
  }

  /** Two adjacent date ranges rebuilt in turn are one range rebuilt at once. */
  lemma RebuildJoins<Row>(stored: Days<Row>, days: Days<Row>, start: Date, b: Date, c: Chunk)
    requires DateKeyed(stored) && DateKeyed(days)
    requires Valid(start) && Valid(b) && InOneMonth(c)
    requires Ordinal(start) <= Ordinal(b) && Ordinal(c.start) == Ordinal(b) + 1
    ensures Spliced(Spliced(stored, days, DateToId(start), DateToId(b)), days, DateToId(c.start), DateToId(c.end))
         == Spliced(stored, days, DateToId(start), DateToId(c.end))
  {
    IdOrder(start, b);
    IdOrder(b, c.start);
    IdOrder(c.start, c.end);
    forall id | DateToId(b) < id < DateToId(c.start) ensures id !in stored && id !in days {
      NoDateBetween(b, c.start, id);
    }
    SpliceJoins(stored, days, DateToId(start), DateToId(b), DateToId(c.start), DateToId(c.end));
  }

  /** A processor need only compute the days of its own slice. */
  lemma SliceIsEnough<Row>(stored: Days<Row>, days: Days<Row>, lo: int, hi: int)
    ensures Spliced(stored, Slice(days, lo, hi), lo, hi) == Spliced(stored, days, lo, hi)
  {}

  // ---------------------------------------------------------- the chunked stage

  /**
    The Gold stage of the backfill for one table.  `days` is what the
    processor computes, day by day, from Silver.  Month by month it leaves the
    table as one overwrite of the whole range would; if the slicing raises,
    nothing has been written.
   */
  method StageGold<Row(!new)>(table: GoldTable<Row>, days: Days<Row>, market: string, start: Date, end: Date)
    returns (raised: bool)
    requires Valid(start) && Valid(end)
    requires DateKeyed(table.Stored(market)) && DateKeyed(days)
    modifies table
    ensures raised <==> AtMost(start, end) && SameMonth(end, LAST)
    ensures raised || !AtMost(start, end) ==> table.rows == old(table.rows)
    ensures !raised && AtMost(start, end) ==>
      && table.rows.Some?
      && Overwritten(old(table.Stored(market)), days, DateToId(start), DateToId(end), table.Stored(market))
      && table.Stored(market) == Spliced(old(table.Stored(market)), days, DateToId(start), DateToId(end))
    ensures forall other :: other != market ==> table.Stored(other) == old(table.Stored(other))
    ensures DateKeyed(table.Stored(market))
  {
    var chunks := MonthChunks(start, end);
    if chunks.OutOfRange? {
      return true;
    }
    RebuildSlices(table, days, market, chunks.value);
    SplicedIsOverwritten(old(table.Stored(market)), days, DateToId(start), DateToId(end));
    return false;
  }

  /** The loop over the slices. */
  method RebuildSlices<Row(!new)>(table: GoldTable<Row>, days: Days<Row>, market: string, chunks: seq<Chunk>)
    requires Slices(chunks) && DateKeyed(table.Stored(market)) && DateKeyed(days)
    modifies table
    ensures chunks == [] ==> table.rows == old(table.rows)
    ensures chunks != [] ==>
      table.rows.Some? && BuiltUpTo(chunks, |chunks|, old(table.Stored(market)), days, table.Stored(market))
    ensures forall other :: other != market ==> table.Stored(other) == old(table.Stored(other))
  {
    ghost var stored := table.Stored(market);
    for i := 0 to |chunks|
      invariant i == 0 ==> table.rows == old(table.rows)
      invariant i > 0 ==> table.rows.Some? && BuiltUpTo(chunks, i, stored, days, table.Stored(market))
      invariant forall other :: other != market ==> table.Stored(other) == old(table.Stored(other))
    {
      var c := chunks[i];
      var lo, hi := DateToId(c.start), DateToId(c.end);
      SliceIsEnough(table.Stored(market), days, lo, hi);
      table.ReplaceDateRange(Slice(days, lo, hi), market, lo, hi);
      OneSliceMore(chunks, i, stored, days);
    }
  }

  /** After `n` slices the table stands as if the range up to there had been rebuilt at once. */
  ghost predicate BuiltUpTo<Row>(chunks: seq<Chunk>, n: nat, stored: Days<Row>, days: Days<Row>, now: Days<Row>)
    requires 0 < n <= |chunks|
  {
    now == Spliced(stored, days, DateToId(chunks[0].start), DateToId(chunks[n - 1].end))
  }

  lemma OneSliceMore<Row>(chunks: seq<Chunk>, i: nat, stored: Days<Row>, days: Days<Row>)
    requires Slices(chunks) && i < |chunks| && DateKeyed(stored) && DateKeyed(days)
    ensures i > 0 ==>
      var before := Spliced(stored, days, DateToId(chunks[0].start), DateToId(chunks[i - 1].end));
      BuiltUpTo(chunks, i + 1, stored, days,
        Spliced(before, days, DateToId(chunks[i].start), DateToId(chunks[i].end)))
  {
    if i > 0 {
      assert Follows(chunks[i - 1], chunks[i]);
      if i > 1 { SlicesAscend(chunks, 0, i - 1); }
      RebuildJoins(stored, days, chunks[0].start, chunks[i - 1].end, chunks[i]);
    }
  }
}
