/**
  The reconciled, forward-filled FX table of
  src/shiden/processing/silver/exchange_rates.py, for one currency pair, and
  its month-by-month backfill (src/shiden/backfill.py).  Days are ordinals
  (Calendar.Ordinal); rates are reals.
 */
module ExchangeRates {
  import opened Options
  import opened Calendar
  import opened GoldBackfill

  /** How far before the window the Bronze rates are read. */
  const LOOKBACK_DAYS := 14
  const FORWARD_FILLED := "FORWARD_FILLED"

  type Rates = map<int, real>

  datatype Sources = Sources(primary: Rates, primaryName: string, secondary: Rates, secondaryName: string)
  {
    predicate Observed(d: int) { d in primary || d in secondary }

    /** The primary source wins. */
    function Rate(d: int): real
      requires Observed(d)
    {
      if d in primary then primary[d] else secondary[d]
    }

    function Name(d: int): string { if d in primary then primaryName else secondaryName }

    /** What is read for the days lo to hi. */
    function Window(lo: int, hi: int): Sources {
      this.(primary := map d | d in primary && lo <= d <= hi :: primary[d],
            secondary := map d | d in secondary && lo <= d <= hi :: secondary[d])
    }
  }

  datatype FxRow = FxRow(date: int, rate: real, source: string)

  // ------------------------------------------------- what the fill should be

  /** The latest observed day of the walk [walkFrom, d]. */
  function Latest(src: Sources, walkFrom: int, d: int): (o: Option<int>)
    ensures o.Some? ==> walkFrom <= o.value <= d && src.Observed(o.value)
    decreases d - walkFrom
  {
    if d < walkFrom then None
    else if src.Observed(d) then Some(d)
    else Latest(src, walkFrom, d - 1)
  }

  /** The row of day d: the latest observation on or before it, marked when it is carried forward. */
  function RowOf(src: Sources, walkFrom: int, d: int): Option<FxRow> {
    match Latest(src, walkFrom, d)
    case None => None
    case Some(o) => Some(FxRow(d, src.Rate(o), if o == d then src.Name(d) else FORWARD_FILLED))
  }

  /** The rows of the days in [start, end] that a walk from `walkFrom` can fill, by day. */
  function Fill(src: Sources, walkFrom: int, start: int, end: int): map<int, FxRow>
    decreases end - start
  {
    if end < start then map[]
    else
      var before := Fill(src, walkFrom, start, end - 1);
      match RowOf(src, walkFrom, end)
      case None => before
      case Some(row) => before[end := row]
  }

  lemma {:induction false} FillAt(src: Sources, walkFrom: int, start: int, end: int, d: int)
    ensures d in Fill(src, walkFrom, start, end) <==> start <= d <= end && RowOf(src, walkFrom, d).Some?
    ensures d in Fill(src, walkFrom, start, end) ==>
      Some(Fill(src, walkFrom, start, end)[d]) == RowOf(src, walkFrom, d)
    decreases end - start
  {
    if start <= end { FillAt(src, walkFrom, start, end - 1, d); }
  }

  lemma {:induction false} FillAgrees(src: Sources, src': Sources, from0: int, from1: int, start: int, end: int)
    requires forall d :: start <= d <= end ==> RowOf(src, from0, d) == RowOf(src', from1, d)
    ensures Fill(src, from0, start, end) == Fill(src', from1, start, end)
    decreases end - start
  {
    if start <= end { FillAgrees(src, src', from0, from1, start, end - 1); }
  }

  lemma {:induction false} LatestIsLatest(src: Sources, walkFrom: int, d: int)
    ensures match Latest(src, walkFrom, d)
            case None => forall k :: walkFrom <= k <= d ==> !src.Observed(k)
            case Some(o) => forall k :: o < k <= d ==> !src.Observed(k)
    decreases d - walkFrom
  {
    if d >= walkFrom && !src.Observed(d) {
      LatestIsLatest(src, walkFrom, d - 1);
    }
  }

  // ------------------------------------------------------------- the loop

  /** The rows as a table: by day. */
  function ByDay(rows: seq<FxRow>): map<int, FxRow> {
    if rows == [] then map[]
    else ByDay(rows[..|rows| - 1])[rows[|rows| - 1].date := rows[|rows| - 1]]
  }

  ghost predicate Ascending(rows: seq<FxRow>) {
    forall i, j :: 0 <= i < j < |rows| ==> rows[i].date < rows[j].date
  }

  ghost predicate AllBefore(rows: seq<FxRow>, d: int) {
    forall i :: 0 <= i < |rows| ==> rows[i].date < d
  }

  lemma Append(rows: seq<FxRow>, row: FxRow)
    requires Ascending(rows) && AllBefore(rows, row.date)
    ensures Ascending(rows + [row]) && AllBefore(rows + [row], row.date + 1)
    ensures ByDay(rows + [row]) == ByDay(rows)[row.date := row]
  {
    assert (rows + [row])[..|rows|] == rows;
  }

  /** The rate a day can be filled with. */
  function Carried(src: Sources, walkFrom: int, d: int): Option<real> {
    match Latest(src, walkFrom, d)
    case None => None
    case Some(o) => Some(src.Rate(o))
  }

  lemma CarriedOver(src: Sources, walkFrom: int, d: int)
    requires walkFrom <= d
    ensures
      var last := Carried(src, walkFrom, d - 1);
      && Carried(src, walkFrom, d) == (if src.Observed(d) then Some(src.Rate(d)) else last)
      && RowOf(src, walkFrom, d) ==
         (if src.Observed(d) then Some(FxRow(d, src.Rate(d), src.Name(d)))
          else if last.Some? then Some(FxRow(d, last.value, FORWARD_FILLED)) else None)
  {}

  lemma {:induction false} FillBeforeWalk(src: Sources, walkFrom: int, start: int, end: int)
    requires end < walkFrom
    ensures Fill(src, walkFrom, start, end) == map[]
    decreases end - start
  {
    if start <= end { FillBeforeWalk(src, walkFrom, start, end - 1); }
  }

  /** Where the walk stands before day d: the rows out so far and the rate to carry. */
  ghost predicate Walked(src: Sources, walkFrom: int, start: int, d: int, out: seq<FxRow>, lastRate: Option<real>) {
    && Ascending(out) && AllBefore(out, d)
    && ByDay(out) == Fill(src, walkFrom, start, d - 1)
    && lastRate == Carried(src, walkFrom, d - 1)
  }

  lemma WalkOn(src: Sources, walkFrom: int, start: int, d: int, out: seq<FxRow>, lastRate: Option<real>)
    requires Walked(src, walkFrom, start, d, out, lastRate) && walkFrom <= d
    ensures
      var row := if src.Observed(d) then Some(FxRow(d, src.Rate(d), src.Name(d)))
                 else if lastRate.Some? then Some(FxRow(d, lastRate.value, FORWARD_FILLED)) else None;
      Walked(src, walkFrom, start, d + 1,
        if row.Some? && d >= start then out + [row.value] else out,
        if src.Observed(d) then Some(src.Rate(d)) else lastRate)
  {
    CarriedOver(src, walkFrom, d);
    var row := RowOf(src, walkFrom, d);
    if row.Some? { Append(out, row.value); }
  }

  /** The loop of `reconcile_and_fill`. */
  method WalkDays(walkFrom: int, start: int, end: int, src: Sources) returns (out: seq<FxRow>)
    ensures Ascending(out) && ByDay(out) == Fill(src, walkFrom, start, end)
  {
    out := [];
    var lastRate: Option<real> := None;
    FillBeforeWalk(src, walkFrom, start, walkFrom - 1);
    if end < walkFrom { FillBeforeWalk(src, walkFrom, start, end); }
    var d := walkFrom;
    while d <= end
      invariant walkFrom <= d && (d <= end + 1 || d == walkFrom)
      invariant Walked(src, walkFrom, start, d, out, lastRate)
    {
      WalkOn(src, walkFrom, start, d, out, lastRate);
      if d in src.primary {
        lastRate := Some(src.primary[d]);
        if d >= start { out := out + [FxRow(d, src.primary[d], src.primaryName)]; }
      } else if d in src.secondary {
        lastRate := Some(src.secondary[d]);
        if d >= start { out := out + [FxRow(d, src.secondary[d], src.secondaryName)]; }
      } else if lastRate.Some? {
        if d >= start { out := out + [FxRow(d, lastRate.value, FORWARD_FILLED)]; }
      }
      d := d + 1;
    }
  }

  /** `reconcile_and_fill`: without a `fillStart` the walk begins at `start`. */
  method ReconcileAndFill(start: int, end: int, src: Sources, fillStart: Option<int>) returns (out: seq<FxRow>)
    ensures Ascending(out)
    ensures
      var walkFrom := if fillStart.Some? then fillStart.value else start;
      AreRows(src, walkFrom, start, end, ByDay(out)) && ByDay(out) == Fill(src, walkFrom, start, end)
  {
    var walkFrom := if fillStart.Some? then fillStart.value else start;
    out := WalkDays(walkFrom, start, end, src);
    FillIsRows(src, walkFrom, start, end);
  }

  /** Ascending rows are one a day, so each is the row of its day. */
  lemma {:induction false} RowsByDay(rows: seq<FxRow>)
    requires Ascending(rows)
    ensures forall row :: row in rows <==> row.date in ByDay(rows) && ByDay(rows)[row.date] == row
    ensures forall d :: d in ByDay(rows) ==> ByDay(rows)[d].date == d
  {
    if rows != [] {
      var init, last := rows[..|rows| - 1], rows[|rows| - 1];
      RowsByDay(init);
      assert rows == init + [last];
      forall row | row in init ensures row.date < last.date {
        var i :| 0 <= i < |init| && init[i] == row;
        assert rows[i] == row;
      }
    }
  }

  // ------------------------------------------------------ the rows in plain terms

  /** The rate published for a day and who published it: the primary source's, or else the secondary's. */
  ghost predicate IsPublished(src: Sources, d: int, rate: real, name: string) {
    if d in src.primary then rate == src.primary[d] && name == src.primaryName
    else d in src.secondary && rate == src.secondary[d] && name == src.secondaryName
  }

  ghost predicate IsSilent(src: Sources, d: int) { d !in src.primary && d !in src.secondary }

  /** A row is what was published for its day, or the last rate published before it in the walk, marked as carried forward. */
  ghost predicate IsRow(src: Sources, walkFrom: int, row: FxRow) {
    if IsSilent(src, row.date) then
      && row.source == "FORWARD_FILLED"
      && exists o, name :: walkFrom <= o < row.date && IsPublished(src, o, row.rate, name)
                           && forall k :: o < k <= row.date ==> IsSilent(src, k)
    else IsPublished(src, row.date, row.rate, row.source)
  }

  /** Exactly the days of the window on or before which the walk finds something published have a row. */
  ghost predicate AreRows(src: Sources, walkFrom: int, start: int, end: int, rows: map<int, FxRow>) {
    && (forall d :: d in rows ==> start <= d <= end && walkFrom <= d && rows[d].date == d && IsRow(src, walkFrom, rows[d]))
    && (forall d, o :: start <= d <= end && walkFrom <= o <= d && !IsSilent(src, o) ==> d in rows)
  }

  lemma RowOfIsRow(src: Sources, walkFrom: int, d: int)
    ensures RowOf(src, walkFrom, d).Some? ==> walkFrom <= d && RowOf(src, walkFrom, d).value.date == d
    ensures RowOf(src, walkFrom, d).Some? ==> IsRow(src, walkFrom, RowOf(src, walkFrom, d).value)
    ensures RowOf(src, walkFrom, d).None? ==> forall o :: walkFrom <= o <= d ==> IsSilent(src, o)
  {
    LatestIsLatest(src, walkFrom, d);
    var latest := Latest(src, walkFrom, d);
    if latest.Some? && latest.value < d {
      var o, row := latest.value, RowOf(src, walkFrom, d).value;
      assert IsPublished(src, o, row.rate, src.Name(o));
      forall k | o < k <= d ensures IsSilent(src, k) { assert !src.Observed(k); }
    } else if latest.None? {
      forall o | walkFrom <= o <= d ensures IsSilent(src, o) { assert !src.Observed(o); }
    }
  }

  lemma FillIsRows(src: Sources, walkFrom: int, start: int, end: int)
    ensures AreRows(src, walkFrom, start, end, Fill(src, walkFrom, start, end))
  {
    var rows := Fill(src, walkFrom, start, end);
    forall d | d in rows ensures start <= d <= end && walkFrom <= d && rows[d].date == d && IsRow(src, walkFrom, rows[d]) {
      FillAt(src, walkFrom, start, end, d);
      RowOfIsRow(src, walkFrom, d);
    }
    forall d, o | start <= d <= end && walkFrom <= o <= d && !IsSilent(src, o) ensures d in rows {
      FillAt(src, walkFrom, start, end, d);
      RowOfIsRow(src, walkFrom, d);
    }
  }

  /** The row of a day is that day's: one table with `AreRows` is all there is. */
  lemma RowsAreUnique(src: Sources, walkFrom: int, start: int, end: int, rows: map<int, FxRow>, rows': map<int, FxRow>)
    requires AreRows(src, walkFrom, start, end, rows) && AreRows(src, walkFrom, start, end, rows')
    ensures rows == rows'
  {
    forall d ensures (d in rows <==> d in rows') && (d in rows ==> rows[d] == rows'[d]) {
      if d in rows { RowNeedsSource(src, walkFrom, rows[d]); }
      if d in rows' { RowNeedsSource(src, walkFrom, rows'[d]); }
      if d in rows && d in rows' && IsSilent(src, d) {
        var o, name :| walkFrom <= o < d && IsPublished(src, o, rows[d].rate, name) && forall k :: o < k <= d ==> IsSilent(src, k);
        var o', name' :| walkFrom <= o' < d && IsPublished(src, o', rows'[d].rate, name') && forall k :: o' < k <= d ==> IsSilent(src, k);
        assert !IsSilent(src, o) && !IsSilent(src, o');
      }
    }
  }

  lemma RowNeedsSource(src: Sources, walkFrom: int, row: FxRow)
    requires IsRow(src, walkFrom, row) && walkFrom <= row.date
    ensures exists o :: walkFrom <= o <= row.date && !IsSilent(src, o)
  {
    if IsSilent(src, row.date) {
      var o, name :| walkFrom <= o < row.date && IsPublished(src, o, row.rate, name);
      assert !IsSilent(src, o);
    }
  }

  // ---------------------------------------------------------- the processor

  class ExchangeRatesTable {
    /** None until the table is first written. */
    var rows: Option<map<int, FxRow>>

    constructor ()
      ensures rows == None
    {
      rows := None;
    }

    function Stored(): map<int, FxRow>
      reads this
    {
      if rows.Some? then rows.value else map[]
    }

    /** Reads the sources from fourteen days back on, fills, and merges by day: filled days are replaced, others stay. */
    method Process(src: Sources, start: int, end: int)
      modifies this
      ensures exists rows :: AreRows(src, start - 14, start, end, rows) && Stored() == old(Stored()) + rows
      ensures Stored() == old(Stored()) + Fill(src, start - LOOKBACK_DAYS, start, end)
    {
      var fillStart := start - LOOKBACK_DAYS;
      var incoming := ReconcileAndFill(start, end, src.Window(fillStart, end), Some(fillStart));
      WindowIsEnough(src, fillStart, start, end);
      Merge(incoming);
      FillIsRows(src, fillStart, start, end);
    }

    /** `merge_upsert` by day; the source merges nothing when there are no rows. */
    method Merge(incoming: seq<FxRow>)
      modifies this
      ensures Stored() == old(Stored()) + ByDay(incoming)
      ensures incoming == [] ==> rows == old(rows)
    {
      if incoming == [] {
        return;
      }
      var merged := Stored();
      for i := 0 to |incoming|
        invariant merged == old(Stored()) + ByDay(incoming[..i])
      {
        assert incoming[..i + 1][..i] == incoming[..i];
        merged := merged[incoming[i].date := incoming[i]];
      }
      assert incoming[..|incoming|] == incoming;
      rows := Some(merged);
    }
  }

  lemma {:induction false} LatestInWindow(src: Sources, lo: int, hi: int, d: int)
    requires d <= hi
    ensures Latest(src.Window(lo, hi), lo, d) == Latest(src, lo, d)
    decreases d - lo
  {
    if d >= lo {
      LatestInWindow(src, lo, hi, d - 1);
    }
  }

  lemma WindowIsEnough(src: Sources, lo: int, start: int, end: int)
    ensures Fill(src.Window(lo, end), lo, start, end) == Fill(src, lo, start, end)
  {
    forall d | start <= d <= end ensures RowOf(src.Window(lo, end), lo, d) == RowOf(src, lo, d) {
      LatestInWindow(src, lo, end, d);
      LatestIsLatest(src, lo, d);
    }
    FillAgrees(src.Window(lo, end), src, lo, lo, start, end);
  }

  // --------------------------------------------- chunked against one whole run

  /**
    The first day of a chunk can be filled from its own lookback whenever the
    whole run could fill it: the latest observation the whole walk sees at
    `c` is no older than the lookback.
   */
  predicate Seeded(src: Sources, start: int, c: int) {
    var o := Latest(src, start - LOOKBACK_DAYS, c);
    o.Some? ==> o.value >= c - LOOKBACK_DAYS
  }

  /** A walk that starts later sees the same latest observation, or none. */
  lemma LaterWalk(src: Sources, from0: int, from1: int, d: int)
    requires from0 <= from1
    ensures
      var (whole, part) := (Latest(src, from0, d), Latest(src, from1, d));
      part == if whole.Some? && whole.value >= from1 then whole else None
  {
    LatestIsLatest(src, from0, d);
    LatestIsLatest(src, from1, d);
  }

  /** A chunk yields exactly the rows of the whole run for its days, if and only if it is seeded. */
  lemma ChunkAgreesIff(src: Sources, start: int, c: int, e: int)
    requires start <= c <= e
    ensures Fill(src, c - LOOKBACK_DAYS, c, e) == Fill(src, start - LOOKBACK_DAYS, c, e) <==> Seeded(src, start, c)
  {
    var from0, from1 := start - LOOKBACK_DAYS, c - LOOKBACK_DAYS;
    LaterWalk(src, from0, from1, c);
    if Seeded(src, start, c) {
      forall d | c <= d <= e ensures RowOf(src, from1, d) == RowOf(src, from0, d) {
        LaterWalk(src, from0, from1, d);
        LatestIsLatest(src, from0, c);
        LatestIsLatest(src, from0, d);
      }
      FillAgrees(src, src, from1, from0, c, e);
    } else {
      FillAt(src, from0, c, e, c);
      FillAt(src, from1, c, e, c);
    }
  }

  /** Chunks as spans of ordinals, in the order they run. */
  datatype Spans = Nothing | Also(before: Spans, lo: int, hi: int)

  /** Each span begins on the day after the one before; `first` is where they begin. */
  predicate Adjoining(spans: Spans, first: int) {
    match spans
    case Nothing => true
    case Also(before, lo, hi) =>
      first <= lo <= hi && Adjoining(before, first) && lo == if before.Nothing? then first else before.hi + 1
  }

  /** The rows the chunks write between them. */
  function ChunkFills(src: Sources, spans: Spans): map<int, FxRow> {
    match spans
    case Nothing => map[]
    case Also(before, lo, hi) => ChunkFills(src, before) + Fill(src, lo - LOOKBACK_DAYS, lo, hi)
  }

  predicate AllSeeded(src: Sources, start: int, spans: Spans) {
    spans.Also? ==> AllSeeded(src, start, spans.before) && Seeded(src, start, spans.lo)
  }

  ghost predicate Within<V>(t: map<int, V>, lo: int, hi: int) {
    forall d :: d in t ==> lo <= d <= hi
  }

  lemma {:induction false} ChunkDays(src: Sources, spans: Spans, first: int)
    requires Adjoining(spans, first)
    ensures spans.Also? ==> Within(ChunkFills(src, spans), first, spans.hi)
    ensures spans.Nothing? ==> ChunkFills(src, spans) == map[]
  {
    if spans.Also? {
      ChunkDays(src, spans.before, first);
      FillDays(src, spans.lo - LOOKBACK_DAYS, spans.lo, spans.hi);
    }
  }

  lemma {:induction false} FillDays(src: Sources, walkFrom: int, start: int, end: int)
    ensures Within(Fill(src, walkFrom, start, end), start, end)
    decreases end - start
  {
    if start <= end { FillDays(src, walkFrom, start, end - 1); }
  }

  lemma {:induction false} FillSplits(src: Sources, walkFrom: int, start: int, mid: int, end: int)
    requires start <= mid + 1 <= end + 1
    ensures Fill(src, walkFrom, start, mid) + Fill(src, walkFrom, mid + 1, end) == Fill(src, walkFrom, start, end)
    decreases end - start
  {
    if mid < end { FillSplits(src, walkFrom, start, mid, end - 1); }
  }

  lemma DisjointUnion<V>(a: map<int, V>, b: map<int, V>, a': map<int, V>, b': map<int, V>, c: int, lo: int, hi: int)
    requires Within(a, lo, c - 1) && Within(a', lo, c - 1) && Within(b, c, hi) && Within(b', c, hi)
    ensures a + b == a' + b' <==> a == a' && b == b'
  {
    if a + b == a' + b' {
      forall d ensures (d in a <==> d in a') && (d in a ==> a[d] == a'[d])
               ensures (d in b <==> d in b') && (d in b ==> b[d] == b'[d])
      {
        assert d in a + b <==> d in a' + b';
        assert d in a + b ==> (a + b)[d] == (a' + b')[d];
      }
    }
  }

  lemma OneChunkMore(src: Sources, before: Spans, lo: int, hi: int, start: int)
    requires Adjoining(Also(before, lo, hi), start) && before.Also?
    ensures
      var walk := start - LOOKBACK_DAYS;
      ChunkFills(src, Also(before, lo, hi)) == Fill(src, walk, start, hi) <==>
        && ChunkFills(src, before) == Fill(src, walk, start, lo - 1)
        && Fill(src, lo - LOOKBACK_DAYS, lo, hi) == Fill(src, walk, lo, hi)
  {
    var walk := start - LOOKBACK_DAYS;
    ChunkDays(src, before, start);
    FillSplits(src, walk, start, lo - 1, hi);
    FillDays(src, lo - LOOKBACK_DAYS, lo, hi);
    FillDays(src, walk, start, lo - 1);
    FillDays(src, walk, lo, hi);
    DisjointUnion(ChunkFills(src, before), Fill(src, lo - LOOKBACK_DAYS, lo, hi),
      Fill(src, walk, start, lo - 1), Fill(src, walk, lo, hi), lo, start, hi);
  }

  /**
    The month-by-month backfill writes the rows of one whole run if and only
    if every month's first day is seeded.
   */
  lemma {:induction false} ChunksAgreeIff(src: Sources, spans: Spans, start: int)
    requires Adjoining(spans, start) && spans.Also?
    ensures ChunkFills(src, spans) == Fill(src, start - LOOKBACK_DAYS, start, spans.hi) <==> AllSeeded(src, start, spans)
  {
    var Also(before, lo, hi) := spans;
    var walk := start - LOOKBACK_DAYS;
    ChunkAgreesIff(src, start, lo, hi);
    if before.Also? {
      ChunksAgreeIff(src, before, start);
      OneChunkMore(src, before, lo, hi, start);
    } else {
      assert map[] + Fill(src, lo - LOOKBACK_DAYS, lo, hi) == Fill(src, lo - LOOKBACK_DAYS, lo, hi);
    }
  }

  /** The plainest failure: one observation at the start of a month, and none up to the next month. */
  lemma UnseededMonth(s: int, rate: real, name: string)
    ensures
      var src := Sources(map[s := rate], name, map[], "");
      var spans := Also(Also(Nothing, s, s + 30), s + 31, s + 60);
      Adjoining(spans, s) && ChunkFills(src, spans) != Fill(src, s - LOOKBACK_DAYS, s, s + 60)
  {
    var src := Sources(map[s := rate], name, map[], "");
    var spans := Also(Also(Nothing, s, s + 30), s + 31, s + 60);
    assert src.Observed(s);
    LatestIsLatest(src, s - LOOKBACK_DAYS, s + 31);
    assert Latest(src, s - LOOKBACK_DAYS, s + 31) == Some(s);
    assert !Seeded(src, s, s + 31);
    ChunksAgreeIff(src, spans, s);
  }

  /** After an observation the next one comes within fifteen days, as long as the range lasts. */
  ghost predicate GapsAtMostLookback(src: Sources, lo: int, hi: int) {
    forall o {:trigger NextIsNear(src, o)} ::
      lo <= o && o + LOOKBACK_DAYS + 1 <= hi && src.Observed(o) ==> NextIsNear(src, o)
  }

  ghost predicate NextIsNear(src: Sources, o: int) {
    exists d :: o < d <= o + LOOKBACK_DAYS + 1 && src.Observed(d)
  }

  /** What the lookback constant is chosen for: gaps of at most fourteen days seed every chunk. */
  lemma ShortGapsSeed(src: Sources, start: int, c: int, hi: int)
    requires start <= c <= hi && GapsAtMostLookback(src, start - LOOKBACK_DAYS, hi)
    ensures Seeded(src, start, c)
  {
    LatestIsLatest(src, start - LOOKBACK_DAYS, c);
    var o := Latest(src, start - LOOKBACK_DAYS, c);
    assert o.Some? && o.value < c - LOOKBACK_DAYS ==> NextIsNear(src, o.value);
  }

  lemma {:induction false} ShortGapsSeedAll(src: Sources, spans: Spans, start: int, hi: int)
    requires Adjoining(spans, start) && (spans.Also? ==> spans.hi <= hi)
    requires GapsAtMostLookback(src, start - LOOKBACK_DAYS, hi)
    ensures AllSeeded(src, start, spans)
  {
    if spans.Also? {
      ShortGapsSeedAll(src, spans.before, start, hi);
      ShortGapsSeed(src, start, spans.lo, hi);
    }
  }

  lemma UnionAssociates<V>(a: map<int, V>, b: map<int, V>, c: map<int, V>)
    ensures (a + b) + c == a + (b + c)
  {}

  lemma ChunkDone(stored: map<int, FxRow>, src: Sources, spans: Spans, lo: int, hi: int)
    ensures (stored + ChunkFills(src, spans)) + Fill(src, lo - LOOKBACK_DAYS, lo, hi)
         == stored + ChunkFills(src, Also(spans, lo, hi))
  {
    UnionAssociates(stored, ChunkFills(src, spans), Fill(src, lo - LOOKBACK_DAYS, lo, hi));
  }

  /** The spans so far are the first `n` chunks. */
  ghost predicate Covering(spans: Spans, chunks: seq<Chunk>, n: nat)
    requires Slices(chunks) && n <= |chunks|
  {
    if n == 0 then spans.Nothing?
    else spans.Also? && Adjoining(spans, Ordinal(chunks[0].start)) && spans.hi == Ordinal(chunks[n - 1].end)
  }

  lemma CoverOneMore(spans: Spans, chunks: seq<Chunk>, n: nat)
    requires Slices(chunks) && n < |chunks| && Covering(spans, chunks, n)
    ensures Covering(Also(spans, Ordinal(chunks[n].start), Ordinal(chunks[n].end)), chunks, n + 1)
  {
    if n > 0 {
      assert Follows(chunks[n - 1], chunks[n]);
      SlicesAscend(chunks, 0, n);
    }
  }

  /** The Silver stage's FX loop over the month slices; `spans` records them. */
  method RunChunks(table: ExchangeRatesTable, src: Sources, chunks: seq<Chunk>) returns (ghost spans: Spans)
    requires Slices(chunks)
    modifies table
    ensures Covering(spans, chunks, |chunks|)
    ensures table.Stored() == old(table.Stored()) + ChunkFills(src, spans)
  {
    spans := Nothing;
    ghost var stored := table.Stored();
    for i := 0 to |chunks|
      invariant Covering(spans, chunks, i)
      invariant table.Stored() == stored + ChunkFills(src, spans)
    {
      var lo, hi := Ordinal(chunks[i].start), Ordinal(chunks[i].end);
      ChunkDone(stored, src, spans, lo, hi);
      table.Process(src, lo, hi);
      CoverOneMore(spans, chunks, i);
      spans := Also(spans, lo, hi);
    }
  }

  /**
    The FX part of the backfill's Silver stage.  With gaps of at most fourteen
    days the table ends as one run over the whole range would leave it.
   */
  method StageSilverFx(table: ExchangeRatesTable, src: Sources, start: Date, end: Date) returns (raised: bool)
    requires Valid(start) && Valid(end)
    modifies table
    ensures raised <==> AtMost(start, end) && SameMonth(end, LAST)
    ensures raised || !AtMost(start, end) ==> table.Stored() == old(table.Stored())
    ensures !raised && AtMost(start, end) && GapsAtMostLookback(src, Ordinal(start) - LOOKBACK_DAYS, Ordinal(end)) ==>
      exists rows :: AreRows(src, Ordinal(start) - 14, Ordinal(start), Ordinal(end), rows) && table.Stored() == old(table.Stored()) + rows
  {
    var chunks := MonthChunks(start, end);
    if chunks.OutOfRange? {
      return true;
    }
    ghost var spans := RunChunks(table, src, chunks.value);
    if chunks.value != [] && GapsAtMostLookback(src, Ordinal(start) - LOOKBACK_DAYS, Ordinal(end)) {
      WholeSpan(src, spans, Ordinal(start), Ordinal(end));
      FillIsRows(src, Ordinal(start) - LOOKBACK_DAYS, Ordinal(start), Ordinal(end));
    }
    return false;
  }

  lemma WholeSpan(src: Sources, spans: Spans, start: int, end: int)
    requires Adjoining(spans, start) && spans.Also? && spans.hi == end
    requires GapsAtMostLookback(src, start - LOOKBACK_DAYS, end)
    ensures ChunkFills(src, spans) == Fill(src, start - LOOKBACK_DAYS, start, end)
  {
    ShortGapsSeedAll(src, spans, start, end);
    ChunksAgreeIff(src, spans, start);
  }
}
