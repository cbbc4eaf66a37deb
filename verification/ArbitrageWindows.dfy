/**
  The arbitrage windows of the BESS router (src/shiden/api/routers/bess.py):
  a day's rows, sorted by time_id, are collapsed into runs of equal signal, and
  the runs that charge or discharge are published.  Clock labels are left out.
 */
module ArbitrageWindows {
  import opened Options
  import opened BessSignals

  datatype Row = Row(timeId: int, price: Option<real>, signal: int)

  datatype Window = Window(startTimeId: int, endTimeId: int, avgPrice: Option<real>, nSlots: int)

  ghost predicate SignalsInRange(rows: seq<Row>) {
    forall i :: 0 <= i < |rows| ==> rows[i].signal == CHARGE || rows[i].signal == IDLE || rows[i].signal == DISCHARGE
  }

  /** The state of `sort_values("time_id")`. */
  ghost predicate Ascending(rows: seq<Row>) {
    forall i, j :: 0 <= i < j < |rows| ==> rows[i].timeId <= rows[j].timeId
  }

  // --------------------------------------------------------------- a window

  function PriceSum(rows: seq<Row>, lo: nat, hi: nat): real
    requires lo <= hi <= |rows|
  {
    if lo == hi then 0.0
    else PriceSum(rows, lo, hi - 1) + if rows[hi - 1].price.Some? then rows[hi - 1].price.value else 0.0
  }

  function PriceCount(rows: seq<Row>, lo: nat, hi: nat): nat
    requires lo <= hi <= |rows|
  {
    if lo == hi then 0 else PriceCount(rows, lo, hi - 1) + if rows[hi - 1].price.Some? then 1 else 0
  }

  /** The mean of the prices present, if there is any. */
  function Average(rows: seq<Row>, lo: nat, hi: nat): Option<real>
    requires lo <= hi <= |rows|
  {
    if PriceCount(rows, lo, hi) == 0 then None
    else Some(PriceSum(rows, lo, hi) / PriceCount(rows, lo, hi) as real)
  }

  /** The window published for the rows from place lo up to hi. */
  function WindowOf(rows: seq<Row>, lo: nat, hi: nat): Window
    requires lo < hi <= |rows|
  {
    Window(rows[lo].timeId, rows[hi - 1].timeId, Average(rows, lo, hi), hi - lo)
  }

  // ------------------------------------------------------- runs of one signal

  /** Stretches of rows, the latest on the outside. */
  datatype Runs = Nowhere | Also(before: Runs, lo: nat, hi: nat)

  predicate AllHave(rows: seq<Row>, signal: int, lo: nat, hi: nat)
    requires hi <= |rows|
  {
    forall i :: lo <= i < hi ==> rows[i].signal == signal
  }

  predicate NoneHave(rows: seq<Row>, signal: int, lo: nat, hi: nat)
    requires hi <= |rows|
  {
    forall i :: lo <= i < hi ==> rows[i].signal != signal
  }

  /** The maximal runs of one signal among the first n rows: complete, in order, and no two touching. */
  predicate AreRuns(rows: seq<Row>, n: nat, signal: int, runs: Runs) {
    n <= |rows| &&
    match runs
    case Nowhere => NoneHave(rows, signal, 0, n)
    case Also(before, lo, hi) =>
      && lo < hi <= n && AllHave(rows, signal, lo, hi) && NoneHave(rows, signal, hi, n)
      && (hi < |rows| ==> rows[hi].signal != signal)
      && (lo > 0 ==> rows[lo - 1].signal != signal)
      && AreRuns(rows, lo, signal, before)
  }

  /** The windows published for some runs. */
  function WindowsOf(rows: seq<Row>, n: nat, signal: int, runs: Runs): seq<Window>
    requires AreRuns(rows, n, signal, runs)
    decreases runs
  {
    match runs
    case Nowhere => []
    case Also(before, lo, hi) => WindowsOf(rows, lo, signal, before) + [WindowOf(rows, lo, hi)]
  }

  ghost predicate Publishes(rows: seq<Row>, n: nat, signal: int, runs: Runs, windows: seq<Window>) {
    AreRuns(rows, n, signal, runs) && windows == WindowsOf(rows, n, signal, runs)
  }

  lemma PassOver(rows: seq<Row>, lo: nat, hi: nat, signal: int, runs: Runs, windows: seq<Window>)
    requires Publishes(rows, lo, signal, runs, windows) && lo <= hi <= |rows| && NoneHave(rows, signal, lo, hi)
    ensures Publishes(rows, hi, signal, runs, windows)
  {}

  lemma OneMoreRun(rows: seq<Row>, lo: nat, hi: nat, signal: int, runs: Runs, windows: seq<Window>)
    requires Publishes(rows, lo, signal, runs, windows) && lo < hi <= |rows| && AllHave(rows, signal, lo, hi)
    requires (lo > 0 ==> rows[lo - 1].signal != signal) && (hi < |rows| ==> rows[hi].signal != signal)
    ensures Publishes(rows, hi, signal, Also(runs, lo, hi), windows + [WindowOf(rows, lo, hi)])
  {}

  /** The windows are those of the maximal runs of the signal. */
  ghost predicate Published(rows: seq<Row>, signal: int, windows: seq<Window>) {
    exists runs :: Publishes(rows, |rows|, signal, runs, windows)
  }

  /** The endpoint's grouping of a day's rows. */
  method GetArbitrageWindows(rows: seq<Row>) returns (chargeWindows: seq<Window>, dischargeWindows: seq<Window>)
    requires SignalsInRange(rows)
    ensures Published(rows, -1, chargeWindows) && Published(rows, 1, dischargeWindows)
    ensures Ascending(rows) ==>
      && (Decodes(rows, -1, chargeWindows) <==> SignalFollowsTimeId(rows, -1))
      && (Decodes(rows, 1, dischargeWindows) <==> SignalFollowsTimeId(rows, 1))
  {
    chargeWindows, dischargeWindows := [], [];
    ghost var charges, discharges := Nowhere, Nowhere;
    var lo := 0;
    while lo < |rows|
      invariant lo <= |rows|
      invariant 0 < lo < |rows| ==> rows[lo - 1].signal != rows[lo].signal
      invariant Publishes(rows, lo, CHARGE, charges, chargeWindows)
      invariant Publishes(rows, lo, DISCHARGE, discharges, dischargeWindows)
    {
      var signal := rows[lo].signal;
      var hi, avgPrice := TakeGroup(rows, lo);
      if signal != CHARGE { PassOver(rows, lo, hi, CHARGE, charges, chargeWindows); }
      if signal != DISCHARGE { PassOver(rows, lo, hi, DISCHARGE, discharges, dischargeWindows); }
      if signal != IDLE {
        var window := Window(rows[lo].timeId, rows[hi - 1].timeId, avgPrice, hi - lo);
        if signal == CHARGE {
          OneMoreRun(rows, lo, hi, CHARGE, charges, chargeWindows);
          charges := Also(charges, lo, hi);
          chargeWindows := chargeWindows + [window];
        } else {
          OneMoreRun(rows, lo, hi, DISCHARGE, discharges, dischargeWindows);
          discharges := Also(discharges, lo, hi);
          dischargeWindows := dischargeWindows + [window];
        }
      }
      lo := hi;
    }
    if Ascending(rows) {
      WindowsDecodeIff(rows, CHARGE, charges, chargeWindows);
      WindowsDecodeIff(rows, DISCHARGE, discharges, dischargeWindows);
    }
  }

  /** One group of `groupby`: the rows from `lo` on that keep its signal, and the mean of their prices. */
  method TakeGroup(rows: seq<Row>, lo: nat) returns (hi: nat, avgPrice: Option<real>)
    requires lo < |rows|
    ensures lo < hi <= |rows| && AllHave(rows, rows[lo].signal, lo, hi)
    ensures hi < |rows| ==> rows[hi].signal != rows[lo].signal
    ensures avgPrice == Average(rows, lo, hi)
  {
    hi := lo;
    var sum, count := 0.0, 0;
    while hi < |rows| && rows[hi].signal == rows[lo].signal
      invariant lo <= hi <= |rows| && AllHave(rows, rows[lo].signal, lo, hi)
      invariant sum == PriceSum(rows, lo, hi) && count == PriceCount(rows, lo, hi)
    {
      if rows[hi].price.Some? {
        sum, count := sum + rows[hi].price.value, count + 1;
      }
      hi := hi + 1;
    }
    avgPrice := if count == 0 then None else Some(sum / count as real);
  }

  // ------------------------------------------------------- reading windows back

  /** Some published window spans the time_id. */
  predicate Spanned(windows: seq<Window>, timeId: int) {
    windows != [] &&
      var w := windows[|windows| - 1];
      (w.startTimeId <= timeId <= w.endTimeId || Spanned(windows[..|windows| - 1], timeId))
  }

  /** Taking every spanned time_id for the windows' signal, and every other for another, is right for each row. */
  ghost predicate Decodes(rows: seq<Row>, signal: int, windows: seq<Window>) {
    forall i :: 0 <= i < |rows| ==> (rows[i].signal == signal <==> Spanned(windows, rows[i].timeId))
  }

  /** Rows with one time_id carry the signal together or not at all. */
  ghost predicate SignalFollowsTimeId(rows: seq<Row>, signal: int) {
    forall i, j :: 0 <= i < j < |rows| && rows[i].timeId == rows[j].timeId ==>
      (rows[i].signal == signal <==> rows[j].signal == signal)
  }

  lemma SpannedByOneMore(windows: seq<Window>, w: Window, timeId: int)
    ensures Spanned(windows + [w], timeId) <==> w.startTimeId <= timeId <= w.endTimeId || Spanned(windows, timeId)
  {
    assert (windows + [w])[..|windows|] == windows;
  }

  lemma {:induction false} RunSpans(rows: seq<Row>, n: nat, signal: int, runs: Runs, i: nat)
    requires Ascending(rows) && AreRuns(rows, n, signal, runs) && i < n && rows[i].signal == signal
    ensures Spanned(WindowsOf(rows, n, signal, runs), rows[i].timeId)
    decreases runs
  {
    var Also(before, lo, hi) := runs;
    SpannedByOneMore(WindowsOf(rows, lo, signal, before), WindowOf(rows, lo, hi), rows[i].timeId);
    if i < lo { RunSpans(rows, lo, signal, before, i); }
  }

  lemma {:induction false} SpannedShares(rows: seq<Row>, n: nat, signal: int, runs: Runs, i: nat) returns (j: nat)
    requires Ascending(rows) && AreRuns(rows, n, signal, runs) && i < |rows|
    requires Spanned(WindowsOf(rows, n, signal, runs), rows[i].timeId)
    ensures j < |rows| && rows[j].timeId == rows[i].timeId && rows[j].signal == signal
    decreases runs
  {
    var Also(before, lo, hi) := runs;
    SpannedByOneMore(WindowsOf(rows, lo, signal, before), WindowOf(rows, lo, hi), rows[i].timeId);
    if rows[lo].timeId <= rows[i].timeId <= rows[hi - 1].timeId {
      j := if i < lo then lo else if i < hi then i else hi - 1;
    } else {
      j := SpannedShares(rows, lo, signal, before, i);
    }
  }

  /**
    The published windows give back the day's signals exactly when rows that
    share a time_id share the signal.  On a day with distinct time_ids they
    always do; when an hour is repeated they may not.
   */
  lemma WindowsDecodeIff(rows: seq<Row>, signal: int, runs: Runs, windows: seq<Window>)
    requires Ascending(rows) && Publishes(rows, |rows|, signal, runs, windows)
    ensures Decodes(rows, signal, windows) <==> SignalFollowsTimeId(rows, signal)
  {
    forall i | 0 <= i < |rows| && rows[i].signal == signal ensures Spanned(windows, rows[i].timeId) {
      RunSpans(rows, |rows|, signal, runs, i);
    }
    if SignalFollowsTimeId(rows, signal) {
      forall i | 0 <= i < |rows| && Spanned(windows, rows[i].timeId) ensures rows[i].signal == signal {
        var j := SpannedShares(rows, |rows|, signal, runs, i);
      }
    }
  }

  /** The smallest day they misread: two slots of a repeated time, one of which charges. */
  lemma RepeatedTimeIsMisread(price: Option<real>, windows: seq<Window>)
    ensures
      var rows := [Row(12, price, CHARGE), Row(12, price, IDLE)];
      Ascending(rows) && (Published(rows, CHARGE, windows) ==> !Decodes(rows, CHARGE, windows))
  {
    var rows := [Row(12, price, CHARGE), Row(12, price, IDLE)];
    if Published(rows, CHARGE, windows) {
      var runs :| Publishes(rows, |rows|, CHARGE, runs, windows);
      WindowsDecodeIff(rows, CHARGE, runs, windows);
      assert rows[0].timeId == rows[1].timeId && rows[0].signal != rows[1].signal;
    }
  }

  // ------------------------------------------------------------ what they add up to

  function CountSignal(rows: seq<Row>, signal: int, n: nat): nat
    requires n <= |rows|
  {
    if n == 0 then 0 else CountSignal(rows, signal, n - 1) + if rows[n - 1].signal == signal then 1 else 0
  }

  function SlotSum(windows: seq<Window>): int {
    if windows == [] then 0 else SlotSum(windows[..|windows| - 1]) + windows[|windows| - 1].nSlots
  }

  lemma {:induction false} CountStretch(rows: seq<Row>, signal: int, lo: nat, hi: nat)
    requires lo <= hi <= |rows|
    ensures AllHave(rows, signal, lo, hi) ==> CountSignal(rows, signal, hi) == CountSignal(rows, signal, lo) + hi - lo
    ensures NoneHave(rows, signal, lo, hi) ==> CountSignal(rows, signal, hi) == CountSignal(rows, signal, lo)
  {
    if lo < hi { CountStretch(rows, signal, lo, hi - 1); }
  }

  /** No slot is lost or counted twice: the windows' slot counts add up to the rows with their signal. */
  lemma {:induction false} SlotsAddUp(rows: seq<Row>, n: nat, signal: int, runs: Runs)
    requires AreRuns(rows, n, signal, runs)
    ensures SlotSum(WindowsOf(rows, n, signal, runs)) == CountSignal(rows, signal, n)
    decreases runs
  {
    match runs
    case Nowhere =>
      CountStretch(rows, signal, 0, n);
    case Also(before, lo, hi) =>
      SlotsAddUp(rows, lo, signal, before);
      CountStretch(rows, signal, lo, hi);
      CountStretch(rows, signal, hi, n);
      var earlier := WindowsOf(rows, lo, signal, before);
      assert (earlier + [WindowOf(rows, lo, hi)])[..|earlier|] == earlier;
  }

  /** With distinct time_ids a window spans at least its slots, and exactly them when the clock does not skip inside it. */
  lemma {:induction false} SpanOfRun(rows: seq<Row>, lo: nat, hi: nat)
    requires lo < hi <= |rows|
    requires forall i, j :: 0 <= i < j < |rows| ==> rows[i].timeId < rows[j].timeId
    ensures rows[hi - 1].timeId - rows[lo].timeId + 1 >= hi - lo
    ensures rows[hi - 1].timeId - rows[lo].timeId + 1 == hi - lo <==>
      forall i, j :: lo <= i && j == i + 1 && j < hi ==> rows[j].timeId == rows[i].timeId + 1
  {
    if lo + 1 < hi {
      SpanOfRun(rows, lo, hi - 1);
      assert rows[hi - 2].timeId < rows[hi - 1].timeId;
    }
  }

  lemma {:induction false} SumBounds(rows: seq<Row>, lo: nat, hi: nat, low: real, high: real)
    requires lo <= hi <= |rows|
    requires forall i :: lo <= i < hi && rows[i].price.Some? ==> low <= rows[i].price.value <= high
    ensures low * (PriceCount(rows, lo, hi) as real) <= PriceSum(rows, lo, hi) <= high * (PriceCount(rows, lo, hi) as real)
  {
    if lo < hi {
      SumBounds(rows, lo, hi - 1, low, high);
      var n := PriceCount(rows, lo, hi - 1) as real;
      assert low * (n + 1.0) == low * n + low && high * (n + 1.0) == high * n + high;
    }
  }

  function Priced(row: Row): nat { if row.price.Some? then 1 else 0 }

  /** What the average of some rows stands for: their prices' sum. */
  function Weight(rows: seq<Row>, lo: nat, hi: nat): real
    requires lo <= hi <= |rows|
  {
    match Average(rows, lo, hi)
    case None => 0.0
    case Some(mean) => mean * PriceCount(rows, lo, hi) as real
  }

  /**
    The average is the mean of the prices present: of one row it is its price,
    and the averages of two stretches, each times its number of prices, add up
    to that of the whole.
   */
  lemma AverageIsMean(rows: seq<Row>, lo: nat, mid: nat, hi: nat)
    requires lo <= mid <= hi <= |rows|
    ensures Weight(rows, lo, hi) == Weight(rows, lo, mid) + Weight(rows, mid, hi)
    ensures PriceCount(rows, lo, hi) == PriceCount(rows, lo, mid) + PriceCount(rows, mid, hi)
    ensures hi == lo + 1 ==> Average(rows, lo, hi) == rows[lo].price && PriceCount(rows, lo, hi) == Priced(rows[lo])
  {
    WeightIsSum(rows, lo, hi);
    WeightIsSum(rows, lo, mid);
    WeightIsSum(rows, mid, hi);
    SumSplits(rows, lo, mid, hi);
    if hi == lo + 1 && rows[lo].price.Some? { assert PriceSum(rows, lo, lo) == 0.0 && PriceCount(rows, lo, lo) == 0; }
  }

  lemma {:induction false} SumSplits(rows: seq<Row>, lo: nat, mid: nat, hi: nat)
    requires lo <= mid <= hi <= |rows|
    ensures PriceSum(rows, lo, hi) == PriceSum(rows, lo, mid) + PriceSum(rows, mid, hi)
    ensures PriceCount(rows, lo, hi) == PriceCount(rows, lo, mid) + PriceCount(rows, mid, hi)
    decreases hi
  {
    if mid < hi { SumSplits(rows, lo, mid, hi - 1); }
  }

  lemma {:induction false} WeightIsSum(rows: seq<Row>, lo: nat, hi: nat)
    requires lo <= hi <= |rows|
    ensures Weight(rows, lo, hi) == PriceSum(rows, lo, hi)
  {
    if PriceCount(rows, lo, hi) == 0 { NoPrices(rows, lo, hi); }
  }

  lemma {:induction false} NoPrices(rows: seq<Row>, lo: nat, hi: nat)
    requires lo <= hi <= |rows| && PriceCount(rows, lo, hi) == 0
    ensures PriceSum(rows, lo, hi) == 0.0
    decreases hi
  {
    if lo < hi { NoPrices(rows, lo, hi - 1); }
  }

  /** A window's average lies between any bounds its prices respect, and is missing only if they all are. */
  lemma AverageWithin(rows: seq<Row>, lo: nat, hi: nat, low: real, high: real)
    requires lo < hi <= |rows|
    requires forall i :: lo <= i < hi && rows[i].price.Some? ==> low <= rows[i].price.value <= high
    ensures
      var avgPrice := WindowOf(rows, lo, hi).avgPrice;
      && (avgPrice.Some? ==> low <= avgPrice.value <= high)
      && (avgPrice.None? <==> forall i :: lo <= i < hi ==> rows[i].price.None?)
  {
    SumBounds(rows, lo, hi, low, high);
    CountPositive(rows, lo, hi);
    var n := PriceCount(rows, lo, hi);
    if n > 0 {
      Quotient(PriceSum(rows, lo, hi), n as real, low, high);
    }
  }

  lemma Quotient(sum: real, n: real, low: real, high: real)
    requires n > 0.0 && low * n <= sum <= high * n
    ensures low <= sum / n <= high
  {
    var q := sum / n;
    assert q * n == sum;
    assert (q - low) * n >= 0.0 && (high - q) * n >= 0.0;
  }

  lemma {:induction false} CountPositive(rows: seq<Row>, lo: nat, hi: nat)
    requires lo <= hi <= |rows|
    ensures PriceCount(rows, lo, hi) == 0 <==> forall i :: lo <= i < hi ==> rows[i].price.None?
  {
    if lo < hi { CountPositive(rows, lo, hi - 1); }
  }
}
