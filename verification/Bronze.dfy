/**
  The append-only Bronze tables of src/shiden/processing/delta_io.py: the
  append that skips what is already there, and the newest-row view that
  readers recover from it.  Keys and values are whatever the key and value
  columns hold; equality on them is the source's null-safe comparison.
 */
module Bronze {
  import opened Options

  /** `ingestedAt` is lineage: it orders the rows and is never compared as a value. */
  datatype Row<+K, +V> = Row(key: K, value: V, ingestedAt: int)

  predicate Present<K(==), V(==)>(rows: seq<Row<K, V>>, key: K, value: V) {
    exists i :: 0 <= i < |rows| && rows[i].key == key && rows[i].value == value
  }

  /** The rows of a batch that the left-anti join lets through. */
  function NewRows<K(==), V(==)>(rows: seq<Row<K, V>>, batch: seq<Row<K, V>>): seq<Row<K, V>> {
    if batch == [] then []
    else
      (if Present(rows, batch[0].key, batch[0].value) then [] else [batch[0]]) + NewRows(rows, batch[1..])
  }

  class BronzeTable<K(==), V(==)> {
    /** None until the table is first written. */
    var rows: Option<seq<Row<K, V>>>

    constructor ()
      ensures rows == None
    {
      rows := None;
    }

    function Stored(): seq<Row<K, V>>
      reads this
    {
      if rows.Some? then rows.value else []
    }

    /** The first batch is written whole; later ones without the (key, value) pairs already stored. */
    method AppendNewObservations(batch: seq<Row<K, V>>)
      modifies this
      ensures rows == Some(old(Stored()) + NewRows(old(Stored()), batch))
    {
      if rows == None {
        AllNewToEmpty<K, V>(batch);
        assert [] + batch == batch;
        rows := Some(batch);
      } else {
        rows := Some(rows.value + NewRows(rows.value, batch));
      }
    }
  }

  lemma {:induction false} AllNewToEmpty<K, V>(batch: seq<Row<K, V>>)
    ensures NewRows([], batch) == batch
  {
    if batch != [] { AllNewToEmpty(batch[1..]); }
  }

  // ------------------------------------------------------------ one append

  ghost predicate DistinctPairs<K, V>(rows: seq<Row<K, V>>) {
    forall i, j :: 0 <= i < j < |rows| ==> rows[i].key != rows[j].key || rows[i].value != rows[j].value
  }

  lemma {:induction false} NewRowIsNew<K, V>(rows: seq<Row<K, V>>, batch: seq<Row<K, V>>, r: Row<K, V>)
    ensures r in NewRows(rows, batch) <==> r in batch && !Present(rows, r.key, r.value)
  {
    if batch != [] {
      NewRowIsNew(rows, batch[1..], r);
      assert batch == [batch[0]] + batch[1..];
    }
  }

  /** An append keeps the (key, value) pairs distinct exactly when the rows it lets through are. */
  lemma PairsStayDistinctIff<K, V>(rows: seq<Row<K, V>>, batch: seq<Row<K, V>>)
    requires DistinctPairs(rows)
    ensures DistinctPairs(rows + NewRows(rows, batch)) <==> DistinctPairs(NewRows(rows, batch))
  {
    var added := NewRows(rows, batch);
    var all := rows + added;
    if DistinctPairs(all) {
      forall i, j | 0 <= i < j < |added|
        ensures added[i].key != added[j].key || added[i].value != added[j].value
      {
        assert all[|rows| + i] == added[i] && all[|rows| + j] == added[j];
      }
    }
    if DistinctPairs(added) {
      forall i, j | 0 <= i < j < |all|
        ensures all[i].key != all[j].key || all[i].value != all[j].value
      {
        if i < |rows| <= j {
          NewRowIsNew(rows, batch, added[j - |rows|]);
          assert all[i] == rows[i] && added[j - |rows|] in added;
        }
      }
    }
  }

  /** A batch with one row per key lets through distinct pairs. */
  lemma {:induction false} NewPairsAreDistinct<K, V>(rows: seq<Row<K, V>>, batch: seq<Row<K, V>>)
    requires OneRowPerKey(batch)
    ensures DistinctPairs(NewRows(rows, batch))
  {
    if batch != [] {
      var head, rest := batch[0], batch[1..];
      assert forall i :: 0 <= i < |rest| ==> rest[i] == batch[i + 1];
      NewPairsAreDistinct(rows, rest);
      forall i | 0 <= i < |NewRows(rows, rest)| ensures NewRows(rows, rest)[i].key != head.key {
        NewRowIsNew(rows, rest, NewRows(rows, rest)[i]);
      }
    }
  }

  /** Fetching the same data again, with new lineage, writes nothing. */
  lemma {:induction false} ReingestIsNoOp<K, V>(rows: seq<Row<K, V>>, batch: seq<Row<K, V>>, again: seq<Row<K, V>>)
    requires forall r :: r in again ==> Present(batch, r.key, r.value)
    ensures NewRows(rows + NewRows(rows, batch), again) == []
  {
    if again != [] {
      var r := again[0];
      var i :| 0 <= i < |batch| && batch[i].key == r.key && batch[i].value == r.value;
      var all := rows + NewRows(rows, batch);
      NewRowIsNew(rows, batch, batch[i]);
      if Present(rows, r.key, r.value) {
        var k :| 0 <= k < |rows| && rows[k].key == r.key && rows[k].value == r.value;
        assert all[k] == rows[k];
      } else {
        assert batch[i] in NewRows(rows, batch);
        var k :| 0 <= k < |NewRows(rows, batch)| && NewRows(rows, batch)[k] == batch[i];
        assert all[|rows| + k] == batch[i];
      }
      ReingestIsNoOp(rows, batch, again[1..]);
    }
  }

  // ------------------------------------------------------------- whole runs

  /** The batches a table has been given, oldest first, each with its ingestion time. */
  datatype History<+K, +V> = Nothing | Then(before: History<K, V>, at: int, batch: seq<Row<K, V>>)

  function TableOf<K(==), V(==)>(h: History<K, V>): seq<Row<K, V>> {
    match h
    case Nothing => []
    case Then(before, _, batch) => TableOf(before) + NewRows(TableOf(before), batch)
  }

  ghost predicate OneRowPerKey<K, V>(batch: seq<Row<K, V>>) {
    forall i, j :: 0 <= i < j < |batch| ==> batch[i].key != batch[j].key
  }

  ghost predicate StampedAt<K, V>(batch: seq<Row<K, V>>, at: int) {
    forall i :: 0 <= i < |batch| ==> batch[i].ingestedAt == at
  }

  /** Each batch has one row per key and is ingested after everything before it. */
  ghost predicate Orderly<K, V>(h: History<K, V>) {
    h.Then? ==>
      && Orderly(h.before) && (h.before.Then? ==> h.before.at < h.at)
      && OneRowPerKey(h.batch) && StampedAt(h.batch, h.at)
  }

  /** What was observed for a key, batch by batch. */
  function Observed<K(==), V>(h: History<K, V>, key: K): seq<V> {
    match h
    case Nothing => []
    case Then(before, _, batch) => Observed(before, key) + ValuesOf(batch, key)
  }

  /** The values a table holds for a key, in the order they were written. */
  function ValuesOf<K(==), V>(rows: seq<Row<K, V>>, key: K): seq<V> {
    if rows == [] then []
    else (if rows[0].key == key then [rows[0].value] else []) + ValuesOf(rows[1..], key)
  }

  /** A sequence without its repeats: each value stands where it first appeared. */
  function FirstAppearances<V(==)>(values: seq<V>): seq<V> {
    if values == [] then []
    else
      var first := FirstAppearances(values[..|values| - 1]);
      var last := values[|values| - 1];
      if last in first then first else first + [last]
  }

  lemma {:induction false} ValuesOfConcat<K, V>(a: seq<Row<K, V>>, b: seq<Row<K, V>>, key: K)
    ensures ValuesOf(a + b, key) == ValuesOf(a, key) + ValuesOf(b, key)
  {
    if a == [] {
      assert a + b == b;
    } else {
      var head := if a[0].key == key then [a[0].value] else [];
      var rest := a[1..];
      ValuesOfConcat(rest, b, key);
      assert (a + b)[1..] == rest + b;
      assert head + (ValuesOf(rest, key) + ValuesOf(b, key)) == (head + ValuesOf(rest, key)) + ValuesOf(b, key);
    }
  }

  lemma {:induction false} ValuesOfMembers<K, V>(rows: seq<Row<K, V>>, key: K, v: V)
    ensures v in ValuesOf(rows, key) <==> Present(rows, key, v)
  {
    if rows != [] {
      ValuesOfMembers(rows[1..], key, v);
      if Present(rows[1..], key, v) {
        var i :| 0 <= i < |rows[1..]| && rows[1..][i].key == key && rows[1..][i].value == v;
        assert rows[i + 1] == rows[1..][i];
      }
      if Present(rows, key, v) {
        var i :| 0 <= i < |rows| && rows[i].key == key && rows[i].value == v;
        assert i > 0 ==> rows[1..][i - 1] == rows[i];
      }
    }
  }

  /** A batch with one row per key brings at most one value of a key, and adds it only if it is new. */
  lemma {:induction false} OneValuePerBatch<K, V>(rows: seq<Row<K, V>>, batch: seq<Row<K, V>>, key: K)
    requires OneRowPerKey(batch)
    ensures |ValuesOf(batch, key)| <= 1
    ensures ValuesOf(NewRows(rows, batch), key) ==
      if ValuesOf(batch, key) == [] || Present(rows, key, ValuesOf(batch, key)[0]) then [] else ValuesOf(batch, key)
  {
    if batch != [] {
      var head, rest := batch[0], batch[1..];
      assert forall i :: 0 <= i < |rest| ==> rest[i] == batch[i + 1];
      OneValuePerBatch(rows, rest, key);
      if head.key == key {
        NoValue(rest, key);
      }
      ValuesOfConcat(if Present(rows, head.key, head.value) then [] else [head], NewRows(rows, rest), key);
    }
  }

  lemma {:induction false} NoValue<K, V>(rows: seq<Row<K, V>>, key: K)
    requires forall i :: 0 <= i < |rows| ==> rows[i].key != key
    ensures ValuesOf(rows, key) == []
  {
    if rows != [] { NoValue(rows[1..], key); }
  }

  lemma FirstAppearancesGrow<V>(values: seq<V>, v: V)
    ensures
      var first := FirstAppearances(values);
      FirstAppearances(values + [v]) == if v in first then first else first + [v]
  {
    assert (values + [v])[..|values|] == values;
  }

  lemma OneBatchMore<K, V>(rows: seq<Row<K, V>>, batch: seq<Row<K, V>>, seen: seq<V>, key: K)
    requires OneRowPerKey(batch) && ValuesOf(rows, key) == FirstAppearances(seen)
    ensures ValuesOf(rows + NewRows(rows, batch), key) == FirstAppearances(seen + ValuesOf(batch, key))
  {
    var news := ValuesOf(batch, key);
    OneValuePerBatch(rows, batch, key);
    if news == [] {
      ValuesOfConcat(rows, NewRows(rows, batch), key);
      assert seen + news == seen;
    } else {
      assert news == [news[0]];
      AppendedValue(rows, batch, key, news[0]);
      FirstAppearancesGrow(seen, news[0]);
      ValuesOfMembers(rows, key, news[0]);
    }
  }

  /** Over any batches the stored (key, value) pairs are distinct. */
  lemma {:induction false} PairsAreDistinct<K, V>(h: History<K, V>)
    requires Orderly(h)
    ensures DistinctPairs(TableOf(h))
  {
    if h.Then? {
      PairsAreDistinct(h.before);
      NewPairsAreDistinct(TableOf(h.before), h.batch);
      PairsStayDistinctIff(TableOf(h.before), h.batch);
    }
  }

  /** The values a table holds for a key are the observed ones, without repeats, in order of first appearance. */
  lemma {:induction false} HistoryIsFirstAppearances<K, V>(h: History<K, V>, key: K)
    requires Orderly(h)
    ensures ValuesOf(TableOf(h), key) == FirstAppearances(Observed(h, key))
  {
    if h.Then? {
      HistoryIsFirstAppearances(h.before, key);
      OneBatchMore(TableOf(h.before), h.batch, Observed(h.before, key), key);
    }
  }

  // ------------------------------------------------------ the newest-row view

  /** What `deduplicate_latest` may return: for each key one of its rows with the greatest `ingestedAt`. */
  ghost predicate IsLatestView<K(!new), V(!new)>(rows: seq<Row<K, V>>, view: map<K, Row<K, V>>) {
    && (forall r :: r in rows ==> r.key in view)
    && (forall k :: k in view ==> view[k] in rows && view[k].key == k)
    && (forall k, r :: k in view && r in rows && r.key == k ==> r.ingestedAt <= view[k].ingestedAt)
  }

  lemma {:induction false} IngestedBy<K, V>(h: History<K, V>, row: Row<K, V>)
    requires Orderly(h) && row in TableOf(h)
    ensures h.Then? && row.ingestedAt <= h.at
  {
    NewRowIsNew(TableOf(h.before), h.batch, row);
    if row in TableOf(h.before) { IngestedBy(h.before, row); }
  }

  /** Rows of one key are ingested in the order they stand, so the newest is the last one. */
  lemma {:induction false} NewestIsLast<K, V>(h: History<K, V>, row: Row<K, V>)
    requires Orderly(h) && row in TableOf(h)
    requires forall r :: r in TableOf(h) && r.key == row.key ==> r.ingestedAt <= row.ingestedAt
    ensures
      var values := ValuesOf(TableOf(h), row.key);
      values != [] && values[|values| - 1] == row.value
  {
    var rows := TableOf(h.before);
    var added := NewRows(rows, h.batch);
    ValuesOfConcat(rows, added, row.key);
    if row in added {
      AddedRow(rows, h.batch, row);
    } else {
      NewestIsLast(h.before, row);
      NoLaterRow(h, row);
    }
  }

  lemma AddedRow<K, V>(rows: seq<Row<K, V>>, batch: seq<Row<K, V>>, row: Row<K, V>)
    requires OneRowPerKey(batch) && row in NewRows(rows, batch)
    ensures ValuesOf(NewRows(rows, batch), row.key) == [row.value]
  {
    var added := NewRows(rows, batch);
    PresentRow(added, row);
    ValuesOfMembers(added, row.key, row.value);
    OneValuePerBatch(rows, batch, row.key);
  }

  /** If the newest row of a key is an old one, the last batch added none. */
  lemma NoLaterRow<K, V>(h: History<K, V>, row: Row<K, V>)
    requires Orderly(h) && h.Then? && row in TableOf(h.before)
    requires forall r :: r in TableOf(h) && r.key == row.key ==> r.ingestedAt <= row.ingestedAt
    ensures ValuesOf(NewRows(TableOf(h.before), h.batch), row.key) == []
  {
    var added := NewRows(TableOf(h.before), h.batch);
    IngestedBy(h.before, row);
    forall i | 0 <= i < |added| ensures added[i].key != row.key {
      var r := added[i];
      NewRowIsNew(TableOf(h.before), h.batch, r);
      assert r in added && r in TableOf(h);
    }
    NoValue(added, row.key);
  }

  lemma PresentRow<K, V>(rows: seq<Row<K, V>>, row: Row<K, V>)
    requires row in rows
    ensures Present(rows, row.key, row.value)
  {
    var i :| 0 <= i < |rows| && rows[i] == row;
  }

  /** Where a value first appears. */
  function FirstAt<V(==)>(values: seq<V>, v: V): (i: nat)
    requires v in values
    ensures i < |values| && values[i] == v && v !in values[..i]
  {
    if v in values[..|values| - 1] then FirstAt(values[..|values| - 1], v) else |values| - 1
  }

  lemma FirstAtGrows<V>(values: seq<V>, last: V, v: V)
    requires v in values
    ensures FirstAt(values + [last], v) == FirstAt(values, v)
  {
    assert (values + [last])[..|values|] == values;
  }

  lemma {:induction false} LastFirstAppearance<V>(values: seq<V>)
    requires values != []
    ensures FirstAppearances(values) != []
    ensures AppearedLast(values, FirstAppearances(values)[|FirstAppearances(values)| - 1])
  {
    var init, last := values[..|values| - 1], values[|values| - 1];
    assert values == init + [last];
    FirstAppearancesMembers(init, last);
    if init != [] {
      LastFirstAppearance(init);
      forall v | v in init ensures FirstAt(values, v) == FirstAt(init, v) < |init| { FirstAtGrows(init, last, v); }
    }
  }

  lemma {:induction false} FirstAppearancesMembers<V>(values: seq<V>, v: V)
    ensures v in FirstAppearances(values) <==> v in values
  {
    if values != [] {
      var init, last := values[..|values| - 1], values[|values| - 1];
      FirstAppearancesMembers(init, v);
      assert values == init + [last];
    }
  }

  /** The value a reader is shown for a key is the last one written for it. */
  lemma ViewIsLastWritten<K(!new), V(!new)>(h: History<K, V>, view: map<K, Row<K, V>>, key: K)
    requires Orderly(h) && IsLatestView(TableOf(h), view) && ValuesOf(TableOf(h), key) != []
    ensures key in view
    ensures
      var values := ValuesOf(TableOf(h), key);
      view[key].value == values[|values| - 1]
  {
    var v := ValuesOf(TableOf(h), key)[0];
    ValuesOfMembers(TableOf(h), key, v);
    var i :| 0 <= i < |TableOf(h)| && TableOf(h)[i].key == key && TableOf(h)[i].value == v;
    assert TableOf(h)[i] in TableOf(h);
    NewestIsLast(h, view[key]);
  }

  /** No value of the sequence first appears later than `v` does. */
  ghost predicate AppearedLast<V>(values: seq<V>, v: V) {
    v in values && forall j :: 0 <= j < |values| ==> FirstAt(values, values[j]) <= FirstAt(values, v)
  }

  lemma AppearedLastIsUnique<V>(values: seq<V>, v: V, w: V)
    requires AppearedLast(values, v)
    ensures AppearedLast(values, w) <==> v == w
  {
    if AppearedLast(values, w) {
      assert values[FirstAt(values, v)] == v && values[FirstAt(values, w)] == w;
    }
  }

  /**
    The reader's view of a key is the value whose first appearance is latest.
    It is the value observed last exactly when that value's own first
    appearance is the latest: a key that went back to an earlier value is
    still shown at the one it left.
   */
  lemma ViewIsLatestFirstAppearance<K(!new), V(!new)>(h: History<K, V>, view: map<K, Row<K, V>>, key: K)
    requires Orderly(h) && IsLatestView(TableOf(h), view) && Observed(h, key) != []
    ensures key in view && AppearedLast(Observed(h, key), view[key].value)
    ensures
      var seen := Observed(h, key);
      view[key].value == seen[|seen| - 1] <==> AppearedLast(seen, seen[|seen| - 1])
  {
    var seen := Observed(h, key);
    HistoryIsFirstAppearances(h, key);
    LastFirstAppearance(seen);
    ViewIsLastWritten(h, view, key);
    AppearedLastIsUnique(seen, view[key].value, seen[|seen| - 1]);
  }

  /**
    The guard of one append: an observed value becomes the one shown unless it
    is already stored for its key and another value is being shown.
   */
  lemma RevisionIsShownIff<K, V>(h: History<K, V>, key: K, v: V)
    requires Orderly(h) && h.Then? && ValuesOf(h.batch, key) == [v]
    ensures
      var before, now := ValuesOf(TableOf(h.before), key), ValuesOf(TableOf(h), key);
      now != [] &&
      (now[|now| - 1] == v <==> !Present(TableOf(h.before), key, v) || (before != [] && before[|before| - 1] == v))
  {
    var rows := TableOf(h.before);
    AppendedValue(rows, h.batch, key, v);
    ValuesOfMembers(rows, key, v);
  }

  lemma AppendedValue<K, V>(rows: seq<Row<K, V>>, batch: seq<Row<K, V>>, key: K, v: V)
    requires OneRowPerKey(batch) && ValuesOf(batch, key) == [v]
    ensures ValuesOf(rows + NewRows(rows, batch), key) == ValuesOf(rows, key) + if Present(rows, key, v) then [] else [v]
  {
    ValuesOfConcat(rows, NewRows(rows, batch), key);
    OneValuePerBatch(rows, batch, key);
  }

  lemma AppendOne<K, V>(rows: seq<Row<K, V>>, row: Row<K, V>)
    ensures NewRows(rows, [row]) == if Present(rows, row.key, row.value) then [] else [row]
    ensures ValuesOf([row], row.key) == [row.value]
  {
    assert [row][1..] == [];
  }

  /** Of two rows of a key every view shows the later. */
  lemma LaterIsShown(rows: seq<Row<int, int>>, view: map<int, Row<int, int>>, v: int, v': int)
    requires rows == [Row(0, v, 1), Row(0, v', 2)] && IsLatestView(rows, view)
    ensures 0 in view && view[0].value == v'
  {
    assert rows[1] in rows && rows[1].key == 0;
    assert view[0] in rows && rows[1].ingestedAt <= view[0].ingestedAt;
  }

  lemma RevertedHistory()
    ensures
      var h := Then(Then(Then(Nothing, 1, [Row(0, 10, 1)]), 2, [Row(0, 20, 2)]), 3, [Row(0, 10, 3)]);
      Orderly(h) && Observed(h, 0) == [10, 20, 10] && TableOf(h) == [Row(0, 10, 1), Row(0, 20, 2)]
  {
    var h1 := Then(Nothing, 1, [Row(0, 10, 1)]);
    var h2 := Then(h1, 2, [Row(0, 20, 2)]);
    AppendOne([], Row(0, 10, 1));
    AppendOne(TableOf(h1), Row(0, 20, 2));
    assert TableOf(h2) == [Row(0, 10, 1), Row(0, 20, 2)];
    assert TableOf(h2)[0] == Row(0, 10, 1);
    AppendOne(TableOf(h2), Row(0, 10, 3));
  }

  /** The smallest revision that goes unseen: a value corrected and then set back; every view shows the correction. */
  lemma RevertedValueStaysHidden(view: map<int, Row<int, int>>)
    ensures
      var h := Then(Then(Then(Nothing, 1, [Row(0, 10, 1)]), 2, [Row(0, 20, 2)]), 3, [Row(0, 10, 3)]);
      && Orderly(h) && Observed(h, 0) == [10, 20, 10]
      && (IsLatestView(TableOf(h), view) ==> 0 in view && view[0].value == 20)
  {
    var h := Then(Then(Then(Nothing, 1, [Row(0, 10, 1)]), 2, [Row(0, 20, 2)]), 3, [Row(0, 10, 3)]);
    RevertedHistory();
    if IsLatestView(TableOf(h), view) { LaterIsShown(TableOf(h), view, 10, 20); }
  }
}
