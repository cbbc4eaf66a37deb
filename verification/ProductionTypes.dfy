/**
  Stable surrogate ids of src/shiden/processing/silver/dimensions/dim_production_type.py.
  Fact rows store the id, so an id once given to a name must stay with it and
  never be given to another.  The descriptive columns of the dimension are not
  modelled.  Everything but the table itself is stated for any list `canon` of
  canonical names, whose ids are their positions counted from 1.
 */
module ProductionTypes {
  import opened Options
  import opened Lexicographic

  const CANONICAL: seq<string> := [
    "Biomass", "Fossil Brown coal/Lignite", "Fossil Coal-derived gas", "Fossil Gas", "Fossil Hard coal",
    "Fossil Oil", "Fossil Oil shale", "Fossil Peat", "Geothermal", "Hydro Pumped Storage|Actual Aggregated",
    "Hydro Pumped Storage|Actual Consumption", "Hydro Run-of-river and poundage", "Hydro Water Reservoir",
    "Marine", "Nuclear", "Other", "Other renewable", "Solar", "Waste", "Wind Offshore", "Wind Onshore"]

  function IndexOf(names: seq<string>, name: string): (i: nat)
    requires name in names
    ensures i < |names| && names[i] == name
  {
    if names[0] == name then 0 else 1 + IndexOf(names[1..], name)
  }

  function CanonicalId(canon: seq<string>, name: string): (id: int)
    requires name in canon
    ensures 1 <= id <= |canon| && canon[id - 1] == name
  {
    IndexOf(canon, name) + 1
  }

  /** The names of the source are distinct, so name number i has id i + 1: the ids are exactly 1 to 21. */
  lemma CanonicalIds(i: nat)
    requires i < |CANONICAL|
    ensures |CANONICAL| == 21 && CanonicalId(CANONICAL, CANONICAL[i]) == i + 1
  {
    CanonicalDistinct();
  }

  lemma CanonicalDistinct()
    ensures forall i, j :: 0 <= i < j < |CANONICAL| ==> CANONICAL[i] != CANONICAL[j]
  {}

  // ----------------------------------------------------------------- one run

  /** The dimension table: name to id. */
  type Ids = map<string, int>

  /** The greatest id in use, canonical ones included. */
  predicate IsTop(canon: seq<string>, ids: Ids, top: int) {
    && top >= |canon| && (forall n :: n in ids ==> ids[n] <= top)
    && (top == |canon| || exists n :: n in ids && ids[n] == top)
  }

  /** The names a run has to find an id for, in order. */
  ghost predicate AreNews(canon: seq<string>, ids: Ids, bronzeTypes: set<string>, news: seq<string>) {
    IsSorted(news) && forall n :: n in news <==> n in bronzeTypes && n !in canon && n !in ids
  }

  /** What one run leaves: canonical ids fixed, stored ids kept, news numbered on from the top. */
  ghost predicate Merged(canon: seq<string>, ids: Ids, run: RunFacts, ids': Ids) {
    && IsTop(canon, ids, run.top) && AreNews(canon, ids, run.bronzeTypes, run.news)
    && (forall n :: n in ids' <==> n in ids || n in canon || n in run.bronzeTypes)
    && (forall n :: n in ids' && n in canon ==> ids'[n] == CanonicalId(canon, n))
    && (forall n :: n in ids && n !in canon ==> ids'[n] == ids[n])
    && (forall i :: 0 <= i < |run.news| ==> ids'[run.news[i]] == run.top + 1 + i)
  }

  /** What a run discovered in Bronze, which names it numbered, and from where. */
  datatype RunFacts = RunFacts(bronzeTypes: set<string>, news: seq<string>, top: int)

  /** The greatest of the canonical and the existing ids. */
  method MaxId(canon: seq<string>, existing: Ids) returns (top: int)
    ensures IsTop(canon, existing, top)
  {
    top := |canon|;
    var rest := existing.Keys;
    while rest != {}
      invariant rest <= existing.Keys && top >= |canon|
      invariant forall n :: n in existing && n !in rest ==> existing[n] <= top
      invariant top == |canon| || exists n :: n in existing && existing[n] == top
      decreases rest
    {
      var n :| n in rest;
      if existing[n] > top { top := existing[n]; }
      rest := rest - {n};
    }
  }

  /** `_build_rows`, its rows keyed by name. */
  method BuildRows(canon: seq<string>, bronzeTypes: set<string>, existing: Ids) returns (rows: Ids, ghost run: RunFacts)
    ensures run.bronzeTypes == bronzeTypes
    ensures IsTop(canon, existing, run.top) && AreNews(canon, existing, bronzeTypes, run.news) && InOrder(run.news)
    ensures forall n :: n in rows <==> n in canon || n in bronzeTypes
    ensures forall n :: n in rows && n in canon ==> rows[n] == CanonicalId(canon, n)
    ensures forall n :: n in rows && n !in canon && n in existing ==> rows[n] == existing[n]
    ensures forall i :: 0 <= i < |run.news| ==> rows[run.news[i]] == run.top + 1 + i
  {
    rows, run := NumberRows(canon, bronzeTypes, existing);
    SortedIsInOrder(run.news);
  }

  /** Its loop. */
  method NumberRows(canon: seq<string>, bronzeTypes: set<string>, existing: Ids) returns (rows: Ids, ghost run: RunFacts)
    ensures run.bronzeTypes == bronzeTypes
    ensures IsTop(canon, existing, run.top) && AreNews(canon, existing, bronzeTypes, run.news)
    ensures forall n :: n in rows <==> n in canon || n in bronzeTypes
    ensures forall n :: n in rows && n in canon ==> rows[n] == CanonicalId(canon, n)
    ensures forall n :: n in rows && n !in canon && n in existing ==> rows[n] == existing[n]
    ensures forall i :: 0 <= i < |run.news| ==> rows[run.news[i]] == run.top + 1 + i
  {
    rows := map n | n in canon :: CanonicalId(canon, n);
    var discovered := Sorted(bronzeTypes - rows.Keys);
    var top := MaxId(canon, existing);
    run := RunFacts(bronzeTypes, [], top);
    assert forall n :: n in discovered <==> n in bronzeTypes - rows.Keys;
    assert forall n :: n in discovered <==> n in bronzeTypes && n !in canon;
    if discovered == [] {
      return;
    }
    var nextId := top + 1;
    ghost var done: set<string>, news := {}, [];
    for i := 0 to |discovered|
      invariant forall k :: 0 <= k < i ==> discovered[k] in done
      invariant forall n :: n in done ==> n in discovered
      invariant nextId == top + 1 + |news| && Precede(news, discovered, i)
      invariant forall n :: n in news <==> n in done && n !in existing
      invariant forall n :: n in rows <==> n in canon || n in done
      invariant forall n :: n in canon ==> rows[n] == CanonicalId(canon, n)
      invariant forall n :: n in done && n in existing ==> rows[n] == existing[n]
      invariant forall k :: 0 <= k < |news| ==> rows[news[k]] == top + 1 + k
    {
      var name := discovered[i];
      assert name in discovered && name !in canon;
      if name in existing {
        rows := rows[name := existing[name]];
      } else {
        rows := rows[name := nextId];
        nextId := nextId + 1;
        news := news + [name];
      }
      done := done + {name};
    }
    run := RunFacts(bronzeTypes, news, top);
  }

  /** Names in order that all come before what is left to visit. */
  ghost predicate Precede(news: seq<string>, discovered: seq<string>, i: nat) {
    && IsSorted(news)
    && forall k, j :: 0 <= k < |news| && i <= j < |discovered| ==> AtMost(news[k], discovered[j]) && news[k] != discovered[j]
  }

  class DimProductionType {
    /** None until the table is first written. */
    var rows: Option<Ids>

    constructor ()
      ensures rows == None
    {
      rows := None;
    }

    function Stored(): Ids
      reads this
    {
      if rows.Some? then rows.value else map[]
    }

    /** Reads the stored ids, builds the rows and merges them by name. */
    method Process(bronzeTypes: set<string>) returns (ghost run: RunFacts)
      modifies this
      ensures run.bronzeTypes == bronzeTypes
      ensures rows.Some? && Merged(CANONICAL, old(Stored()), run, Stored())
    {
      var incoming;
      incoming, run := BuildAndMerge(CANONICAL, bronzeTypes, Stored());
      rows := Some(incoming);
    }
  }

  method BuildAndMerge(canon: seq<string>, bronzeTypes: set<string>, existing: Ids) returns (merged: Ids, ghost run: RunFacts)
    ensures run.bronzeTypes == bronzeTypes && Merged(canon, existing, run, merged)
  {
    var rows;
    rows, run := BuildRows(canon, bronzeTypes, existing);
    merged := existing + rows;
  }

  // --------------------------------------------------------------- whole runs

  /** Runs of the processor, each with the table it left. */
  datatype Runs = Fresh | Then(before: Runs, run: RunFacts, table: Ids)

  function TableOf(runs: Runs): Ids {
    if runs.Fresh? then map[] else runs.table
  }

  ghost predicate Happened(canon: seq<string>, runs: Runs) {
    runs.Then? ==> Happened(canon, runs.before) && Merged(canon, TableOf(runs.before), runs.run, runs.table)
  }

  ghost predicate Extends(runs: Runs, earlier: Runs) {
    runs == earlier || (runs.Then? && Extends(runs.before, earlier))
  }

  ghost predicate Injective(ids: Ids) {
    forall m, n :: m in ids && n in ids && ids[m] == ids[n] ==> m == n
  }

  /** The table's invariant. */
  ghost predicate Stable(canon: seq<string>, ids: Ids) {
    && Injective(ids)
    && (forall n :: n in ids && n in canon ==> ids[n] == CanonicalId(canon, n))
    && (forall n :: n in ids && n !in canon ==> ids[n] > |canon|)
  }

  /** Where the id of a name after a run comes from. */
  lemma MergedId(canon: seq<string>, ids: Ids, run: RunFacts, ids': Ids, n: string)
    requires Stable(canon, ids) && Merged(canon, ids, run, ids') && n in ids'
    ensures n in canon ==> ids'[n] == CanonicalId(canon, n)
    ensures n in ids ==> ids'[n] == ids[n]
    ensures n in ids && n !in canon ==> |canon| < ids'[n] <= run.top
    ensures n !in ids && n !in canon ==>
      |canon| <= run.top < ids'[n] <= run.top + |run.news| && n == run.news[ids'[n] - run.top - 1]
  {
    if n !in ids && n !in canon {
      assert n in run.news;
      var i :| 0 <= i < |run.news| && run.news[i] == n;
    }
  }

  lemma MergeKeepsStable(canon: seq<string>, ids: Ids, run: RunFacts, ids': Ids)
    requires Stable(canon, ids) && Merged(canon, ids, run, ids')
    ensures Stable(canon, ids')
    ensures forall n :: n in ids ==> n in ids' && ids'[n] == ids[n]
  {
    forall n | n in ids'
      ensures n in canon ==> ids'[n] == CanonicalId(canon, n)
      ensures n !in canon ==> ids'[n] > |canon|
      ensures n in ids ==> ids'[n] == ids[n]
    {
      MergedId(canon, ids, run, ids', n);
    }
    forall m, n | m in ids' && n in ids' && ids'[m] == ids'[n] ensures m == n {
      MergedId(canon, ids, run, ids', m);
      MergedId(canon, ids, run, ids', n);
    }
  }

  lemma {:induction false} AlwaysStable(canon: seq<string>, runs: Runs)
    requires Happened(canon, runs)
    ensures Stable(canon, TableOf(runs))
    ensures runs.Then? ==> forall n :: n in canon ==> n in runs.table
  {
    if runs.Then? {
      AlwaysStable(canon, runs.before);
      MergeKeepsStable(canon, TableOf(runs.before), runs.run, runs.table);
    }
  }

  /**
    Over any runs, whatever Bronze shows or stops showing: no name ever changes
    its id or loses it, no two names share one, and a name discovered later
    has an id above every id given before.
   */
  lemma {:induction false} IdsAreForever(canon: seq<string>, runs: Runs, earlier: Runs)
    requires Happened(canon, runs) && Extends(runs, earlier)
    ensures
      var past, now := TableOf(earlier), TableOf(runs);
      && Injective(now)
      && (forall n :: n in past ==> n in now && now[n] == past[n])
      && (forall m, n :: m in past && n in now && n !in past && n !in canon ==> past[m] < now[n])
  {
    AlwaysStable(canon, runs);
    if runs != earlier {
      var past, before, now := TableOf(earlier), TableOf(runs.before), TableOf(runs);
      IdsAreForever(canon, runs.before, earlier);
      AlwaysStable(canon, runs.before);
      MergeKeepsStable(canon, before, runs.run, now);
      forall m, n | m in past && n in now && n !in past && n !in canon ensures past[m] < now[n] {
        MergedId(canon, before, runs.run, now, n);
        assert n !in before ==> before[m] <= runs.run.top;
      }
    }
  }
}
