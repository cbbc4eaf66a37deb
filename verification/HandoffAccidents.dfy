/**
  Runs that lead from empty directories to a stuck role, with handoffs such as
  the send helper writes.
 */
module HandoffAccidents {
  import opened Options
  import opened HandoffText
  import opened HandoffProtocol
  import opened HandoffSafety
  import opened HandoffJams

  /** A retry that gives work back jams a role that receives batches. */
  lemma RetryJamsBatchRole(w: Swarm, t: Tree, n: string, done: Option<Place>, r: string)
    requires Enabled(w, t, Retry(n, done)) && r in w.roles && r in w.batchRoles && Sender(At(t, Pending)[n]) == r
    requires !WorkingOn(t, r, At(t, Pending)[n]) && Destination(t, At(t, Pending)[n], done).Some?
    ensures Jammed(w, Retried(w, t, n, done), r)
  {
    RetryLands(w, t, n, done, r);
  }

  // ---------------------------------------------------- runs that get there

  /** The master sends for two tasks with nothing in process, and both are held. */
  function TwoHeld(r: string, n1: string, m1: Message, n2: string, m2: Message, now: string): Run {
    var calm := Weather(false, 0);
    More(More(More(More(Fresh, Send(r, n1, m1)), Send(r, n2, m2)), Process(n1, calm, now)), Process(n2, calm, now))
  }

  /** Then the operator retries both. */
  function TwoRetries(r: string, n1: string, m1: Message, n2: string, m2: Message, now: string): Run {
    More(More(TwoHeld(r, n1, m1, n2, m2, now), Retry(n1, None)), Retry(n2, None))
  }

  ghost predicate SendableTask(w: Swarm, r: string, m: Message) {
    ShouldHold(w, m) && Field(m, "from") == Some(r) && TaskKey(m).Some? && !IsBlank(TaskKey(m).value)
  }

  /** Nobody works on anything, and nothing is waiting, delivered or done. */
  ghost predicate JustQueued(t: Tree, queued: Files, held: Files) {
    && At(t, Outbox) == queued && At(t, Pending) == held
    && forall d: Dir :: d != Outbox && d != Pending ==> At(t, d) == map[] && !(d.InBatch? && d in t)
  }

  lemma SendQueues(w: Swarm, t: Tree, r: string, n: string, m: Message, queued: Files)
    requires r in w.roles && JustQueued(t, queued, map[]) && SendableTask(w, r, m)
    ensures JustQueued(Next(w, t, Send(r, n, m)), queued[n := m], map[])
  {
    assert Batches(t, r) == {};
    assert Enabled(w, t, Send(r, n, m));
  }

  lemma DaemonHolds(w: Swarm, t: Tree, n: string, now: string, queued: Files, held: Files)
    requires JustQueued(t, queued, held) && n in queued && ShouldHold(w, queued[n]) && n !in held
    ensures JustQueued(Next(w, t, Process(n, Weather(false, 0), now)), queued - {n}, held[n := queued[n]])
  {}

  /** Only these are filled: the queues, and what `r` has in process. */
  ghost predicate OnlyInProcess(t: Tree, r: string) {
    forall d: Dir :: d != Outbox && d != Pending && d != InProcess(r) ==> At(t, d) == map[] && !(d.InBatch? && d in t)
  }

  lemma RetryWrites(w: Swarm, t: Tree, r: string, n: string, m: Message)
    requires r in w.roles && n in At(t, Pending) && At(t, Pending)[n] == m && SendableTask(w, r, m)
    requires OnlyInProcess(t, r) && forall k :: k in At(t, InProcess(r)) ==> !SameTask(At(t, InProcess(r))[k], m)
    ensures Next(w, t, Retry(n, None)) ==
      Put(Drop(t, Pending, n), InProcess(r), RetryName(TaskKey(m).value), RetryNote(m, TaskKey(m).value))
  {
    var t1 := Drop(t, Pending, n);
    assert forall d: Dir :: d != Pending ==> At(t1, d) == At(t, d);
    assert IsChoice(t1, r, m, None);
    assert !WorkingOn(t1, r, m);
  }

  lemma FirstRetry(w: Swarm, t: Tree, r: string, n: string, held: Files)
    requires r in w.roles && JustQueued(t, map[], held) && n in held && SendableTask(w, r, held[n])
    ensures
      var (t', m) := (Next(w, t, Retry(n, None)), held[n]);
      && At(t', Pending) == held - {n} && OnlyInProcess(t', r)
      && At(t', InProcess(r)) == map[RetryName(TaskKey(m).value) := RetryNote(m, TaskKey(m).value)]
  {
    RetryWrites(w, t, r, n, held[n]);
  }

  lemma SecondRetry(w: Swarm, t: Tree, r: string, n: string, m: Message, k: string, x: Message)
    requires r in w.roles && n in At(t, Pending) && At(t, Pending)[n] == m && SendableTask(w, r, m)
    requires At(t, InProcess(r)) == map[k := x] && !SameTask(x, m) && k != RetryName(TaskKey(m).value)
    requires OnlyInProcess(t, r)
    ensures |At(Next(w, t, Retry(n, None)), InProcess(r))| == 2
  {
    RetryWrites(w, t, r, n, m);
    assert At(Next(w, t, Retry(n, None)), InProcess(r)) == map[k := x][RetryName(TaskKey(m).value) := RetryNote(m, TaskKey(m).value)];
  }

  lemma BothAreQueued(w: Swarm, r: string, n1: string, m1: Message, n2: string, m2: Message, empty: Files)
    requires r in w.roles && SendableTask(w, r, m1) && SendableTask(w, r, m2) && empty == map[]
    ensures JustQueued(Last(w, More(More(Fresh, Send(r, n1, m1)), Send(r, n2, m2))), empty[n1 := m1][n2 := m2], empty)
  {
    var one := More(Fresh, Send(r, n1, m1));
    SendQueues(w, Last(w, Fresh), r, n1, m1, empty);
    assert Last(w, one) == Next(w, Last(w, Fresh), Send(r, n1, m1));
    SendQueues(w, Last(w, one), r, n2, m2, empty[n1 := m1]);
  }

  lemma BothAreHeld(w: Swarm, t: Tree, n1: string, n2: string, now: string, queued: Files, empty: Files)
    requires n1 != n2 && queued.Keys == {n1, n2} && empty == map[] && JustQueued(t, queued, empty)
    requires ShouldHold(w, queued[n1]) && ShouldHold(w, queued[n2])
    ensures
      var calm := Weather(false, 0);
      JustQueued(Next(w, Next(w, t, Process(n1, calm, now)), Process(n2, calm, now)), empty, queued)
  {
    var t' := Next(w, t, Process(n1, Weather(false, 0), now));
    DaemonHolds(w, t, n1, now, queued, empty);
    DaemonHolds(w, t', n2, now, queued - {n1}, empty[n1 := queued[n1]]);
    assert queued - {n1} - {n2} == empty;
    assert empty[n1 := queued[n1]][n2 := queued[n2]] == queued;
  }

  lemma BothRetried(w: Swarm, t: Tree, r: string, n1: string, n2: string, held: Files)
    requires r in w.roles && n1 != n2 && held.Keys == {n1, n2} && JustQueued(t, map[], held)
    requires SendableTask(w, r, held[n1]) && SendableTask(w, r, held[n2])
    requires TaskKey(held[n1]).value !in Wanted(held[n2])
    requires RetryName(TaskKey(held[n1]).value) != RetryName(TaskKey(held[n2]).value)
    ensures |At(Next(w, Next(w, t, Retry(n1, None)), Retry(n2, None)), InProcess(r))| == 2
  {
    var m1, m2 := held[n1], held[n2];
    var id1 := TaskKey(m1).value;
    var t' := Next(w, t, Retry(n1, None));
    FirstRetry(w, t, r, n1, held);
    RetryNoteKey(m1, id1);
    SecondRetry(w, t', r, n2, m2, RetryName(id1), RetryNote(m1, id1));
  }

  /** Whatever the two tasks are, so long as neither their names nor their retry files coincide. */
  lemma TwoRetriesCollide(w: Swarm, r: string, n1: string, m1: Message, n2: string, m2: Message, now: string)
    requires r in w.roles && n1 != n2 && SendableTask(w, r, m1) && SendableTask(w, r, m2)
    requires TaskKey(m1).value !in Wanted(m2) && RetryName(TaskKey(m1).value) != RetryName(TaskKey(m2).value)
    ensures |At(Last(w, TwoRetries(r, n1, m1, n2, m2, now)), InProcess(r))| == 2
  {
    var empty: Files := map[];
    var held := empty[n1 := m1][n2 := m2];
    var four := TwoHeld(r, n1, m1, n2, m2, now);
    BothAreQueued(w, r, n1, m1, n2, m2, empty);
    BothAreHeld(w, Last(w, four.run.run), n1, n2, now, held, empty);
    assert Last(w, four) == Next(w, Next(w, Last(w, four.run.run), four.run.step), four.step);
    BothRetried(w, Last(w, four), r, n1, n2, held);
  }

  /** One handoff of a master that receives batches, held and retried. */
  function OneRetry(r: string, n: string, m: Message, now: string): Run {
    More(More(More(Fresh, Send(r, n, m)), Process(n, Weather(false, 0), now)), Retry(n, None))
  }

  lemma RetryJamsBatchMaster(w: Swarm, r: string, n: string, m: Message, now: string)
    requires r in w.roles && r in w.batchRoles && SendableTask(w, r, m)
    ensures Jammed(w, Last(w, OneRetry(r, n, m, now)), r)
  {
    var empty: Files := map[];
    var run := OneRetry(r, n, m, now);
    SendQueues(w, Last(w, Fresh), r, n, m, empty);
    var t1 := Last(w, run.run.run);
    assert t1 == Next(w, Last(w, Fresh), Send(r, n, m));
    DaemonHolds(w, t1, n, now, empty[n := m], empty);
    assert empty[n := m] - {n} == empty;
    FirstRetry(w, Last(w, run.run), r, n, empty[n := m]);
  }

  // --------------------------------------------------------- a batch emptied for good

  /** The master's handoff for a task is delivered to a role that receives batches, which takes it. */
  function TakenBatch(r: string, s: string, n: string, m: Message, b: string, now: string): Run {
    var held := More(More(Fresh, Send(r, n, m)), Process(n, Weather(false, 0), now));
    More(More(More(held, Approve(n, true)), Process(n, Weather(false, 1), now)), Ready(s, b, now, ""))
  }

  /** The master sends a second one for the task, which is held, and the operator deletes that approval. */
  function EmptiedBatch(r: string, s: string, n: string, m: Message, n': string, m': Message, b: string, now: string): Run {
    More(More(More(TakenBatch(r, s, n, m, b, now), Send(r, n', m')), Process(n', Weather(false, 0), now)), Delete(n'))
  }

  /** Everything outside these directories is empty, and no batch is open. */
  ghost predicate EmptyBut(t: Tree, filled: set<Dir>) {
    forall d :: d !in filled ==> At(t, d) == map[] && !(d.InBatch? && d in t)
  }

  lemma OneIsDelivered(w: Swarm, t: Tree, s: string, n: string, x: Message, now: string)
    requires s in w.roles && EmptyBut(t, {Outbox}) && At(t, Outbox) == map[n := x]
    requires !ShouldHold(w, x) && RecipientList(x.headers) == [s]
    ensures
      var t' := Next(w, t, Process(n, Weather(false, 1), now));
      EmptyBut(t', {New(s), Sent}) && At(t', New(s)) == map[n := Delivered(x, s, now)]
  {
    assert [s][1..] == [];
    var t1 := Put(t, New(s), n, Delivered(x, s, now));
    assert WriteCopies(w, t, n, x, [s], 1, now) == (t1, true);
    assert Processed(w, t, n, Weather(false, 1), now) == Put(Drop(t1, Outbox, n), Sent, n, x);
  }

  lemma ApprovedIsDelivered(w: Swarm, t: Tree, s: string, n: string, m: Message, now: string)
    requires s in w.roles && JustQueued(t, map[], map[n := m]) && ShouldHold(w, m) && RecipientList(m.headers) == [s]
    ensures
      var t' := Next(w, Next(w, t, Approve(n, true)), Process(n, Weather(false, 1), now));
      && EmptyBut(t', {New(s), Sent})
      && At(t', New(s)) == map[n := Delivered(Marked(m), s, now)]
  {
    var t1 := Next(w, t, Approve(n, true));
    MarkedIsApproved(m);
    assert RecipientList(Marked(m).headers) == [s];
    assert At(t1, Outbox) == map[n := Marked(m)] && EmptyBut(t1, {Outbox});
    OneIsDelivered(w, t1, s, n, Marked(m), now);
  }

  lemma DeliveredIsTaken(w: Swarm, t: Tree, s: string, n: string, x: Message, b: string, now: string)
    requires s in w.roles && s in w.batchRoles && EmptyBut(t, {New(s), Sent}) && At(t, New(s)) == map[n := x]
    ensures
      var t' := Next(w, t, Ready(s, b, now, ""));
      && EmptyBut(t', {InBatch(s, b), Sent}) && InBatch(s, b) in t'
      && At(t', InBatch(s, b)) == map[n := Stamped(x, now, "")]
  {
    var files := At(t, New(s));
    assert Batches(t, s) == {} && !Active(t, s);
    assert files.Keys == {n};
    assert First(files.Keys) == n;
    assert WithPriority(files, Priority(x)) == {n};
    assert files - {n} == map[];
  }

  lemma SecondIsHeld(w: Swarm, t: Tree, r: string, s: string, n: string, m: Message, b: string, now: string)
    requires r in w.roles && r != s && SendableTask(w, r, m) && EmptyBut(t, {InBatch(s, b), Sent}) && InBatch(s, b) in t
    ensures
      var t' := Next(w, Next(w, t, Send(r, n, m)), Process(n, Weather(false, 0), now));
      && At(t', Pending) == map[n := m] && InBatch(s, b) in t' && At(t', InBatch(s, b)) == At(t, InBatch(s, b))
  {
    assert Batches(t, r) == {};
    assert Enabled(w, t, Send(r, n, m));
    var t1 := Next(w, t, Send(r, n, m));
    assert At(t1, Outbox) == map[n := m];
  }

  lemma DeleteEmpties(w: Swarm, t: Tree, s: string, n: string, m: Message, b: string, k: string, x: Message)
    requires At(t, Pending) == map[n := m] && InBatch(s, b) in t && At(t, InBatch(s, b)) == map[k := x] && SameTask(x, m)
    ensures
      var t' := Next(w, t, Delete(n));
      BatchTrouble(t', s) && b in Batches(t', s) && At(t', InBatch(s, b)) == map[]
  {
    var t' := Next(w, t, Delete(n));
    DeletedAt(t, m, InBatch(s, b));
    assert b in Batches(t', s) && !CanClose(t', s, b);
  }

  lemma FirstIsHeld(w: Swarm, r: string, n: string, m: Message, now: string)
    requires r in w.roles && SendableTask(w, r, m)
    ensures JustQueued(Last(w, More(More(Fresh, Send(r, n, m)), Process(n, Weather(false, 0), now))), map[], map[n := m])
  {
    var empty: Files := map[];
    var sent := More(Fresh, Send(r, n, m));
    SendQueues(w, Last(w, Fresh), r, n, m, empty);
    assert Last(w, sent) == Next(w, Last(w, Fresh), Send(r, n, m));
    DaemonHolds(w, Last(w, sent), n, now, empty[n := m], empty);
    assert empty[n := m] - {n} == empty && empty[n := m] == map[n := m];
  }

  lemma BatchIsTaken(w: Swarm, r: string, s: string, n: string, m: Message, b: string, now: string)
    requires r in w.roles && s in w.roles && s in w.batchRoles && SendableTask(w, r, m) && RecipientList(m.headers) == [s]
    ensures
      var t := Last(w, TakenBatch(r, s, n, m, b, now));
      && EmptyBut(t, {InBatch(s, b), Sent}) && InBatch(s, b) in t
      && At(t, InBatch(s, b)) == map[n := Stamped(Delivered(Marked(m), s, now), now, "")]
  {
    var run := TakenBatch(r, s, n, m, b, now);
    var held := run.run.run.run;
    FirstIsHeld(w, r, n, m, now);
    ApprovedIsDelivered(w, Last(w, held), s, n, m, now);
    TwoSteps(w, held, Approve(n, true), Process(n, Weather(false, 1), now));
    DeliveredIsTaken(w, Last(w, run.run), s, n, Delivered(Marked(m), s, now), b, now);
  }

  lemma TwoSteps(w: Swarm, run: Run, step: Step, step': Step)
    ensures Last(w, More(More(run, step), step')) == Next(w, Next(w, Last(w, run), step), step')
  {
    assert Last(w, More(run, step)) == Next(w, Last(w, run), step);
  }

  /** Then the batch is without files and its role stuck for good. */
  lemma DeletionEmptiesBatch(w: Swarm, r: string, s: string, n: string, m: Message, n': string, m': Message, b: string, now: string)
    requires r in w.roles && s in w.roles && s in w.batchRoles && r != s
    requires SendableTask(w, r, m) && SendableTask(w, r, m') && RecipientList(m.headers) == [s] && SameTask(m, m')
    ensures
      var t := Last(w, EmptiedBatch(r, s, n, m, n', m', b, now));
      BatchTrouble(t, s) && b in Batches(t, s) && At(t, InBatch(s, b)) == map[]
  {
    var taken := TakenBatch(r, s, n, m, b, now);
    var x := Stamped(Delivered(Marked(m), s, now), now, "");
    BatchIsTaken(w, r, s, n, m, b, now);
    SecondIsHeld(w, Last(w, taken), r, s, n', m', b, now);
    TwoSteps(w, taken, Send(r, n', m'), Process(n', Weather(false, 0), now));
    StampsKeepTask(m, s, now);
    DeleteEmpties(w, Last(w, EmptiedBatch(r, s, n, m, n', m', b, now).run), s, n', m', b, n, x);
  }

  lemma StampsKeepTask(m: Message, s: string, now: string)
    ensures TaskKey(Stamped(Delivered(Marked(m), s, now), now, "")) == TaskKey(m)
  {}

  // ------------------------------------------------- handoffs as they are written

  predicate IsDigit(c: char) { '0' <= c <= '9' }
  predicate IsHexDigit(c: char) { IsDigit(c) || 'A' <= c <= 'F' || 'a' <= c <= 'f' }

  ghost predicate AreRecipients(w: Swarm, names: seq<string>) {
    && names != [] && (forall i :: 0 <= i < |names| ==> names[i] in w.roles && !IsBlank(names[i]) && '_' !in names[i])
    && forall i, j :: 0 <= i < j < |names| ==> names[i] != names[j]
  }

  /** What the send helper checks of the headers of a git handoff, beside git and the board. */
  ghost predicate Accepted(w: Swarm, m: Message) {
    var h := m.headers;
    && "to" in h && AreRecipients(w, SplitOn(h["to"], ','))
    && "priority" in h && |h["priority"]| == 2 && (forall i :: 0 <= i < 2 ==> IsDigit(h["priority"][i]))
    && "task_id" in h && !IsBlank(h["task_id"])
    && "task" in h && !IsBlank(h["task"]) && |h["task"]| <= 80
    && "artifacts" in h && h["artifacts"] != ""
    && "commit" in h && |h["commit"]| == 10 && (forall i :: 0 <= i < 10 ==> IsHexDigit(h["commit"][i]))
  }

  datatype Draft = Draft(from: string, to: string, task: string, commit: string, artifacts: string, stamp: string, seqNo: string)

  /** The file `write-handoff!` writes; a card's id may be its name. */
  function Written(d: Draft, body: string): Message {
    Message(map["id" := d.stamp + "_" + d.seqNo + "_from_" + d.from, "from" := d.from, "to" := d.to, "priority" := "50",
                "type" := "git_handoff", "role" := d.from, "task_id" := d.task, "task" := d.task, "commit" := d.commit,
                "artifacts" := d.artifacts, "created_at" := d.stamp], body)
  }

  function FileName(d: Draft): string {
    "50_" + d.stamp + "_" + d.seqNo + "_from_" + d.from + "_to_" + d.to + ".handoff"
  }

  lemma WrittenIsSendable(w: Swarm, d: Draft, body: string)
    requires w.master == Some(d.from) && d.from in w.roles && "specifier" in w.roles
    requires d.to in w.roles && IsTrimmed(d.to) && ',' !in d.to && !IsBlank(d.task)
    ensures SendableTask(w, d.from, Written(d, body)) && Wanted(Written(d, body)) == {d.task}
    ensures RecipientList(Written(d, body).headers) == [d.to] && TaskKey(Written(d, body)) == Some(d.task)
  {
    TrimmedNamesStay([d.to]);
    JoinedNamesSplit([d.to], ',');
    assert JoinOn([d.to], ',') == d.to;
    assert RecipientList(Written(d, body).headers) == [d.to];
  }

  lemma WrittenIsAccepted(w: Swarm, d: Draft, body: string)
    requires d.to in w.roles && IsTrimmed(d.to) && ',' !in d.to && '_' !in d.to && !IsBlank(d.task) && |d.task| <= 80
    requires d.artifacts != "" && |d.commit| == 10 && forall i :: 0 <= i < 10 ==> IsHexDigit(d.commit[i])
    ensures Accepted(w, Written(d, body))
  {
    JoinedNamesSplit([d.to], ',');
    assert JoinOn([d.to], ',') == d.to;
    assert AreRecipients(w, [d.to]);
  }

  lemma NamesDiffer(d: Draft, e: Draft)
    requires d.stamp == e.stamp && d.seqNo == "000001" && e.seqNo == "000002"
    ensures FileName(d) != FileName(e)
  {
    var k := 3 + |d.stamp| + 6;
    assert FileName(d)[k] == '1' && FileName(e)[k] == '2';
  }

  /**
    Two tasks in process, from empty directories: the master hands both to
    another role with nothing in process, as the send helper allows while both
    are cards on the board, and the operator retries both.
   */
  lemma TwoInProcess(w: Swarm, r: string, to: string, commit: string, artifacts: string, stamp: string, body: string)
    requires w.master == Some(r) && {r, to, "specifier"} <= w.roles && r !in w.batchRoles
    requires IsTrimmed(to) && ',' !in to && '_' !in to
    requires artifacts != "" && |commit| == 10 && forall i :: 0 <= i < 10 ==> IsHexDigit(commit[i])
    ensures
      var (d, e) := (Draft(r, to, "a", commit, artifacts, stamp, "000001"), Draft(r, to, "b", commit, artifacts, stamp, "000002"));
      var (m1, m2) := (Written(d, body), Written(e, body));
      && Accepted(w, m1) && Accepted(w, m2)
      && Jammed(w, Last(w, TwoRetries(r, FileName(d), m1, FileName(e), m2, stamp)), r)
  {
    var (d, e) := (Draft(r, to, "a", commit, artifacts, stamp, "000001"), Draft(r, to, "b", commit, artifacts, stamp, "000002"));
    assert !IsSpace(d.task[0]) && !IsSpace(e.task[0]);
    WrittenIsSendable(w, d, body);
    WrittenIsSendable(w, e, body);
    WrittenIsAccepted(w, d, body);
    WrittenIsAccepted(w, e, body);
    NamesDiffer(d, e);
    RetryNamesDiffer(d.task, e.task);
    TwoRetriesCollide(w, r, FileName(d), Written(d, body), FileName(e), Written(e, body), stamp);
  }

  lemma RetryNamesDiffer(a: string, b: string)
    requires a == "a" && b == "b"
    ensures RetryName(a) != RetryName(b)
  {
    assert Sanitized(a, false) == a && Sanitized(b, false) == b;
    assert RetryName(a)[|RETRY_PREFIX|] == 'a' && RetryName(b)[|RETRY_PREFIX|] == 'b';
  }

  /** A master that receives batches is jammed by a single retry. */
  lemma BatchMasterIsJammed(w: Swarm, d: Draft, body: string)
    requires w.master == Some(d.from) && {d.from, d.to, "specifier"} <= w.roles && d.from in w.batchRoles
    requires IsTrimmed(d.to) && ',' !in d.to && '_' !in d.to && !IsBlank(d.task) && |d.task| <= 80
    requires d.artifacts != "" && |d.commit| == 10 && forall i :: 0 <= i < 10 ==> IsHexDigit(d.commit[i])
    ensures Accepted(w, Written(d, body))
    ensures Jammed(w, Last(w, OneRetry(d.from, FileName(d), Written(d, body), d.stamp)), d.from)
  {
    WrittenIsSendable(w, d, body);
    WrittenIsAccepted(w, d, body);
    RetryJamsBatchMaster(w, d.from, FileName(d), Written(d, body), d.stamp);
  }

  /** So a deletion can leave a role that receives batches with an empty one, through every further step. */
  lemma BatchEmptiedForGood(w: Swarm, d: Draft, e: Draft, body: string, b: string, run: Run, now: string)
    requires w.master == Some(d.from) && {d.from, d.to, "specifier"} <= w.roles && d.to in w.batchRoles && d.from != d.to
    requires IsTrimmed(d.to) && ',' !in d.to && '_' !in d.to && !IsBlank(d.task) && |d.task| <= 80
    requires d.artifacts != "" && |d.commit| == 10 && forall i :: 0 <= i < 10 ==> IsHexDigit(d.commit[i])
    requires e == d.(commit := e.commit, seqNo := e.seqNo) && |e.commit| == 10 && forall i :: 0 <= i < 10 ==> IsHexDigit(e.commit[i])
    requires Within(EmptiedBatch(d.from, d.to, FileName(d), Written(d, body), FileName(e), Written(e, body), b, d.stamp), run)
    ensures Accepted(w, Written(d, body)) && Accepted(w, Written(e, body))
    ensures BatchTrouble(Last(w, run), d.to) && BatchDone(Last(w, run), d.to, now) == (Last(w, run), Refused)
  {
    var prefix := EmptiedBatch(d.from, d.to, FileName(d), Written(d, body), FileName(e), Written(e, body), b, d.stamp);
    WrittenIsSendable(w, d, body);
    WrittenIsSendable(w, e, body);
    WrittenIsAccepted(w, d, body);
    WrittenIsAccepted(w, e, body);
    DeletionEmptiesBatch(w, d.from, d.to, FileName(d), Written(d, body), FileName(e), Written(e, body), b, d.stamp);
    TroubleIsForever(w, prefix, run, d.to, now);
  }
}
