/**
  The handoff protocol of swarmforge: roles exchange files through outboxes
  and inboxes, a daemon delivers or holds them, an operator approves or
  retries what is held, and helper scripts take and complete work.

  A tree maps each directory to the handoff files in it. Each script's effect
  is a function on trees; the class at the end does the same moves file by
  file, as the scripts do, and is proved to reach the tree that function gives.
 */
module HandoffProtocol {
  import opened Options
  import opened Lexicographic
  import opened HandoffText

  type Files = map<string, Message>

  datatype Dir =
    | Outbox | Pending | Sent | Failed
    | New(role: string) | InProcess(role: string) | Completed(role: string)
    | InBatch(role: string, batch: string) | DoneBatch(role: string, batch: string)

  /** The directories a handoff passes through; the others are inboxes of roles. */
  predicate IsQueue(d: Dir) { d == Outbox || d == Pending || d == Sent || d == Failed }

  type Tree = map<Dir, Files>

  /** The roles file: its roles, the one on the master worktree, and those that receive in batches. */
  datatype Swarm = Swarm(roles: set<string>, master: Option<string>, batchRoles: set<string>)

  function At(t: Tree, d: Dir): Files { if d in t then t[d] else map[] }

  function Put(t: Tree, d: Dir, n: string, m: Message): Tree { t[d := At(t, d)[n := m]] }

  function Drop(t: Tree, d: Dir, n: string): Tree { t[d := At(t, d) - {n}] }

  // -------------------------------------------------------------------- headers

  function Field(m: Message, k: string): Option<string> {
    if k in m.headers then Some(m.headers[k]) else None
  }

  /** `handoff-task-id`. */
  function TaskKey(m: Message): Option<string> {
    if Field(m, "task_id").Some? && Field(m, "task_id").value != "" then Field(m, "task_id") else Field(m, "task")
  }

  function Nonblank(name: Option<string>): set<string> {
    if name.Some? && !IsBlank(name.value) then {name.value} else {}
  }

  /** The names under which an operator's retry looks for the work of `m`. */
  function Wanted(m: Message): set<string> { Nonblank(TaskKey(m)) + Nonblank(Field(m, "task")) }

  predicate SameTask(x: Message, m: Message) { TaskKey(x).Some? && TaskKey(x).value in Wanted(m) }

  /** `outbound-git-from-role?`. */
  predicate GitFrom(m: Message, r: string) {
    Field(m, "type") == Some("git_handoff") && Field(m, "from") == Some(r)
  }

  /** `active-outbound-git-files` is not empty. */
  predicate Active(t: Tree, r: string) {
    && !IsBlank(r)
    && ((exists n :: n in At(t, Pending) && GitFrom(At(t, Pending)[n], r))
        || (exists n :: n in At(t, Outbox) && GitFrom(At(t, Outbox)[n], r)))
  }

  // --------------------------------------------------------------------- daemon

  /** `should-hold?`. */
  predicate ShouldHold(w: Swarm, m: Message) {
    && Field(m, "type") == Some("git_handoff") && "specifier" in w.roles && Field(m, "from") == w.master
    && |RecipientList(m.headers)| == 1 && !AlreadyApproved(m.headers)
  }

  /** `move-with-collision`: none when even the dated name is taken. */
  function MoveInto(t: Tree, n: string, to: Dir, now: string): Option<Tree>
    requires n in At(t, Outbox)
  {
    var m := At(t, Outbox)[n];
    if n !in At(t, to) then Some(Put(Drop(t, Outbox, n), to, n, m))
    else if now + "_" + n !in At(t, to) then Some(Put(Drop(t, Outbox, n), to, now + "_" + n, m))
    else None
  }

  /** The daemon's `fail!`, whose own failure is only logged. */
  function FailFile(t: Tree, n: string, now: string): Tree
    requires n in At(t, Outbox)
  {
    var moved := MoveInto(t, n, Failed, now);
    if moved.Some? then moved.value else t
  }

  function MoveOrFail(t: Tree, n: string, to: Dir, now: string): Tree
    requires n in At(t, Outbox)
  {
    var moved := MoveInto(t, n, to, now);
    if moved.Some? then moved.value else FailFile(t, n, now)
  }

  function Delivered(m: Message, r: string, now: string): Message {
    Message(m.headers["recipient" := r]["enqueued_at" := now], m.body)
  }

  function WriteCopy(t: Tree, n: string, m: Message, r: string, now: string): Tree {
    if n in At(t, New(r)) then t else Put(t, New(r), n, Delivered(m, r, now))
  }

  /**
    The copies written to the recipients in turn, and whether all were: an
    unknown recipient stops the rest, and so does a failed notification, whose
    copy is already written. `quiet` counts the notifications before one fails.
   */
  function WriteCopies(w: Swarm, t: Tree, n: string, m: Message, rs: seq<string>, quiet: nat, now: string): (Tree, bool)
    decreases |rs|
  {
    if rs == [] then (t, true)
    else if rs[0] !in w.roles then (t, false)
    else
      var t' := WriteCopy(t, n, m, rs[0], now);
      if quiet == 0 then (t', false) else WriteCopies(w, t', n, m, rs[1..], quiet - 1, now)
  }

  ghost predicate Same(t: Tree, t': Tree, d: Dir) { At(t', d) == At(t, d) && (d in t' <==> d in t) }

  lemma {:induction false} CopiesGoToNew(w: Swarm, t: Tree, n: string, m: Message, rs: seq<string>, quiet: nat, now: string, d: Dir)
    requires !d.New?
    ensures Same(t, WriteCopies(w, t, n, m, rs, quiet, now).0, d)
    decreases |rs|
  {
    if rs != [] && rs[0] in w.roles && quiet > 0 {
      CopiesGoToNew(w, WriteCopy(t, n, m, rs[0], now), n, m, rs[1..], quiet - 1, now, d);
    }
  }

  /** What the surroundings do to a delivery: the board update may fail, and so may a notification. */
  datatype Weather = Weather(boardFails: bool, quiet: nat)

  /** `process-outbox-file!`, with the failures the poll loop catches. */
  function Processed(w: Swarm, t: Tree, n: string, weather: Weather, now: string): Tree
    requires n in At(t, Outbox)
  {
    var m := At(t, Outbox)[n];
    var rs := RecipientList(m.headers);
    if ShouldHold(w, m) then MoveOrFail(t, n, Pending, now)
    else if rs == [] || weather.boardFails then FailFile(t, n, now)
    else
      var (t', all) := WriteCopies(w, t, n, m, rs, weather.quiet, now);
      CopiesGoToNew(w, t, n, m, rs, weather.quiet, now, Outbox);
      if all then MoveOrFail(t', n, Sent, now) else FailFile(t', n, now)
  }

  // ------------------------------------------------------------------- operator

  /** `approve!`; `marked` tells whether the text takes the mark, which is for HandoffText.ApprovalTakesIff. */
  function Approved(t: Tree, n: string, marked: bool): Tree
    requires n in At(t, Pending)
  {
    var m := At(t, Pending)[n];
    Put(Drop(t, Pending, n), Outbox, n, if marked then Marked(m) else m)
  }

  function Sender(m: Message): string { if Field(m, "from").Some? then Field(m, "from").value else "" }

  predicate IsCurrent(d: Dir, r: string) { d == InProcess(r) || (d.InBatch? && d.role == r) }
  predicate IsDone(d: Dir, r: string) { d == Completed(r) || (d.DoneBatch? && d.role == r) }

  predicate HasTask(t: Tree, d: Dir, n: string, m: Message) { n in At(t, d) && SameTask(At(t, d)[n], m) }

  /** Some file being worked on is for the work of `m`. */
  ghost predicate WorkingOn(t: Tree, r: string, m: Message) {
    exists d, n :: IsCurrent(d, r) && HasTask(t, d, n, m)
  }

  datatype Place = Place(dir: Dir, name: string)

  /** A choice of completed file for a retry: any match, single files before batched ones. */
  ghost predicate IsChoice(t: Tree, r: string, m: Message, done: Option<Place>) {
    match done
    case None => forall d, n :: IsDone(d, r) ==> !HasTask(t, d, n, m)
    case Some(p) =>
      && IsDone(p.dir, r) && HasTask(t, p.dir, p.name, m)
      && (p.dir.DoneBatch? ==> forall n :: !HasTask(t, Completed(r), n, m))
  }

  predicate IsWordChar(c: char) { '0' <= c <= '9' || 'A' <= c <= 'Z' || 'a' <= c <= 'z' }

  /** Every run of other characters becomes one underscore. */
  function Sanitized(s: string, inRun: bool): string {
    if s == [] then []
    else if IsWordChar(s[0]) then [s[0]] + Sanitized(s[1..], false)
    else (if inRun then [] else ['_']) + Sanitized(s[1..], true)
  }

  const RETRY_PREFIX := "50_retry_"

  function RetryName(id: string): string { RETRY_PREFIX + (Sanitized(id, false) + ".handoff") }

  function RetryNote(m: Message, id: string): Message {
    var task := if Field(m, "task").Some? then Field(m, "task").value else id;
    var base := Field(m, "task_base_commit");
    var h := map["from" := "(Retry)", "to" := Sender(m), "priority" := "50", "type" := "note", "task_id" := id, "task" := task];
    Message(if base.Some? && base.value != "" then h["task_base_commit" := base.value] else h, "Retry audit.\n")
  }

  lemma RetryNoteKey(m: Message, id: string)
    requires !IsBlank(id)
    ensures TaskKey(RetryNote(m, id)) == Some(id)
  {}

  /** `write-retry-in-process!`. */
  function RetryWritten(t: Tree, r: string, m: Message): Tree {
    if TaskKey(m).Some? && !IsBlank(TaskKey(m).value) then
      Put(t, InProcess(r), RetryName(TaskKey(m).value), RetryNote(m, TaskKey(m).value))
    else t
  }

  function Restored(t: Tree, r: string, p: Place): Tree
    requires p.name in At(t, p.dir)
  {
    Put(Drop(t, p.dir, p.name), InProcess(r), p.name, At(t, p.dir)[p.name])
  }

  /** `restore-task-base!`. */
  ghost function WorkRestored(t: Tree, r: string, m: Message, done: Option<Place>): Tree
    requires IsChoice(t, r, m, done)
  {
    if WorkingOn(t, r, m) then t
    else if done.Some? then Restored(t, r, done.value)
    else RetryWritten(t, r, m)
  }

  /** `retry-approval!`: the held file goes, and its sender gets the work back. */
  ghost function Retried(w: Swarm, t: Tree, n: string, done: Option<Place>): Tree
    requires n in At(t, Pending) && IsChoice(Drop(t, Pending, n), Sender(At(t, Pending)[n]), At(t, Pending)[n], done)
  {
    var m := At(t, Pending)[n];
    if Sender(m) in w.roles then WorkRestored(Drop(t, Pending, n), Sender(m), m, done) else Drop(t, Pending, n)
  }

  function WithoutTask(files: Files, m: Message): Files {
    map n | n in files && !SameTask(files[n], m) :: files[n]
  }

  /** `delete-approval!`: every file of the held file's task goes, wherever it is. */
  function Deleted(t: Tree, m: Message): Tree { map d | d in t :: WithoutTask(t[d], m) }

  lemma DeletedAt(t: Tree, m: Message, d: Dir)
    ensures At(Deleted(t, m), d) == WithoutTask(At(t, d), m) && (d in Deleted(t, m) <==> d in t)
  {}

  // -------------------------------------------------------------------- helpers

  datatype Outcome = Refused | Resumed | Waiting | NoTask | Started | Finished

  ghost function First(names: set<string>): (first: string)
    requires names != {}
    ensures IsFirst(first, names)
  {
    FirstExists(names);
    var first :| IsFirst(first, names);
    first
  }

  lemma OnlyOne(names: set<string>, n: string)
    requires n in names && |names| <= 1
    ensures names == {n}
  {
    assert |names - {n}| == 0;
  }

  function Batches(t: Tree, r: string): set<string> {
    set d | d in t && d.InBatch? && d.role == r :: d.batch
  }

  function Stamped(m: Message, now: string, head: string): Message {
    Message(m.headers["dequeued_at" := now]["task_base_commit" := head], m.body)
  }

  function Closed(m: Message, now: string): Message { Message(m.headers["completed_at" := now], m.body) }

  function TaskStarted(t: Tree, r: string, n: string, now: string, head: string): Tree
    requires n in At(t, New(r))
  {
    Put(Drop(t, New(r), n), InProcess(r), n, Stamped(At(t, New(r))[n], now, head))
  }

  /** `ready_for_next_task`. */
  ghost function TaskReady(t: Tree, r: string, now: string, head: string): (Tree, Outcome) {
    if Batches(t, r) != {} || |At(t, InProcess(r))| > 1 then (t, Refused)
    else if |At(t, InProcess(r))| == 1 then (t, Resumed)
    else if Active(t, r) then (t, Waiting)
    else if At(t, New(r)) == map[] then (t, NoTask)
    else (TaskStarted(t, r, First(At(t, New(r)).Keys), now, head), Started)
  }

  function Priority(m: Message): string {
    if Field(m, "priority").Some? then Field(m, "priority").value else "50"
  }

  function WithPriority(files: Files, priority: string): set<string> {
    set n | n in files && Priority(files[n]) == priority
  }

  function BatchStarted(t: Tree, r: string, b: string, names: set<string>, now: string, head: string): Tree
    requires names <= At(t, New(r)).Keys
  {
    t[New(r) := At(t, New(r)) - names][InBatch(r, b) := map n | n in names :: Stamped(At(t, New(r))[n], now, head)]
  }

  /** `ready_for_next_batch`; `b` names the directory it creates. A batch without files is refused by `print-batch`. */
  ghost function BatchReady(t: Tree, r: string, b: string, now: string, head: string): (Tree, Outcome) {
    if At(t, InProcess(r)) != map[] || |Batches(t, r)| > 1 then (t, Refused)
    else if |Batches(t, r)| == 1 then (t, if At(t, InBatch(r, First(Batches(t, r)))) == map[] then Refused else Resumed)
    else if Active(t, r) then (t, Waiting)
    else if At(t, New(r)) == map[] then (t, NoTask)
    else
      var files := At(t, New(r));
      (BatchStarted(t, r, b, WithPriority(files, Priority(files[First(files.Keys)])), now, head), Started)
  }

  function TaskClosed(t: Tree, r: string, n: string, now: string): Tree
    requires n in At(t, InProcess(r))
  {
    Put(Drop(t, InProcess(r), n), Completed(r), n, Closed(At(t, InProcess(r))[n], now))
  }

  /** `done_with_current_task`. */
  ghost function TaskDone(t: Tree, r: string, now: string): (Tree, Outcome) {
    if Batches(t, r) != {} || |At(t, InProcess(r))| > 1 then (t, Refused)
    else if At(t, InProcess(r)) == map[] then (t, NoTask)
    else (TaskClosed(t, r, First(At(t, InProcess(r)).Keys), now), Finished)
  }

  function BatchPart(t: Tree, r: string, b: string, names: set<string>, now: string): Tree
    requires names <= At(t, InBatch(r, b)).Keys
  {
    t[InBatch(r, b) := At(t, InBatch(r, b)) - names]
     [DoneBatch(r, b) := map n | n in names :: Closed(At(t, InBatch(r, b))[n], now)]
  }

  function BatchClosed(t: Tree, r: string, b: string, now: string): Tree {
    BatchPart(t, r, b, At(t, InBatch(r, b)).Keys, now) - {InBatch(r, b)}
  }

  /** `done_with_current_batch`. */
  ghost function BatchDone(t: Tree, r: string, now: string): (Tree, Outcome) {
    var batches := Batches(t, r);
    if At(t, InProcess(r)) != map[] || |batches| > 1 then (t, Refused)
    else if batches == {} then (t, NoTask)
    else if At(t, InBatch(r, First(batches))) == map[] || DoneBatch(r, First(batches)) in t then (t, Refused)
    else (BatchClosed(t, r, First(batches), now), Finished)
  }

  // What each helper leaves alone.

  lemma TaskReadyLeaves(t: Tree, r: string, now: string, head: string, d: Dir)
    requires d != New(r) && d != InProcess(r)
    ensures Same(t, TaskReady(t, r, now, head).0, d)
  {}

  lemma BatchReadyLeaves(t: Tree, r: string, b: string, now: string, head: string, d: Dir)
    requires d != New(r) && d != InBatch(r, b)
    ensures Same(t, BatchReady(t, r, b, now, head).0, d)
  {}

  lemma TaskDoneLeaves(t: Tree, r: string, now: string, d: Dir)
    requires d != InProcess(r) && d != Completed(r)
    ensures Same(t, TaskDone(t, r, now).0, d)
  {}

  lemma BatchDoneLeaves(t: Tree, r: string, now: string, d: Dir)
    requires !((d.InBatch? || d.DoneBatch?) && d.role == r)
    ensures Same(t, BatchDone(t, r, now).0, d)
  {}

  // ----------------------------------------------------------------------- send

  /** `current-in-process-task-id`, when the current work is one task or one batch. */
  ghost function CurrentKey(t: Tree, r: string): Option<string> {
    var files := At(t, InProcess(r));
    var batches := Batches(t, r);
    if files != map[] then TaskKey(files[First(files.Keys)])
    else if batches == {} then None
    else
      var batch := At(t, InBatch(r, First(batches)));
      if batch == map[] then None else TaskKey(batch[First(batch.Keys)])
  }

  /** `current-work-state-errors` finds none. */
  ghost predicate CurrentWorkIsClear(t: Tree, r: string) {
    && (At(t, InProcess(r)) == map[] || Batches(t, r) == {})
    && |At(t, InProcess(r))| <= 1 && |Batches(t, r)| <= 1
    && forall b :: b in Batches(t, r) ==> At(t, InBatch(r, b)) != map[]
  }

  /**
    What the send helper requires: a git handoff comes from a role, names its
    task, and names the task in process if there is one. With nothing in
    process any task the role may work on is accepted.
   */
  ghost predicate MaySend(w: Swarm, t: Tree, r: string, m: Message) {
    && Field(m, "from") == Some(r)
    && (Field(m, "type") == Some("git_handoff") ==>
        && r in w.roles && CurrentWorkIsClear(t, r)
        && TaskKey(m).Some? && !IsBlank(TaskKey(m).value)
        && (CurrentKey(t, r).Some? ==> TaskKey(m) == CurrentKey(t, r)))
  }

  // ----------------------------------------------------------------------- runs

  datatype Step =
    | Send(role: string, name: string, message: Message)
    | Process(name: string, weather: Weather, now: string)
    | Approve(name: string, marked: bool)
    | Retry(name: string, done: Option<Place>)
    | Delete(name: string)
    | Ready(role: string, batch: string, now: string, head: string)
    | Done(role: string, now: string)

  ghost predicate Enabled(w: Swarm, t: Tree, step: Step) {
    match step
    case Send(r, n, m) => MaySend(w, t, r, m)
    case Process(n, _, _) => n in At(t, Outbox)
    case Approve(n, _) => n in At(t, Pending)
    case Retry(n, done) =>
      n in At(t, Pending) && IsChoice(Drop(t, Pending, n), Sender(At(t, Pending)[n]), At(t, Pending)[n], done)
    case Delete(n) => n in At(t, Pending)
    case Ready(r, b, _, _) => r in w.roles && InBatch(r, b) !in t
    case Done(r, _) => r in w.roles
  }

  ghost function After(w: Swarm, t: Tree, step: Step): Tree
    requires Enabled(w, t, step)
  {
    match step
    case Send(_, n, m) => Put(t, Outbox, n, m)
    case Process(n, weather, now) => Processed(w, t, n, weather, now)
    case Approve(n, marked) => Approved(t, n, marked)
    case Retry(n, done) => Retried(w, t, n, done)
    case Delete(n) => Deleted(t, At(t, Pending)[n])
    case Ready(r, b, now, head) => if r in w.batchRoles then BatchReady(t, r, b, now, head).0 else TaskReady(t, r, now, head).0
    case Done(r, now) => if r in w.batchRoles then BatchDone(t, r, now).0 else TaskDone(t, r, now).0
  }

  /** Any steps one after the other, latest outermost; one that cannot be taken changes nothing. */
  datatype Run = Fresh | More(run: Run, step: Step)

  ghost function Next(w: Swarm, t: Tree, step: Step): Tree {
    if Enabled(w, t, step) then After(w, t, step) else t
  }

  /** The tree a run leaves, from an empty one. */
  ghost function Last(w: Swarm, run: Run): Tree {
    match run
    case Fresh => map[]
    case More(run', step) => Next(w, Last(w, run'), step)
  }

  /** `prefix` is an earlier stage of `run`, or `run` itself. */
  ghost predicate Within(prefix: Run, run: Run) {
    prefix == run || (run.More? && Within(prefix, run.run))
  }
}
