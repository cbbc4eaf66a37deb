/**
  What the files say about their tasks stays true as the scripts move and
  stamp them: either that every file names a card of the board, or that every
  file under a sender's name has the task that was sent under it.
 */
module HandoffContents {
  import opened Options
  import opened HandoffText
  import opened HandoffProtocol

  /** Card names by task id. */
  type Board = map<string, string>

  /** The message names no task, or one card. */
  ghost predicate Carded(board: Board, m: Message) {
    TaskKey(m).Some? ==> TaskKey(m).value in board && Field(m, "task") == Some(board[TaskKey(m).value])
  }

  /** Task keys by file name. */
  type Keys = map<string, Option<string>>

  datatype Rule = NamesCards(board: Board) | HasKeys(keys: Keys)

  ghost predicate Follows(rule: Rule, n: string, m: Message) {
    match rule
    case NamesCards(board) => Carded(board, m)
    case HasKeys(keys) => n in keys ==> TaskKey(m) == keys[n]
  }

  ghost predicate FilesFollow(rule: Rule, files: Files) {
    forall n :: n in files ==> Follows(rule, n, files[n])
  }

  ghost predicate DirFollows(rule: Rule, t: Tree, d: Dir) { FilesFollow(rule, At(t, d)) }

  ghost predicate AllFollow(rule: Rule, t: Tree) {
    forall d :: DirFollows(rule, t, d)
  }

  lemma SetFollows(rule: Rule, t: Tree, d: Dir, files: Files)
    requires AllFollow(rule, t) && FilesFollow(rule, files)
    ensures AllFollow(rule, t[d := files])
  {
    var t' := t[d := files];
    forall e ensures DirFollows(rule, t', e) {
      assert DirFollows(rule, t, e);
    }
  }

  lemma PutFollows(rule: Rule, t: Tree, d: Dir, n: string, m: Message)
    requires AllFollow(rule, t) && Follows(rule, n, m)
    ensures AllFollow(rule, Put(t, d, n, m))
  {
    assert DirFollows(rule, t, d);
    SetFollows(rule, t, d, At(t, d)[n := m]);
  }

  lemma DropFollows(rule: Rule, t: Tree, d: Dir, n: string)
    requires AllFollow(rule, t)
    ensures AllFollow(rule, Drop(t, d, n))
  {
    assert DirFollows(rule, t, d);
    SetFollows(rule, t, d, At(t, d) - {n});
  }

  /** What the scripts write on a file leaves its task as it was. */
  lemma StampsFollow(rule: Rule, n: string, m: Message, r: string, now: string, head: string)
    requires Follows(rule, n, m)
    ensures Follows(rule, n, Delivered(m, r, now)) && Follows(rule, n, Stamped(m, now, head)) && Follows(rule, n, Closed(m, now))
    ensures Follows(rule, n, Marked(m))
  {
    StampsKeepKey(m, r, now, head);
  }

  lemma StampsKeepKey(m: Message, r: string, now: string, head: string)
    ensures TaskKey(Delivered(m, r, now)) == TaskKey(m) && TaskKey(Stamped(m, now, head)) == TaskKey(m)
    ensures TaskKey(Closed(m, now)) == TaskKey(m) && TaskKey(Marked(m)) == TaskKey(m)
    ensures Field(Delivered(m, r, now), "task") == Field(m, "task") && Field(Stamped(m, now, head), "task") == Field(m, "task")
    ensures Field(Closed(m, now), "task") == Field(m, "task") && Field(Marked(m), "task") == Field(m, "task")
  {}

  lemma {:induction false} CopiesFollows(rule: Rule, w: Swarm, t: Tree, n: string, m: Message, rs: seq<string>, quiet: nat, now: string)
    requires AllFollow(rule, t) && Follows(rule, n, m)
    ensures AllFollow(rule, WriteCopies(w, t, n, m, rs, quiet, now).0)
    decreases |rs|
  {
    if rs != [] && rs[0] in w.roles {
      StampsFollow(rule, n, m, rs[0], now, "");
      PutFollows(rule, t, New(rs[0]), n, Delivered(m, rs[0], now));
      if quiet > 0 { CopiesFollows(rule, w, WriteCopy(t, n, m, rs[0], now), n, m, rs[1..], quiet - 1, now); }
    }
  }

  /** The daemon moves `n` under its own name, or names do not matter. */
  ghost predicate KeepsName(rule: Rule, t: Tree, n: string) {
    rule.NamesCards? || (n !in At(t, Pending) && n !in At(t, Sent) && n !in At(t, Failed))
  }

  lemma MoveFollows(rule: Rule, t: Tree, n: string, to: Dir, now: string)
    requires n in At(t, Outbox) && AllFollow(rule, t) && KeepsName(rule, t, n) && (to == Pending || to == Sent)
    ensures AllFollow(rule, MoveOrFail(t, n, to, now)) && AllFollow(rule, FailFile(t, n, now))
  {
    var m := At(t, Outbox)[n];
    assert DirFollows(rule, t, Outbox);
    DropFollows(rule, t, Outbox, n);
    var t1 := Drop(t, Outbox, n);
    PutFollows(rule, t1, to, n, m);
    PutFollows(rule, t1, Failed, n, m);
    if rule.NamesCards? {
      PutFollows(rule, t1, to, now + "_" + n, m);
      PutFollows(rule, t1, Failed, now + "_" + n, m);
    }
  }

  lemma ProcessFollows(rule: Rule, w: Swarm, t: Tree, n: string, weather: Weather, now: string)
    requires n in At(t, Outbox) && AllFollow(rule, t) && KeepsName(rule, t, n)
    ensures AllFollow(rule, Processed(w, t, n, weather, now))
  {
    var m := At(t, Outbox)[n];
    assert DirFollows(rule, t, Outbox);
    var t1 := WriteCopies(w, t, n, m, RecipientList(m.headers), weather.quiet, now).0;
    CopiesFollows(rule, w, t, n, m, RecipientList(m.headers), weather.quiet, now);
    CopiesGoToNew(w, t, n, m, RecipientList(m.headers), weather.quiet, now, Outbox);
    CopiesGoToNew(w, t, n, m, RecipientList(m.headers), weather.quiet, now, Pending);
    CopiesGoToNew(w, t, n, m, RecipientList(m.headers), weather.quiet, now, Sent);
    CopiesGoToNew(w, t, n, m, RecipientList(m.headers), weather.quiet, now, Failed);
    MoveFollows(rule, t, n, Pending, now);
    MoveFollows(rule, t1, n, Sent, now);
  }

  lemma ApproveFollows(rule: Rule, t: Tree, n: string, marked: bool)
    requires n in At(t, Pending) && AllFollow(rule, t)
    ensures AllFollow(rule, Approved(t, n, marked))
  {
    var m, t1 := At(t, Pending)[n], Drop(t, Pending, n);
    assert DirFollows(rule, t, Pending);
    DropFollows(rule, t, Pending, n);
    StampsFollow(rule, n, m, "", "", "");
    PutFollows(rule, t1, Outbox, n, m);
    PutFollows(rule, t1, Outbox, n, Marked(m));
  }

  /** No sender uses the names of retries. */
  ghost predicate SparesRetryNames(rule: Rule) {
    rule.HasKeys? ==> forall id :: RetryName(id) !in rule.keys
  }

  lemma RetryNoteFollows(rule: Rule, n: string, m: Message, id: string)
    requires Follows(rule, n, m) && SparesRetryNames(rule) && TaskKey(m) == Some(id) && !IsBlank(id)
    ensures Follows(rule, RetryName(id), RetryNote(m, id))
  {
    RetryNoteKey(m, id);
  }

  lemma RetryFollows(rule: Rule, w: Swarm, t: Tree, n: string, done: Option<Place>)
    requires Enabled(w, t, Retry(n, done)) && AllFollow(rule, t) && SparesRetryNames(rule)
    ensures AllFollow(rule, Retried(w, t, n, done))
  {
    var m := At(t, Pending)[n];
    var t1, r := Drop(t, Pending, n), Sender(m);
    assert DirFollows(rule, t, Pending);
    DropFollows(rule, t, Pending, n);
    if done.Some? {
      var p := done.value;
      assert DirFollows(rule, t1, p.dir);
      DropFollows(rule, t1, p.dir, p.name);
      PutFollows(rule, Drop(t1, p.dir, p.name), InProcess(r), p.name, At(t1, p.dir)[p.name]);
    } else if TaskKey(m).Some? && !IsBlank(TaskKey(m).value) {
      RetryNoteFollows(rule, n, m, TaskKey(m).value);
      PutFollows(rule, t1, InProcess(r), RetryName(TaskKey(m).value), RetryNote(m, TaskKey(m).value));
    }
  }

  lemma DeleteFollows(rule: Rule, t: Tree, m: Message)
    requires AllFollow(rule, t)
    ensures AllFollow(rule, Deleted(t, m))
  {
    var t' := Deleted(t, m);
    forall d ensures DirFollows(rule, t', d) {
      DeletedAt(t, m, d);
      assert DirFollows(rule, t, d);
    }
  }

  lemma TaskStartedFollows(rule: Rule, t: Tree, r: string, n: string, now: string, head: string)
    requires AllFollow(rule, t) && n in At(t, New(r))
    ensures AllFollow(rule, TaskStarted(t, r, n, now, head))
  {
    var m := At(t, New(r))[n];
    assert DirFollows(rule, t, New(r));
    StampsFollow(rule, n, m, "", now, head);
    DropFollows(rule, t, New(r), n);
    PutFollows(rule, Drop(t, New(r), n), InProcess(r), n, Stamped(m, now, head));
  }

  lemma BatchStartedFollows(rule: Rule, t: Tree, r: string, b: string, names: set<string>, now: string, head: string)
    requires AllFollow(rule, t) && names <= At(t, New(r)).Keys
    ensures AllFollow(rule, BatchStarted(t, r, b, names, now, head))
  {
    var files := At(t, New(r));
    assert DirFollows(rule, t, New(r));
    forall n | n in names ensures Follows(rule, n, Stamped(files[n], now, head)) {
      StampsFollow(rule, n, files[n], "", now, head);
    }
    SetFollows(rule, t, New(r), files - names);
    SetFollows(rule, t[New(r) := files - names], InBatch(r, b), map n | n in names :: Stamped(files[n], now, head));
  }

  lemma TaskClosedFollows(rule: Rule, t: Tree, r: string, n: string, now: string)
    requires AllFollow(rule, t) && n in At(t, InProcess(r))
    ensures AllFollow(rule, TaskClosed(t, r, n, now))
  {
    var m := At(t, InProcess(r))[n];
    assert DirFollows(rule, t, InProcess(r));
    StampsFollow(rule, n, m, "", now, "");
    DropFollows(rule, t, InProcess(r), n);
    PutFollows(rule, Drop(t, InProcess(r), n), Completed(r), n, Closed(m, now));
  }

  lemma BatchClosedFollows(rule: Rule, t: Tree, r: string, b: string, now: string)
    requires AllFollow(rule, t)
    ensures AllFollow(rule, BatchClosed(t, r, b, now))
  {
    var d, files := InBatch(r, b), At(t, InBatch(r, b));
    assert DirFollows(rule, t, d);
    forall n | n in files ensures Follows(rule, n, Closed(files[n], now)) {
      StampsFollow(rule, n, files[n], "", now, "");
    }
    SetFollows(rule, t, d, files - files.Keys);
    var t1 := BatchPart(t, r, b, files.Keys, now);
    SetFollows(rule, t[d := files - files.Keys], DoneBatch(r, b), map n | n in files.Keys :: Closed(files[n], now));
    var t2 := t1 - {d};
    forall e ensures DirFollows(rule, t2, e) {
      assert DirFollows(rule, t1, e);
    }
  }

  lemma ReadyFollows(rule: Rule, t: Tree, r: string, b: string, now: string, head: string)
    requires AllFollow(rule, t)
    ensures AllFollow(rule, TaskReady(t, r, now, head).0) && AllFollow(rule, BatchReady(t, r, b, now, head).0)
  {
    var files := At(t, New(r));
    if files != map[] {
      var first := First(files.Keys);
      TaskStartedFollows(rule, t, r, first, now, head);
      BatchStartedFollows(rule, t, r, b, WithPriority(files, Priority(files[first])), now, head);
    }
  }

  lemma DoneFollows(rule: Rule, t: Tree, r: string, now: string)
    requires AllFollow(rule, t)
    ensures AllFollow(rule, TaskDone(t, r, now).0) && AllFollow(rule, BatchDone(t, r, now).0)
  {
    if At(t, InProcess(r)) != map[] { TaskClosedFollows(rule, t, r, First(At(t, InProcess(r)).Keys), now); }
    if Batches(t, r) != {} { BatchClosedFollows(rule, t, r, First(Batches(t, r)), now); }
  }

  /** The rule is kept by every step, as long as what is sent follows it. */
  lemma StepFollows(rule: Rule, w: Swarm, t: Tree, step: Step)
    requires AllFollow(rule, t) && SparesRetryNames(rule)
    requires step.Send? && Enabled(w, t, step) ==> Follows(rule, step.name, step.message)
    requires step.Process? ==> KeepsName(rule, t, step.name)
    ensures AllFollow(rule, Next(w, t, step))
  {
    if Enabled(w, t, step) {
      match step
      case Send(_, n, m) => PutFollows(rule, t, Outbox, n, m);
      case Process(n, weather, now) => ProcessFollows(rule, w, t, n, weather, now);
      case Approve(n, marked) => ApproveFollows(rule, t, n, marked);
      case Retry(n, done) => RetryFollows(rule, w, t, n, done);
      case Delete(n) => DeleteFollows(rule, t, At(t, Pending)[n]);
      case Ready(r, b, now, head) => ReadyFollows(rule, t, r, b, now, head);
      case Done(r, now) => DoneFollows(rule, t, r, now);
    }
  }
}
