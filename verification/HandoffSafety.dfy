/**
  When a role that receives one task at a time ever has two in process: the
  exact condition over all runs, a sending discipline that keeps every run
  safe, and a run without it that is not.
 */
module HandoffSafety {
  import opened Options
  import opened HandoffText
  import opened HandoffProtocol

  /** The role has at most one task in process, and no batch. */
  ghost predicate Safe(t: Tree, r: string) {
    |At(t, InProcess(r))| <= 1 && Batches(t, r) == {}
  }

  // ------------------------------------------------------- what each step touches

  /** The role's current work is as before. */
  ghost predicate SameWork(t: Tree, t': Tree, r: string) {
    At(t', InProcess(r)) == At(t, InProcess(r)) && Batches(t', r) == Batches(t, r)
  }

  lemma SameBatches(t: Tree, t': Tree, r: string)
    requires forall b :: InBatch(r, b) in t <==> InBatch(r, b) in t'
    ensures Batches(t, r) == Batches(t', r)
  {
    forall b ensures b in Batches(t, r) <==> b in Batches(t', r) {
      assert b in Batches(t, r) <==> InBatch(r, b) in t;
      assert b in Batches(t', r) <==> InBatch(r, b) in t';
    }
  }

  lemma MovesLeave(t: Tree, n: string, to: Dir, now: string, d: Dir)
    requires n in At(t, Outbox) && d != Outbox && d != to && d != Failed
    ensures Same(t, MoveOrFail(t, n, to, now), d) && Same(t, FailFile(t, n, now), d)
  {}

  /** The daemon leaves alone what roles work on or have completed. */
  lemma ProcessLeaves(w: Swarm, t: Tree, n: string, weather: Weather, now: string, d: Dir)
    requires n in At(t, Outbox) && !d.New? && d != Outbox && d != Pending && d != Sent && d != Failed
    ensures Same(t, Processed(w, t, n, weather, now), d)
  {
    var m := At(t, Outbox)[n];
    var rs := RecipientList(m.headers);
    if ShouldHold(w, m) || rs == [] || weather.boardFails {
      MovesLeave(t, n, Pending, now, d);
    } else {
      CopiesGoToNew(w, t, n, m, rs, weather.quiet, now, d);
      CopiesGoToNew(w, t, n, m, rs, weather.quiet, now, Outbox);
      MovesLeave(WriteCopies(w, t, n, m, rs, weather.quiet, now).0, n, Sent, now, d);
    }
  }

  lemma ProcessKeepsWork(w: Swarm, t: Tree, n: string, weather: Weather, now: string, r: string)
    requires n in At(t, Outbox)
    ensures SameWork(t, Processed(w, t, n, weather, now), r)
  {
    var t' := Processed(w, t, n, weather, now);
    ProcessLeaves(w, t, n, weather, now, InProcess(r));
    forall b ensures InBatch(r, b) in t <==> InBatch(r, b) in t' { ProcessLeaves(w, t, n, weather, now, InBatch(r, b)); }
    SameBatches(t, t', r);
  }

  /** Where a retry puts the work it gives back, if it gives any. */
  ghost function Destination(t: Tree, m: Message, done: Option<Place>): Option<string> {
    if done.Some? then Some(done.value.name)
    else if TaskKey(m).Some? && !IsBlank(TaskKey(m).value) then Some(RetryName(TaskKey(m).value))
    else None
  }

  /**
    The retry adds no second task: the sender is working on the retried task
    already, or the file given back replaces all that is in process.
   */
  ghost predicate Fits(w: Swarm, t: Tree, step: Step, r: string) {
    step.Retry? && Enabled(w, t, step) && Sender(At(t, Pending)[step.name]) == r ==>
      var m := At(t, Pending)[step.name];
      var to := Destination(t, m, step.done);
      || WorkingOn(t, r, m)
      || to.None?
      || At(t, InProcess(r)).Keys <= {to.value}
  }

  lemma OneKey(files: Files, k: string, m: Message)
    requires |files| <= 1
    ensures |files[k := m]| <= 1 <==> files.Keys <= {k}
  {
    assert |files[k := m].Keys| == |files[k := m]| && |files.Keys| == |files|;
    if files.Keys <= {k} {
      assert files[k := m].Keys == {k};
    } else {
      var x :| x in files && x != k;
      assert {x, k} <= files[k := m].Keys;
      if |files[k := m]| <= 1 { TwoAreMore(files[k := m].Keys, x, k); }
    }
  }

  lemma TwoAreMore(names: set<string>, x: string, y: string)
    requires x in names && y in names && x != y
    ensures |names| >= 2
  {
    assert |names - {x}| == |names| - 1 && y in names - {x};
  }

  /** A retry for another role, or one whose work is in process already, changes no current work of `r`. */
  lemma RetryElsewhere(w: Swarm, t: Tree, n: string, done: Option<Place>, r: string)
    requires Enabled(w, t, Retry(n, done))
    requires r in w.roles && (Sender(At(t, Pending)[n]) == r ==> WorkingOn(t, r, At(t, Pending)[n]))
    ensures SameWork(t, Retried(w, t, n, done), r)
  {
    var m := At(t, Pending)[n];
    var t1 := Drop(t, Pending, n);
    if Sender(m) == r {
      var d, k :| IsCurrent(d, r) && HasTask(t, d, k, m);
      assert HasTask(t1, d, k, m);
      assert WorkingOn(t1, r, m);
    }
    SameBatches(t, Retried(w, t, n, done), r);
  }

  /** A retry whose work is nowhere in process puts it at its destination, beside what is there. */
  lemma RetryLands(w: Swarm, t: Tree, n: string, done: Option<Place>, r: string)
    requires Enabled(w, t, Retry(n, done)) && r in w.roles && Sender(At(t, Pending)[n]) == r
    requires !WorkingOn(t, r, At(t, Pending)[n])
    ensures Batches(Retried(w, t, n, done), r) == Batches(t, r)
    ensures
      var m := At(t, Pending)[n];
      var files := At(Retried(w, t, n, done), InProcess(r));
      match Destination(t, m, done)
      case None => files == At(t, InProcess(r))
      case Some(k) => k in files && files == At(t, InProcess(r))[k := files[k]] && SameTask(files[k], m)
  {
    var m := At(t, Pending)[n];
    var t1 := Drop(t, Pending, n);
    forall d, k | IsCurrent(d, r) ensures !HasTask(t1, d, k, m) {
      assert HasTask(t1, d, k, m) == HasTask(t, d, k, m);
    }
    assert !WorkingOn(t1, r, m);
    SameBatches(t, Retried(w, t, n, done), r);
  }

  lemma SafeRetry(w: Swarm, t: Tree, n: string, done: Option<Place>, r: string)
    requires Enabled(w, t, Retry(n, done)) && r in w.roles && Safe(t, r)
    ensures Safe(Retried(w, t, n, done), r) <==> Fits(w, t, Retry(n, done), r)
  {
    var m := At(t, Pending)[n];
    if Sender(m) != r || WorkingOn(t, r, m) {
      RetryElsewhere(w, t, n, done, r);
    } else {
      RetryLands(w, t, n, done, r);
      var to := Destination(t, m, done);
      if to.Some? { OneKey(At(t, InProcess(r)), to.value, At(Retried(w, t, n, done), InProcess(r))[to.value]); }
    }
  }

  /** Taking and completing work leave the directories of other roles, and the queues, as they are. */
  lemma HelpersLeave(w: Swarm, t: Tree, step: Step, d: Dir)
    requires (step.Ready? || step.Done?) && Enabled(w, t, step)
    requires d == Outbox || d == Pending || ((d.InProcess? || d.InBatch? || d.DoneBatch?) && d.role != step.role)
    ensures Same(t, After(w, t, step), d)
  {
    match step
    case Ready(r, b, now, head) =>
      TaskReadyLeaves(t, r, now, head, d);
      BatchReadyLeaves(t, r, b, now, head, d);
    case Done(r, now) =>
      TaskDoneLeaves(t, r, now, d);
      BatchDoneLeaves(t, r, now, d);
  }

  lemma OthersHelp(w: Swarm, t: Tree, step: Step, r: string)
    requires (step.Ready? || step.Done?) && Enabled(w, t, step) && step.role != r
    ensures SameWork(t, After(w, t, step), r)
  {
    var t' := After(w, t, step);
    HelpersLeave(w, t, step, InProcess(r));
    forall b ensures InBatch(r, b) in t <==> InBatch(r, b) in t' { HelpersLeave(w, t, step, InBatch(r, b)); }
    SameBatches(t, t', r);
  }

  lemma OwnReady(t: Tree, r: string, now: string, head: string)
    requires Safe(t, r)
    ensures Safe(TaskReady(t, r, now, head).0, r)
  {
    var t' := TaskReady(t, r, now, head).0;
    SameBatches(t, t', r);
    if t' != t { OneKey(map[], First(At(t, New(r)).Keys), At(t', InProcess(r))[First(At(t, New(r)).Keys)]); }
  }

  lemma OwnDone(t: Tree, r: string, now: string)
    requires Safe(t, r)
    ensures Safe(TaskDone(t, r, now).0, r)
  {
    SameBatches(t, TaskDone(t, r, now).0, r);
    var files := At(t, InProcess(r));
    assert forall n :: |(files - {n}).Keys| <= |files.Keys|;
  }

  lemma FewerFiles(files: Files, m: Message)
    ensures |WithoutTask(files, m)| <= |files|
  {
    SubsetSize(WithoutTask(files, m).Keys, files.Keys);
  }

  lemma SubsetSize(a: set<string>, b: set<string>)
    requires a <= b
    ensures |a| <= |b|
  {
    assert b == a + (b - a);
  }

  lemma DeleteKeepsBatches(t: Tree, m: Message, r: string)
    ensures Batches(Deleted(t, m), r) == Batches(t, r)
  {
    SameBatches(t, Deleted(t, m), r);
  }

  lemma OwnDelete(t: Tree, m: Message, r: string)
    requires Safe(t, r)
    ensures Safe(Deleted(t, m), r)
  {
    DeletedAt(t, m, InProcess(r));
    FewerFiles(At(t, InProcess(r)), m);
    DeleteKeepsBatches(t, m, r);
  }

  lemma QueueKeepsWork(w: Swarm, t: Tree, step: Step, r: string)
    requires step.Send? || step.Approve?
    ensures SameWork(t, Next(w, t, step), r)
  {
    SameBatches(t, Next(w, t, step), r);
  }

  /** One step leaves a safe role safe exactly when it is not a retry that fails to fit. */
  lemma StepIsSafeIff(w: Swarm, t: Tree, step: Step, r: string)
    requires r in w.roles && r !in w.batchRoles && Safe(t, r)
    ensures Safe(Next(w, t, step), r) <==> Fits(w, t, step, r)
  {
    if Enabled(w, t, step) {
      match step
      case Process(n, weather, now) => ProcessKeepsWork(w, t, n, weather, now, r);
      case Retry(n, done) => SafeRetry(w, t, n, done, r);
      case Delete(n) => OwnDelete(t, At(t, Pending)[n], r);
      case Ready(r', b, now, head) => if r' == r { OwnReady(t, r, now, head); } else { OthersHelp(w, t, step, r); }
      case Done(r', now) => if r' == r { OwnDone(t, r, now); } else { OthersHelp(w, t, step, r); }
      case _ => QueueKeepsWork(w, t, step, r);
    }
  }

  ghost predicate AlwaysSafe(w: Swarm, run: Run, r: string) {
    Safe(Last(w, run), r) && (run.More? ==> AlwaysSafe(w, run.run, r))
  }

  ghost predicate RetriesFit(w: Swarm, run: Run, r: string) {
    run.More? ==> RetriesFit(w, run.run, r) && Fits(w, Last(w, run.run), run.step, r)
  }

  /** A role that takes single tasks has at most one in process throughout a run, exactly when every retry fits. */
  lemma {:induction false} RunIsSafeIff(w: Swarm, run: Run, r: string)
    requires r in w.roles && r !in w.batchRoles
    ensures AlwaysSafe(w, run, r) <==> RetriesFit(w, run, r)
  {
    if run.More? {
      RunIsSafeIff(w, run.run, r);
      if AlwaysSafe(w, run.run, r) { StepIsSafeIff(w, Last(w, run.run), run.step, r); }
    } else {
      assert Batches(map[], r) == {};
    }
  }

  // ------------------------------------------------------------- one work at a time

  /** The git handoffs of the role that are still queued or held. */
  ghost function Outbound(t: Tree, r: string): set<Message> {
    set m | m in At(t, Outbox).Values + At(t, Pending).Values && GitFrom(m, r)
  }

  ghost predicate AllAlike(out: set<Message>) {
    forall a, b :: a in out && b in out ==> Wanted(a) == Wanted(b)
  }

  ghost predicate AllFor(files: Files, a: Message) {
    forall k :: k in files ==> SameTask(files[k], a)
  }

  /** All of them are for one work, and so is all that the role has in process. */
  ghost predicate OneWork(t: Tree, r: string) {
    AllAlike(Outbound(t, r)) && forall a :: a in Outbound(t, r) ==> AllFor(At(t, InProcess(r)), a)
  }

  /** A handoff for the work that is queued, held or in process already. */
  ghost predicate StaysOn(t: Tree, r: string, m: Message) {
    (forall a :: a in Outbound(t, r) ==> Wanted(a) == Wanted(m)) && AllFor(At(t, InProcess(r)), m)
  }

  /** The role sends git handoffs for one work at a time. */
  ghost predicate OneWorkAtATime(w: Swarm, run: Run, r: string) {
    run.More? ==>
      && OneWorkAtATime(w, run.run, r)
      && (run.step.Send? && Enabled(w, Last(w, run.run), run.step) && GitFrom(run.step.message, r) ==>
          StaysOn(Last(w, run.run), r, run.step.message))
  }

  ghost predicate OnlyGitIsHeld(t: Tree) {
    forall n :: n in At(t, Pending) ==> Field(At(t, Pending)[n], "type") == Some("git_handoff")
  }

  lemma FewerOutbound(t: Tree, t': Tree, r: string)
    requires OneWork(t, r) && Outbound(t', r) <= Outbound(t, r)
    requires At(t', InProcess(r)) == At(t, InProcess(r))
    ensures OneWork(t', r)
  {}

  lemma OneMoreOutbound(t: Tree, t': Tree, r: string, m: Message)
    requires OneWork(t, r) && Outbound(t', r) <= Outbound(t, r) + {m} && StaysOn(t, r, m)
    requires At(t', InProcess(r)) == At(t, InProcess(r))
    ensures OneWork(t', r)
  {}

  lemma MoveOutbound(t: Tree, n: string, to: Dir, now: string)
    requires n in At(t, Outbox) && (to == Pending || to == Sent || to == Failed)
    ensures
      var t' := MoveOrFail(t, n, to, now);
      && At(t', Outbox).Values <= At(t, Outbox).Values
      && At(t', Pending).Values <= At(t, Pending).Values + if to == Pending then {At(t, Outbox)[n]} else {}
  {}

  lemma FailOutbound(t: Tree, n: string, now: string)
    requires n in At(t, Outbox)
    ensures At(FailFile(t, n, now), Outbox).Values <= At(t, Outbox).Values && At(FailFile(t, n, now), Pending) == At(t, Pending)
  {}

  lemma ProcessQueues(w: Swarm, t: Tree, n: string, weather: Weather, now: string)
    requires n in At(t, Outbox)
    ensures
      var (t', m) := (Processed(w, t, n, weather, now), At(t, Outbox)[n]);
      && At(t', Outbox).Values <= At(t, Outbox).Values
      && At(t', Pending).Values <= At(t, Pending).Values + if ShouldHold(w, m) then {m} else {}
  {
    var m := At(t, Outbox)[n];
    if ShouldHold(w, m) {
      MoveOutbound(t, n, Pending, now);
    } else if RecipientList(m.headers) == [] || weather.boardFails {
      FailOutbound(t, n, now);
    } else {
      var t1 := WriteCopies(w, t, n, m, RecipientList(m.headers), weather.quiet, now).0;
      CopiesGoToNew(w, t, n, m, RecipientList(m.headers), weather.quiet, now, Outbox);
      CopiesGoToNew(w, t, n, m, RecipientList(m.headers), weather.quiet, now, Pending);
      MoveOutbound(t1, n, Sent, now);
      FailOutbound(t1, n, now);
    }
  }

  lemma ProcessOutbound(w: Swarm, t: Tree, n: string, weather: Weather, now: string, r: string)
    requires n in At(t, Outbox)
    ensures Outbound(Processed(w, t, n, weather, now), r) <= Outbound(t, r)
  {
    ProcessQueues(w, t, n, weather, now);
  }

  lemma FewerHeld(t: Tree, t': Tree, n: string)
    requires OnlyGitIsHeld(t) && At(t', Pending) == At(t, Pending) - {n}
    ensures OnlyGitIsHeld(t')
  {}

  /** Only git handoffs are ever held. */
  lemma StillOnlyGit(w: Swarm, t: Tree, step: Step)
    requires OnlyGitIsHeld(t)
    ensures OnlyGitIsHeld(Next(w, t, step))
  {
    if Enabled(w, t, step) {
      var t' := After(w, t, step);
      match step
      case Send(_, _, _) => assert At(t', Pending) == At(t, Pending);
      case Process(n, weather, now) =>
        ProcessQueues(w, t, n, weather, now);
        forall k | k in At(t', Pending) ensures Field(At(t', Pending)[k], "type") == Some("git_handoff") {
          var x := At(t', Pending)[k];
          assert x in At(t', Pending).Values;
          if x in At(t, Pending).Values {
            var j :| j in At(t, Pending) && At(t, Pending)[j] == x;
          } else {
            assert ShouldHold(w, x);
          }
        }
      case Approve(n, _) => FewerHeld(t, t', n);
      case Delete(n) => DeletedAt(t, At(t, Pending)[n], Pending);
      case Retry(n, _) => FewerHeld(t, t', n);
      case _ => HelpersLeave(w, t, step, Pending);
    }
  }

  lemma ApproveKeeps(t: Tree, n: string, marked: bool, r: string)
    requires n in At(t, Pending) && OneWork(t, r)
    ensures OneWork(Approved(t, n, marked), r)
  {
    var t' := Approved(t, n, marked);
    var m, m' := At(t, Pending)[n], At(t', Outbox)[n];
    assert Wanted(m') == Wanted(m) && GitFrom(m', r) == GitFrom(m, r);
    assert m in At(t, Pending).Values;
    if GitFrom(m, r) {
      assert m in Outbound(t, r);
      OneMoreOutbound(t, t', r, m');
    } else {
      FewerOutbound(t, t', r);
    }
  }

  lemma SendKeeps(t: Tree, n: string, m: Message, r: string)
    requires OneWork(t, r) && (GitFrom(m, r) ==> StaysOn(t, r, m))
    ensures OneWork(Put(t, Outbox, n, m), r)
  {
    if GitFrom(m, r) { OneMoreOutbound(t, Put(t, Outbox, n, m), r, m); } else { FewerOutbound(t, Put(t, Outbox, n, m), r); }
  }

  /** A held handoff of a role that keeps to one work finds that work in process, or nothing. */
  lemma HeldFits(t: Tree, n: string, r: string)
    requires n in At(t, Pending) && OneWork(t, r) && OnlyGitIsHeld(t) && !IsBlank(r) && Sender(At(t, Pending)[n]) == r
    ensures At(t, Pending)[n] in Outbound(t, r)
    ensures WorkingOn(t, r, At(t, Pending)[n]) || At(t, InProcess(r)) == map[]
  {
    var m := At(t, Pending)[n];
    assert m in At(t, Pending).Values && GitFrom(m, r);
    if At(t, InProcess(r)) != map[] {
      var k :| k in At(t, InProcess(r));
      assert AllFor(At(t, InProcess(r)), m);
      assert HasTask(t, InProcess(r), k, m);
    }
  }

  lemma RetryQueues(w: Swarm, t: Tree, n: string, done: Option<Place>)
    requires Enabled(w, t, Retry(n, done))
    ensures
      var t' := Retried(w, t, n, done);
      At(t', Outbox) == At(t, Outbox) && At(t', Pending) == At(t, Pending) - {n}
  {}

  lemma RetryKeeps(w: Swarm, t: Tree, n: string, done: Option<Place>, r: string)
    requires Enabled(w, t, Retry(n, done)) && OneWork(t, r) && OnlyGitIsHeld(t) && !IsBlank(r) && r in w.roles
    ensures OneWork(Retried(w, t, n, done), r)
  {
    var t', m := Retried(w, t, n, done), At(t, Pending)[n];
    RetryQueues(w, t, n, done);
    assert Outbound(t', r) <= Outbound(t, r);
    if Sender(m) != r || WorkingOn(t, r, m) {
      RetryElsewhere(w, t, n, done, r);
      FewerOutbound(t, t', r);
    } else {
      HeldFits(t, n, r);
      RetryLands(w, t, n, done, r);
      assert AllFor(At(t', InProcess(r)), m);
      forall a | a in Outbound(t', r) ensures AllFor(At(t', InProcess(r)), a) { assert Wanted(a) == Wanted(m); }
    }
  }

  lemma DeleteKeeps(t: Tree, m: Message, r: string)
    requires OneWork(t, r)
    ensures OneWork(Deleted(t, m), r)
  {
    var t' := Deleted(t, m);
    DeletedAt(t, m, Outbox);
    DeletedAt(t, m, Pending);
    DeletedAt(t, m, InProcess(r));
    assert Outbound(t', r) <= Outbound(t, r);
    forall a | a in Outbound(t', r) ensures AllFor(At(t', InProcess(r)), a) {
      assert AllFor(At(t, InProcess(r)), a);
    }
  }

  /** The guard: work is taken only with nothing outbound. */
  lemma OwnReadyKeeps(t: Tree, r: string, now: string, head: string)
    requires !IsBlank(r) && OneWork(t, r)
    ensures OneWork(TaskReady(t, r, now, head).0, r)
  {
    var t' := TaskReady(t, r, now, head).0;
    TaskReadyLeaves(t, r, now, head, Outbox);
    TaskReadyLeaves(t, r, now, head, Pending);
    assert Outbound(t', r) == Outbound(t, r);
    if Outbound(t, r) != {} {
      var a :| a in Outbound(t, r);
      assert Active(t, r);
    }
  }

  /** Completing work takes nothing in. */
  lemma OwnDoneKeeps(t: Tree, r: string, now: string)
    requires OneWork(t, r)
    ensures OneWork(TaskDone(t, r, now).0, r)
  {
    var t' := TaskDone(t, r, now).0;
    TaskDoneLeaves(t, r, now, Outbox);
    TaskDoneLeaves(t, r, now, Pending);
    assert Outbound(t', r) == Outbound(t, r);
    forall a | a in Outbound(t, r) ensures AllFor(At(t', InProcess(r)), a) {
      assert AllFor(At(t, InProcess(r)), a);
    }
  }

  lemma HelpersKeep(w: Swarm, t: Tree, step: Step, r: string)
    requires (step.Ready? || step.Done?) && Enabled(w, t, step)
    requires r !in w.batchRoles && !IsBlank(r) && OneWork(t, r)
    ensures OneWork(After(w, t, step), r)
  {
    if step.role == r {
      if step.Ready? { OwnReadyKeeps(t, r, step.now, step.head); } else { OwnDoneKeeps(t, r, step.now); }
    } else {
      HelpersLeave(w, t, step, Outbox);
      HelpersLeave(w, t, step, Pending);
      OthersHelp(w, t, step, r);
      FewerOutbound(t, After(w, t, step), r);
    }
  }

  /** On a role that keeps to one work, every retry fits. */
  lemma KeptRetryFits(w: Swarm, t: Tree, step: Step, r: string)
    requires OneWork(t, r) && OnlyGitIsHeld(t) && !IsBlank(r)
    ensures Fits(w, t, step, r)
  {
    if step.Retry? && Enabled(w, t, step) && Sender(At(t, Pending)[step.name]) == r { HeldFits(t, step.name, r); }
  }

  lemma StepKeeps(w: Swarm, t: Tree, step: Step, r: string)
    requires r in w.roles && r !in w.batchRoles && !IsBlank(r) && OneWork(t, r) && OnlyGitIsHeld(t)
    requires step.Send? && Enabled(w, t, step) && GitFrom(step.message, r) ==> StaysOn(t, r, step.message)
    ensures OneWork(Next(w, t, step), r)
  {
    if Enabled(w, t, step) {
      match step
      case Send(_, n, m) => SendKeeps(t, n, m, r);
      case Process(n, weather, now) =>
        ProcessOutbound(w, t, n, weather, now, r);
        ProcessKeepsWork(w, t, n, weather, now, r);
        FewerOutbound(t, Processed(w, t, n, weather, now), r);
      case Approve(n, marked) => ApproveKeeps(t, n, marked, r);
      case Retry(n, done) => RetryKeeps(w, t, n, done, r);
      case Delete(n) => DeleteKeeps(t, At(t, Pending)[n], r);
      case _ => HelpersKeep(w, t, step, r);
    }
  }

  /** A role that sends for one work at a time never has two tasks in process, whatever else happens. */
  lemma {:induction false} OneWorkIsSafe(w: Swarm, run: Run, r: string)
    requires r in w.roles && r !in w.batchRoles && !IsBlank(r) && OneWorkAtATime(w, run, r)
    ensures AlwaysSafe(w, run, r) && OneWork(Last(w, run), r) && OnlyGitIsHeld(Last(w, run))
  {
    if run.More? {
      var t := Last(w, run.run);
      OneWorkIsSafe(w, run.run, r);
      StillOnlyGit(w, t, run.step);
      StepKeeps(w, t, run.step, r);
      KeptRetryFits(w, t, run.step, r);
      StepIsSafeIff(w, t, run.step, r);
    } else {
      assert Batches(map[], r) == {};
    }
  }

  /** After a retry that fits, the role's next task is the retried one. */
  lemma RetryIsResumed(w: Swarm, t: Tree, n: string, done: Option<Place>, r: string, now: string, head: string)
    requires Enabled(w, t, Retry(n, done)) && r in w.roles && Sender(At(t, Pending)[n]) == r
    requires Safe(t, r) && Fits(w, t, Retry(n, done), r)
    requires TaskKey(At(t, Pending)[n]).Some? && !IsBlank(TaskKey(At(t, Pending)[n]).value)
    ensures
      var t' := Retried(w, t, n, done);
      && n !in At(t', Pending)
      && TaskReady(t', r, now, head) == (t', Resumed)
      && forall k :: k in At(t', InProcess(r)) ==> SameTask(At(t', InProcess(r))[k], At(t, Pending)[n])
  {
    var m := At(t, Pending)[n];
    SafeRetry(w, t, n, done, r);
    if WorkingOn(t, r, m) {
      RetryElsewhere(w, t, n, done, r);
      OnlyCurrent(t, r, m);
    } else {
      RetryLands(w, t, n, done, r);
      var files := At(Retried(w, t, n, done), InProcess(r));
      var to := Destination(t, m, done).value;
      assert files.Keys == {to};
      assert |files.Keys| == |files|;
    }
  }

  /** A safe role working on something has just that in process. */
  lemma OnlyCurrent(t: Tree, r: string, m: Message)
    requires Safe(t, r) && WorkingOn(t, r, m)
    ensures |At(t, InProcess(r))| == 1 && forall k :: k in At(t, InProcess(r)) ==> SameTask(At(t, InProcess(r))[k], m)
  {
    assert forall b :: InBatch(r, b) in t ==> b in Batches(t, r);
    var d, k :| IsCurrent(d, r) && HasTask(t, d, k, m);
    assert d == InProcess(r);
    var files := At(t, InProcess(r));
    assert k in files.Keys && |files.Keys| == |files|;
    forall j | j in files ensures j == k {
      if j != k { TwoAreMore(files.Keys, j, k); }
    }
    assert files.Keys == {k};
  }
}
