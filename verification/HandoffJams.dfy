/**
  When a role is stuck on its current work, and what frees it. Its completing
  helper refuses, and its taking helper takes nothing: a role that receives
  single tasks is jammed by a second one in process; a role that receives
  batches by a single file, by a batch whose files are gone, by one whose name
  is taken among the completed ones, and by two batches.
 */
module HandoffJams {
  import opened Options
  import opened Lexicographic
  import opened HandoffText
  import opened HandoffProtocol
  import opened HandoffSafety

  /** This batch can be completed: it has files, and its name is free. */
  ghost predicate CanClose(t: Tree, r: string, b: string) {
    At(t, InBatch(r, b)) != map[] && DoneBatch(r, b) !in t
  }

  /** Batches that no helper can complete. */
  ghost predicate BatchTrouble(t: Tree, r: string) {
    |Batches(t, r)| > 1 || exists b :: b in Batches(t, r) && !CanClose(t, r, b)
  }

  ghost predicate Jammed(w: Swarm, t: Tree, r: string) {
    if r in w.batchRoles then At(t, InProcess(r)) != map[] || BatchTrouble(t, r)
    else |At(t, InProcess(r))| > 1 || Batches(t, r) != {}
  }

  /** The outcome of the completing helper of the role's mode. */
  ghost function DoneOutcome(w: Swarm, t: Tree, r: string, now: string): Outcome {
    if r in w.batchRoles then BatchDone(t, r, now).1 else TaskDone(t, r, now).1
  }

  /** Being jammed is having the completing helper refuse. */
  lemma JammedIff(w: Swarm, t: Tree, r: string, now: string)
    ensures Jammed(w, t, r) <==> DoneOutcome(w, t, r, now) == Refused
  {
    var batches := Batches(t, r);
    if batches != {} && |batches| <= 1 {
      OnlyOne(batches, First(batches));
      assert BatchTrouble(t, r) <==> !CanClose(t, r, First(batches));
    }
  }

  /** Then neither of the role's own helpers changes anything. */
  lemma JammedIsIdle(w: Swarm, t: Tree, step: Step, r: string)
    requires Jammed(w, t, r) && (step.Ready? || step.Done?) && step.role == r && Enabled(w, t, step)
    ensures After(w, t, step) == t
  {
    if step.Done? {
      JammedIff(w, t, r, step.now);
    } else if r in w.batchRoles && At(t, InProcess(r)) == map[] {
      assert Batches(t, r) != {};
    }
  }

  // ------------------------------------------------------- what each step touches

  /** The role's batches, and the names taken among its completed ones, are as before. */
  ghost predicate SameBatchDirs(t: Tree, t': Tree, r: string) {
    forall b :: Same(t, t', InBatch(r, b)) && (DoneBatch(r, b) in t' <==> DoneBatch(r, b) in t)
  }

  lemma SameTrouble(t: Tree, t': Tree, r: string)
    requires SameBatchDirs(t, t', r)
    ensures Batches(t', r) == Batches(t, r) && (BatchTrouble(t', r) <==> BatchTrouble(t, r))
  {
    SameBatches(t, t', r);
    forall b ensures CanClose(t', r, b) <==> CanClose(t, r, b) {
      assert Same(t, t', InBatch(r, b));
    }
  }

  lemma ProcessKeepsBatchDirs(w: Swarm, t: Tree, n: string, weather: Weather, now: string, r: string)
    requires n in At(t, Outbox)
    ensures SameBatchDirs(t, Processed(w, t, n, weather, now), r)
  {
    var t' := Processed(w, t, n, weather, now);
    forall b ensures Same(t, t', InBatch(r, b)) && (DoneBatch(r, b) in t' <==> DoneBatch(r, b) in t) {
      ProcessLeaves(w, t, n, weather, now, InBatch(r, b));
      ProcessLeaves(w, t, n, weather, now, DoneBatch(r, b));
    }
  }

  lemma QueueKeepsBatchDirs(w: Swarm, t: Tree, step: Step, r: string)
    requires step.Send? || step.Approve?
    ensures SameBatchDirs(t, Next(w, t, step), r)
  {}

  lemma RetryKeepsBatchDirs(w: Swarm, t: Tree, n: string, done: Option<Place>, r: string)
    requires Enabled(w, t, Retry(n, done))
    ensures SameBatchDirs(t, Retried(w, t, n, done), r)
  {}

  lemma OthersKeepBatchDirs(w: Swarm, t: Tree, step: Step, r: string)
    requires (step.Ready? || step.Done?) && Enabled(w, t, step) && step.role != r
    ensures SameBatchDirs(t, After(w, t, step), r)
  {
    var t' := After(w, t, step);
    forall b ensures Same(t, t', InBatch(r, b)) && (DoneBatch(r, b) in t' <==> DoneBatch(r, b) in t) {
      HelpersLeave(w, t, step, InBatch(r, b));
      HelpersLeave(w, t, step, DoneBatch(r, b));
    }
  }

  /** No step but a deletion and the role's own helpers touches its batches. */
  lemma BatchDirsKept(w: Swarm, t: Tree, step: Step, r: string)
    requires !step.Delete? && !((step.Ready? || step.Done?) && step.role == r)
    ensures SameBatchDirs(t, Next(w, t, step), r)
  {
    if Enabled(w, t, step) {
      match step
      case Process(n, weather, now) => ProcessKeepsBatchDirs(w, t, n, weather, now, r);
      case Retry(n, done) => RetryKeepsBatchDirs(w, t, n, done, r);
      case Ready(_, _, _, _) => OthersKeepBatchDirs(w, t, step, r);
      case Done(_, _) => OthersKeepBatchDirs(w, t, step, r);
      case _ => QueueKeepsBatchDirs(w, t, step, r);
    }
  }

  // ------------------------------------------------------ what jams, and what frees

  /** A retry that gives a batch role its work back, or a role for single tasks a second one. */
  ghost predicate RetryJams(w: Swarm, t: Tree, step: Step, r: string) {
    step.Retry? && Enabled(w, t, step) && Sender(At(t, Pending)[step.name]) == r &&
      var m := At(t, Pending)[step.name];
      var to := Destination(t, m, step.done);
      !WorkingOn(t, r, m) && to.Some? && (r in w.batchRoles || !(At(t, InProcess(r)).Keys <= {to.value}))
  }

  /** What stays of the role's current work without the task of `m` is a jam. */
  ghost predicate JamRemains(w: Swarm, t: Tree, m: Message, r: string) {
    if r in w.batchRoles then
      || WithoutTask(At(t, InProcess(r)), m) != map[] || |Batches(t, r)| > 1
      || exists b :: b in Batches(t, r) && (WithoutTask(At(t, InBatch(r, b)), m) == map[] || DoneBatch(r, b) in t)
    else |WithoutTask(At(t, InProcess(r)), m)| > 1 || Batches(t, r) != {}
  }

  /** A batch taken under a name that a completed one has. */
  ghost predicate TakesUsedName(w: Swarm, t: Tree, step: Step, r: string) {
    && step.Ready? && step.role == r && r in w.batchRoles && Enabled(w, t, step)
    && BatchReady(t, r, step.batch, step.now, step.head).1 == Started && DoneBatch(r, step.batch) in t
  }

  /** The steps that jam a role that is not: a retry, a deletion that empties its batch, and a used name. */
  ghost predicate Jams(w: Swarm, t: Tree, step: Step, r: string) {
    || RetryJams(w, t, step, r)
    || (step.Delete? && Enabled(w, t, step) && JamRemains(w, t, At(t, Pending)[step.name], r))
    || TakesUsedName(w, t, step, r)
  }

  /** The step that frees a jammed role: a deletion that leaves no jam. */
  ghost predicate Frees(w: Swarm, t: Tree, step: Step, r: string) {
    step.Delete? && Enabled(w, t, step) && !JamRemains(w, t, At(t, Pending)[step.name], r)
  }

  lemma DeleteJamsIff(w: Swarm, t: Tree, m: Message, r: string)
    ensures Jammed(w, Deleted(t, m), r) <==> JamRemains(w, t, m, r)
  {
    var t' := Deleted(t, m);
    DeletedAt(t, m, InProcess(r));
    DeleteKeepsBatches(t, m, r);
    forall b ensures CanClose(t', r, b) <==> WithoutTask(At(t, InBatch(r, b)), m) != map[] && DoneBatch(r, b) !in t {
      DeletedAt(t, m, InBatch(r, b));
      DeletedAt(t, m, DoneBatch(r, b));
    }
  }

  lemma CurrentWorkGrows(files: Files, k: string, m: Message)
    ensures |files[k := m]| >= |files|
  {
    SubsetSize(files.Keys, files[k := m].Keys);
  }

  lemma RetryJamsIff(w: Swarm, t: Tree, n: string, done: Option<Place>, r: string)
    requires Enabled(w, t, Retry(n, done)) && r in w.roles
    ensures Jammed(w, Retried(w, t, n, done), r) <==> Jammed(w, t, r) || RetryJams(w, t, Retry(n, done), r)
  {
    var m, t' := At(t, Pending)[n], Retried(w, t, n, done);
    RetryKeepsBatchDirs(w, t, n, done, r);
    SameTrouble(t, t', r);
    if Sender(m) != r || WorkingOn(t, r, m) {
      RetryElsewhere(w, t, n, done, r);
    } else {
      RetryLands(w, t, n, done, r);
      var to, files := Destination(t, m, done), At(t', InProcess(r));
      if to.Some? {
        CurrentWorkGrows(At(t, InProcess(r)), to.value, files[to.value]);
        if r !in w.batchRoles && Safe(t, r) { OneKey(At(t, InProcess(r)), to.value, files[to.value]); }
      }
    }
  }

  lemma SelectedNotEmpty(files: Files)
    requires files != map[]
    ensures WithPriority(files, Priority(files[First(files.Keys)])) != {}
  {
    assert First(files.Keys) in WithPriority(files, Priority(files[First(files.Keys)]));
  }

  /** A role that is not jammed takes a batch with files, under the one name it then has. */
  lemma BatchTaken(t: Tree, r: string, b: string, now: string, head: string)
    requires InBatch(r, b) !in t && BatchReady(t, r, b, now, head).1 == Started
    ensures
      var t' := BatchReady(t, r, b, now, head).0;
      && At(t', InProcess(r)) == map[] && Batches(t', r) == {b}
      && (CanClose(t', r, b) <==> DoneBatch(r, b) !in t)
  {
    var t', files := BatchReady(t, r, b, now, head).0, At(t, New(r));
    SelectedNotEmpty(files);
    var names := WithPriority(files, Priority(files[First(files.Keys)]));
    var n :| n in names;
    assert n in At(t', InBatch(r, b));
    assert Batches(t, r) == {};
    forall c ensures c in Batches(t', r) <==> c == b {
      assert c in Batches(t, r) <==> InBatch(r, c) in t;
      assert c in Batches(t', r) <==> InBatch(r, c) in t';
    }
  }

  lemma OwnReadyJamsIff(w: Swarm, t: Tree, step: Step, r: string)
    requires step.Ready? && step.role == r && Enabled(w, t, step) && !Jammed(w, t, r)
    ensures Jammed(w, After(w, t, step), r) <==> TakesUsedName(w, t, step, r)
  {
    if r in w.batchRoles {
      if BatchReady(t, r, step.batch, step.now, step.head).1 == Started { BatchTaken(t, r, step.batch, step.now, step.head); }
    } else {
      OwnReady(t, r, step.now, step.head);
    }
  }

  lemma BatchClosedLeaves(t: Tree, r: string, b: string, now: string)
    requires Batches(t, r) == {b}
    ensures Batches(BatchClosed(t, r, b, now), r) == {}
  {
    var t' := BatchClosed(t, r, b, now);
    forall c ensures c !in Batches(t', r) {
      assert c in Batches(t, r) <==> InBatch(r, c) in t;
    }
  }

  lemma OwnDoneStaysClear(w: Swarm, t: Tree, step: Step, r: string)
    requires step.Done? && step.role == r && Enabled(w, t, step) && !Jammed(w, t, r)
    ensures !Jammed(w, After(w, t, step), r)
  {
    if r in w.batchRoles {
      if Batches(t, r) != {} {
        OnlyOne(Batches(t, r), First(Batches(t, r)));
        BatchClosedLeaves(t, r, First(Batches(t, r)), step.now);
      }
    } else {
      OwnDone(t, r, step.now);
    }
  }

  /** One step of anyone jams a role, or frees it, exactly as said. */
  lemma StepJamsIff(w: Swarm, t: Tree, step: Step, r: string)
    requires r in w.roles
    ensures Jammed(w, Next(w, t, step), r) <==> if Jammed(w, t, r) then !Frees(w, t, step, r) else Jams(w, t, step, r)
  {
    if Enabled(w, t, step) {
      if step.Delete? {
        DeleteJamsIff(w, t, At(t, Pending)[step.name], r);
      } else if step.Retry? {
        RetryJamsIff(w, t, step.name, step.done, r);
      } else if (step.Ready? || step.Done?) && step.role == r {
        if Jammed(w, t, r) {
          JammedIsIdle(w, t, step, r);
        } else if step.Ready? {
          OwnReadyJamsIff(w, t, step, r);
        } else {
          OwnDoneStaysClear(w, t, step, r);
        }
      } else {
        WorkKept(w, t, step, r);
      }
    }
  }

  lemma WorkKept(w: Swarm, t: Tree, step: Step, r: string)
    requires Enabled(w, t, step) && !step.Delete? && !step.Retry? && !((step.Ready? || step.Done?) && step.role == r)
    ensures Jammed(w, After(w, t, step), r) <==> Jammed(w, t, r)
  {
    var t' := After(w, t, step);
    BatchDirsKept(w, t, step, r);
    SameTrouble(t, t', r);
    match step
    case Process(n, weather, now) => ProcessKeepsWork(w, t, n, weather, now, r);
    case Ready(_, _, _, _) => OthersHelp(w, t, step, r);
    case Done(_, _) => OthersHelp(w, t, step, r);
    case _ => QueueKeepsWork(w, t, step, r);
  }

  // ------------------------------------------------------------------- whole runs

  ghost predicate NeverJammed(w: Swarm, run: Run, r: string) {
    !Jammed(w, Last(w, run), r) && (run.More? ==> NeverJammed(w, run.run, r))
  }

  ghost predicate NothingJams(w: Swarm, run: Run, r: string) {
    run.More? ==> NothingJams(w, run.run, r) && !Jams(w, Last(w, run.run), run.step, r)
  }

  /** In every run from empty directories a role is never jammed, exactly when no step of the run is one that jams. */
  lemma {:induction false} RunIsClearIff(w: Swarm, run: Run, r: string)
    requires r in w.roles
    ensures NeverJammed(w, run, r) <==> NothingJams(w, run, r)
  {
    if run.More? {
      RunIsClearIff(w, run.run, r);
      StepJamsIff(w, Last(w, run.run), run.step, r);
    } else {
      assert Batches(map[], r) == {};
    }
  }

  ghost predicate JammedSince(w: Swarm, prefix: Run, run: Run, r: string) {
    Jammed(w, Last(w, run), r) && (run != prefix && run.More? ==> JammedSince(w, prefix, run.run, r))
  }

  ghost predicate NothingFrees(w: Swarm, prefix: Run, run: Run, r: string) {
    run != prefix && run.More? ==> NothingFrees(w, prefix, run.run, r) && !Frees(w, Last(w, run.run), run.step, r)
  }

  /** A jammed role stays so for exactly as long as no deletion leaves it without a jam; its helper refuses all the while. */
  lemma {:induction false} JammedUntilDeleted(w: Swarm, prefix: Run, run: Run, r: string, now: string)
    requires r in w.roles && Within(prefix, run) && Jammed(w, Last(w, prefix), r)
    ensures JammedSince(w, prefix, run, r) <==> NothingFrees(w, prefix, run, r)
    ensures NothingFrees(w, prefix, run, r) ==> DoneOutcome(w, Last(w, run), r, now) == Refused
  {
    if prefix != run {
      JammedUntilDeleted(w, prefix, run.run, r, now);
      StepJamsIff(w, Last(w, run.run), run.step, r);
    }
    JammedIff(w, Last(w, run), r, now);
  }

  // ------------------------------------------------------------ jams that nothing frees

  lemma DeleteKeepsTrouble(t: Tree, m: Message, r: string)
    requires BatchTrouble(t, r)
    ensures BatchTrouble(Deleted(t, m), r)
  {
    var t' := Deleted(t, m);
    DeleteKeepsBatches(t, m, r);
    if |Batches(t, r)| <= 1 {
      var b :| b in Batches(t, r) && !CanClose(t, r, b);
      DeletedAt(t, m, InBatch(r, b));
      DeletedAt(t, m, DoneBatch(r, b));
      assert b in Batches(t', r) && !CanClose(t', r, b);
    }
  }

  lemma StepKeepsTrouble(w: Swarm, t: Tree, step: Step, r: string)
    requires r in w.batchRoles && BatchTrouble(t, r)
    ensures BatchTrouble(Next(w, t, step), r)
  {
    if Enabled(w, t, step) {
      if step.Delete? {
        DeleteKeepsTrouble(t, At(t, Pending)[step.name], r);
      } else if (step.Ready? || step.Done?) && step.role == r {
        JammedIsIdle(w, t, step, r);
      } else {
        BatchDirsKept(w, t, step, r);
        SameTrouble(t, Next(w, t, step), r);
      }
    }
  }

  /**
    A batch without files, or under a used name, is there for good: no script
    removes its directory, and the role's completing helper refuses through
    every further step of anyone.
   */
  lemma {:induction false} TroubleIsForever(w: Swarm, prefix: Run, run: Run, r: string, now: string)
    requires r in w.batchRoles && Within(prefix, run) && BatchTrouble(Last(w, prefix), r)
    ensures BatchTrouble(Last(w, run), r) && BatchDone(Last(w, run), r, now) == (Last(w, run), Refused)
  {
    if prefix != run {
      TroubleIsForever(w, prefix, run.run, r, now);
      StepKeepsTrouble(w, Last(w, run.run), run.step, r);
    }
    JammedIff(w, Last(w, run), r, now);
  }

  /** What the taking helper of such a role answers: it refuses a batch without files, and never takes another. */
  lemma TroubleTakesNothing(t: Tree, r: string, b: string, now: string, head: string)
    requires BatchTrouble(t, r)
    ensures BatchReady(t, r, b, now, head).0 == t
    ensures (exists c :: c in Batches(t, r) && At(t, InBatch(r, c)) == map[]) ==> BatchReady(t, r, b, now, head).1 == Refused
  {
    var batches := Batches(t, r);
    assert batches != {};
    if |batches| <= 1 { OnlyOne(batches, First(batches)); }
  }
}
