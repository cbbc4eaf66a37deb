/**
  The discipline of HandoffSafety met by working from the task board: when
  every handoff that names a task names a card by its id and its name, a role
  that sends only for the task it has in process keeps to one work at a time.
 */
module HandoffCards {
  import opened HandoffText
  import opened HandoffProtocol
  import opened HandoffSafety
  import opened HandoffContents

  /** No two cards share a name, and no card's id is another's name. */
  ghost predicate IsClear(board: Board) {
    && (forall i, j :: i in board && j in board && board[i] == board[j] ==> i == j)
    && (forall i, j :: i in board && j in board && i == board[j] ==> i == j)
  }

  /** Two messages of clear cards name the same work as soon as one's id is a name of the other. */
  lemma CardsAgree(board: Board, x: Message, a: Message)
    requires IsClear(board) && Carded(board, x) && Carded(board, a) && SameTask(x, a)
    ensures Wanted(x) == Wanted(a)
  {}

  ghost predicate HasInProcess(t: Tree, r: string, m: Message) {
    exists k :: k in At(t, InProcess(r)) && TaskKey(At(t, InProcess(r))[k]) == TaskKey(m)
  }

  /** Everyone sends handoffs that name cards, and the role sends git handoffs only for what it has in process. */
  ghost predicate SendsOwnCards(board: Board, w: Swarm, run: Run, r: string) {
    run.More? ==>
      && SendsOwnCards(board, w, run.run, r)
      && (run.step.Send? && Enabled(w, Last(w, run.run), run.step) ==>
          && Carded(board, run.step.message)
          && (GitFrom(run.step.message, r) ==> HasInProcess(Last(w, run.run), r, run.step.message)))
  }

  lemma OwnCardStaysOn(board: Board, w: Swarm, t: Tree, r: string, m: Message)
    requires IsClear(board) && AllFollow(NamesCards(board), t) && Carded(board, m) && Safe(t, r) && OneWork(t, r)
    requires MaySend(w, t, r, m) && GitFrom(m, r) && HasInProcess(t, r, m)
    ensures StaysOn(t, r, m)
  {
    var files := At(t, InProcess(r));
    var k :| k in files && TaskKey(files[k]) == TaskKey(m);
    var x := files[k];
    var rule := NamesCards(board);
    assert DirFollows(rule, t, InProcess(r)) && DirFollows(rule, t, Outbox) && DirFollows(rule, t, Pending);
    assert Follows(rule, k, x);
    assert Carded(board, x) && SameTask(x, m);
    CardsAgree(board, x, m);
    forall a | a in Outbound(t, r) ensures Wanted(a) == Wanted(m) {
      assert AllFor(files, a);
      assert exists n :: (n in At(t, Outbox) && At(t, Outbox)[n] == a) || (n in At(t, Pending) && At(t, Pending)[n] == a);
      var n :| (n in At(t, Outbox) && At(t, Outbox)[n] == a) || (n in At(t, Pending) && At(t, Pending)[n] == a);
      assert Follows(rule, n, a);
      CardsAgree(board, x, a);
    }
    forall j | j in files ensures j == k {
      if j != k { TwoAreMore(files.Keys, j, k); }
    }
  }

  /**
    A role that takes one task at a time and sends only for the card it has in
    process never has two, whatever the daemon, the operator and the other
    roles do.
   */
  lemma {:induction false} OwnCardsAreSafe(board: Board, w: Swarm, run: Run, r: string)
    requires IsClear(board) && r in w.roles && r !in w.batchRoles && !IsBlank(r) && SendsOwnCards(board, w, run, r)
    ensures AllFollow(NamesCards(board), Last(w, run)) && OneWorkAtATime(w, run, r) && AlwaysSafe(w, run, r)
  {
    if run.More? {
      var t, step := Last(w, run.run), run.step;
      OwnCardsAreSafe(board, w, run.run, r);
      OneWorkIsSafe(w, run.run, r);
      if step.Send? && Enabled(w, t, step) && GitFrom(step.message, r) { OwnCardStaysOn(board, w, t, r, step.message); }
      StepFollows(NamesCards(board), w, t, step);
    }
    OneWorkIsSafe(w, run, r);
  }
}
