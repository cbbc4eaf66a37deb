/**
  Conservation of handoffs. Over every run in which senders use new file
  names, a handoff is in exactly one of outbox, pending, sent, failed and
  discarded; what was sent has reached every recipient; and a recipient's copy
  is in exactly one of its directories for exactly as long as the operator has
  not deleted the approval of its task.
 */
module HandoffLedger {
  import opened Options
  import opened HandoffText
  import opened HandoffProtocol
  import opened HandoffContents

  predicate InboxOf(d: Dir, r: string) { !IsQueue(d) && d.role == r }

  /** Names the operator's retry writes, which no sender uses. */
  predicate IsRetryName(n: string) { StartsWith(n, RETRY_PREFIX) }

  lemma RetryNamesStart(id: string)
    ensures IsRetryName(RetryName(id))
  {}

  /** The task keys of all handoffs sent so far, by file name. */
  ghost function SentKeys(w: Swarm, run: Run): Keys {
    if run.Fresh? then map[]
    else if run.step.Send? && Enabled(w, Last(w, run.run), run.step) then
      SentKeys(w, run.run)[run.step.name := TaskKey(run.step.message)]
    else SentKeys(w, run.run)
  }

  ghost function Posted(w: Swarm, run: Run): set<string> { SentKeys(w, run).Keys }

  function NamesOfTask(files: Files, m: Message): set<string> {
    set n | n in files && SameTask(files[n], m)
  }

  /** The handoffs of a task that are still anywhere between outbox and archive. */
  function QueuedForTask(t: Tree, m: Message): set<string> {
    NamesOfTask(At(t, Outbox), m) + NamesOfTask(At(t, Pending), m) + NamesOfTask(At(t, Sent), m) + NamesOfTask(At(t, Failed), m)
  }

  /** What the operator throws away: the held file on a retry, all of its task when the approval is deleted. */
  ghost function Removed(w: Swarm, t: Tree, step: Step): set<string> {
    if !Enabled(w, t, step) then {}
    else if step.Retry? then {step.name}
    else if step.Delete? then QueuedForTask(t, At(t, Pending)[step.name])
    else {}
  }

  ghost function Discarded(w: Swarm, run: Run): set<string> {
    if run.Fresh? then {} else Discarded(w, run.run) + Removed(w, Last(w, run.run), run.step)
  }

  ghost predicate FreshNames(w: Swarm, run: Run) {
    run.More? ==>
      && FreshNames(w, run.run)
      && (run.step.Send? ==> run.step.name !in Posted(w, run.run) && !IsRetryName(run.step.name))
  }

  // ------------------------------------------------------------------ the ledger

  ghost predicate Received(t: Tree, r: string, n: string) {
    exists d :: InboxOf(d, r) && n in At(t, d)
  }

  ghost predicate QueuesAgree(t: Tree, posted: set<string>, discarded: set<string>) {
    && (forall d, e, n :: IsQueue(d) && IsQueue(e) && n in At(t, d) && n in At(t, e) ==> d == e)
    && (forall d, n :: IsQueue(d) && n in At(t, d) ==> n in posted && n !in discarded)
    && (forall n :: n in posted && n !in discarded ==> exists d :: IsQueue(d) && n in At(t, d))
    && discarded <= posted && forall n :: n in posted ==> !IsRetryName(n)
  }

  /** A role has a handoff in one place; it has only what was sent, and what retries wrote. */
  ghost predicate CopiesAgree(t: Tree, posted: set<string>) {
    && (forall d, n :: !IsQueue(d) && n in At(t, d) ==> n in posted || IsRetryName(n))
    && (forall d, e, n :: !IsQueue(d) && InboxOf(e, d.role) && n in posted && n in At(t, d) && n in At(t, e) ==> d == e)
    && (forall d, n :: !IsQueue(d) && n in posted && n in At(t, d) ==> n in At(t, Sent) || n in At(t, Failed))
  }

  ghost predicate SentAreReceived(t: Tree) {
    forall n, r :: n in At(t, Sent) && r in RecipientList(At(t, Sent)[n].headers) ==> Received(t, r, n)
  }

  ghost predicate Balanced(t: Tree, posted: set<string>, discarded: set<string>) {
    QueuesAgree(t, posted, discarded) && CopiesAgree(t, posted) && SentAreReceived(t)
  }

  // ----------------------------------------------------------- moves inside an inbox

  /** Some files of one inbox directory moved to another of the same role. */
  ghost predicate Moved(t: Tree, t': Tree, d: Dir, e: Dir, names: set<string>) {
    && !IsQueue(d) && InboxOf(e, d.role) && d != e && names <= At(t, d).Keys
    && At(t', d).Keys == At(t, d).Keys - names && At(t', e).Keys == At(t, e).Keys + names
    && forall f :: f != d && f != e ==> At(t', f) == At(t, f)
  }

  lemma MovedReceived(t: Tree, t': Tree, d: Dir, e: Dir, names: set<string>, r: string, n: string)
    requires Moved(t, t', d, e, names) && Received(t, r, n)
    ensures Received(t', r, n)
  {
    var f :| InboxOf(f, r) && n in At(t, f);
    assert if f == d && n in names then n in At(t', e) else n in At(t', f);
  }

  lemma MovedBalanced(t: Tree, t': Tree, d: Dir, e: Dir, names: set<string>, posted: set<string>, discarded: set<string>)
    requires Moved(t, t', d, e, names) && Balanced(t, posted, discarded)
    ensures Balanced(t', posted, discarded)
  {
    forall n, r | n in At(t', Sent) && r in RecipientList(At(t', Sent)[n].headers) ensures Received(t', r, n) {
      MovedReceived(t, t', d, e, names, r, n);
    }
    MovedQueues(t, t', d, e, names, posted, discarded);
    MovedCopies(t, t', d, e, names, posted);
  }

  lemma MovedQueues(t: Tree, t': Tree, d: Dir, e: Dir, names: set<string>, posted: set<string>, discarded: set<string>)
    requires Moved(t, t', d, e, names) && QueuesAgree(t, posted, discarded)
    ensures QueuesAgree(t', posted, discarded)
  {
    forall n | n in posted && n !in discarded ensures exists f :: IsQueue(f) && n in At(t', f) {
      var f :| IsQueue(f) && n in At(t, f);
      assert n in At(t', f);
    }
  }

  lemma MovedCopies(t: Tree, t': Tree, d: Dir, e: Dir, names: set<string>, posted: set<string>)
    requires Moved(t, t', d, e, names) && CopiesAgree(t, posted)
    ensures CopiesAgree(t', posted)
  {
    forall f, n | !IsQueue(f) && n in At(t', f) ensures n in At(t, f) || (f == e && n in At(t, d)) {}
    forall f, g, n | !IsQueue(f) && InboxOf(g, f.role) && n in posted && n in At(t', f) && n in At(t', g) ensures f == g {
      assert n in At(t, if f == e && n in names then d else f);
      assert n in At(t, if g == e && n in names then d else g);
    }
  }

  // ------------------------------------------------------------- moves of a handoff

  /** No name of the outbox is taken where the daemon moves files, so it moves them under their own. */
  lemma NoCollision(t: Tree, n: string, to: Dir, now: string, posted: set<string>, discarded: set<string>)
    requires QueuesAgree(t, posted, discarded) && n in At(t, Outbox) && (to == Pending || to == Sent || to == Failed)
    ensures MoveOrFail(t, n, to, now) == Put(Drop(t, Outbox, n), to, n, At(t, Outbox)[n])
    ensures FailFile(t, n, now) == Put(Drop(t, Outbox, n), Failed, n, At(t, Outbox)[n])
  {}

  /** Handoff `n` moved from one queue to another, perhaps rewritten; inboxes gained at most new copies of it. */
  ghost predicate Forwarded(t: Tree, t': Tree, from: Dir, to: Dir, n: string) {
    && IsQueue(from) && IsQueue(to) && from != to && n in At(t, from)
    && At(t', from).Keys == At(t, from).Keys - {n} && At(t', to).Keys == At(t, to).Keys + {n}
    && (forall d :: IsQueue(d) && d != from && d != to ==> At(t', d) == At(t, d))
    && (forall d :: !IsQueue(d) ==> At(t', d).Keys == At(t, d).Keys || (d.New? && At(t', d).Keys == At(t, d).Keys + {n}))
  }

  lemma ForwardedQueues(t: Tree, t': Tree, from: Dir, to: Dir, n: string, posted: set<string>, discarded: set<string>)
    requires Forwarded(t, t', from, to, n) && QueuesAgree(t, posted, discarded)
    ensures QueuesAgree(t', posted, discarded)
  {
    forall d, k | IsQueue(d) && k in At(t', d) ensures if k == n then d == to else k in At(t, d) {
      assert d != from && d != to ==> At(t', d) == At(t, d);
    }
    forall k | k in posted && k !in discarded ensures exists d :: IsQueue(d) && k in At(t', d) {
      if k == n {
        assert n in At(t', to);
      } else {
        var d :| IsQueue(d) && k in At(t, d);
        assert k in At(t', d);
      }
    }
  }

  /** Out of the outbox into sent or failed, new copies are the only ones. */
  lemma ForwardedCopies(t: Tree, t': Tree, from: Dir, to: Dir, n: string, posted: set<string>, discarded: set<string>)
    requires Forwarded(t, t', from, to, n) && QueuesAgree(t, posted, discarded) && CopiesAgree(t, posted)
    requires from == Outbox || from == Pending
    requires to == Sent || to == Failed || forall d :: !IsQueue(d) ==> At(t', d).Keys == At(t, d).Keys
    ensures CopiesAgree(t', posted)
  {
    assert n in posted && n !in At(t, Sent) && n !in At(t, Failed);
    assert forall d :: !IsQueue(d) ==> n !in At(t, d);
    forall d, k | !IsQueue(d) && k in At(t', d) ensures k in At(t, d) || (k == n && d.New?) {}
    forall d, k | !IsQueue(d) && k in posted && k in At(t', d) ensures k in At(t', Sent) || k in At(t', Failed) {
      if k != n { assert k in At(t, d); }
    }
    forall d, e, k | !IsQueue(d) && InboxOf(e, d.role) && k in posted && k in At(t', d) && k in At(t', e) ensures d == e {
      if k != n { assert k in At(t, d) && k in At(t, e); }
    }
  }

  lemma ForwardedReceived(t: Tree, t': Tree, from: Dir, to: Dir, n: string, r: string, k: string)
    requires Forwarded(t, t', from, to, n) && Received(t, r, k)
    ensures Received(t', r, k)
  {
    var d :| InboxOf(d, r) && k in At(t, d);
    assert k in At(t', d);
  }

  lemma ForwardedSent(t: Tree, t': Tree, from: Dir, to: Dir, n: string)
    requires Forwarded(t, t', from, to, n) && SentAreReceived(t) && from != Sent
    requires to == Sent ==> At(t', Sent) == At(t, Sent)[n := At(t', Sent)[n]]
    requires to == Sent ==> forall r :: r in RecipientList(At(t', Sent)[n].headers) ==> Received(t', r, n)
    ensures SentAreReceived(t')
  {
    forall k, r | k in At(t', Sent) && r in RecipientList(At(t', Sent)[k].headers) ensures Received(t', r, k) {
      if k != n || to != Sent {
        assert Received(t, r, k);
        ForwardedReceived(t, t', from, to, n, r, k);
      }
    }
  }

  // ------------------------------------------------------------------ the daemon

  lemma {:induction false} CopiesReach(w: Swarm, t: Tree, n: string, m: Message, rs: seq<string>, quiet: nat, now: string, d: Dir)
    ensures
      var (t', all) := WriteCopies(w, t, n, m, rs, quiet, now);
      && (At(t', d).Keys == At(t, d).Keys || (d.New? && At(t', d).Keys == At(t, d).Keys + {n}))
      && (d.New? && all && d.role in rs ==> n in At(t', d))
    decreases |rs|
  {
    if rs != [] && rs[0] in w.roles {
      var t1 := WriteCopy(t, n, m, rs[0], now);
      if quiet > 0 { CopiesReach(w, t1, n, m, rs[1..], quiet - 1, now, d); }
    }
  }

  lemma DeliveryForwards(w: Swarm, t: Tree, n: string, rs: seq<string>, quiet: nat, now: string, to: Dir)
    requires n in At(t, Outbox) && (to == Sent || to == Failed) && n !in At(t, to)
    ensures
      var m := At(t, Outbox)[n];
      var t1 := WriteCopies(w, t, n, m, rs, quiet, now).0;
      && (forall d: Dir :: !d.New? ==> At(t1, d) == At(t, d))
      && Forwarded(t, Put(Drop(t1, Outbox, n), to, n, m), Outbox, to, n)
  {
    var m := At(t, Outbox)[n];
    forall d: Dir | !d.New? ensures At(WriteCopies(w, t, n, m, rs, quiet, now).0, d) == At(t, d) {
      CopiesGoToNew(w, t, n, m, rs, quiet, now, d);
    }
    forall d: Dir | d.New?
      ensures var t1 := WriteCopies(w, t, n, m, rs, quiet, now).0;
        At(t1, d).Keys == At(t, d).Keys || At(t1, d).Keys == At(t, d).Keys + {n}
    {
      CopiesReach(w, t, n, m, rs, quiet, now, d);
    }
  }

  /** Handoff `n` left the outbox for `to`; if for sent, every recipient has it. */
  ghost predicate Lands(t: Tree, t': Tree, to: Dir, n: string, m: Message) {
    && to != Outbox && Forwarded(t, t', Outbox, to, n)
    && (to == Pending ==> forall d :: !IsQueue(d) ==> At(t', d).Keys == At(t, d).Keys)
    && (to == Sent ==> At(t', Sent) == At(t, Sent)[n := m] && forall r :: r in RecipientList(m.headers) ==> Received(t', r, n))
  }

  lemma LandsBalanced(t: Tree, t': Tree, to: Dir, n: string, m: Message, posted: set<string>, discarded: set<string>)
    requires Lands(t, t', to, n, m) && Balanced(t, posted, discarded)
    ensures Balanced(t', posted, discarded)
  {
    ForwardedQueues(t, t', Outbox, to, n, posted, discarded);
    ForwardedCopies(t, t', Outbox, to, n, posted, discarded);
    ForwardedSent(t, t', Outbox, to, n);
  }

  lemma MoveLands(t: Tree, n: string, to: Dir, posted: set<string>, discarded: set<string>)
    requires QueuesAgree(t, posted, discarded) && n in At(t, Outbox) && (to == Pending || to == Failed)
    ensures Lands(t, Put(Drop(t, Outbox, n), to, n, At(t, Outbox)[n]), to, n, At(t, Outbox)[n])
  {}

  /** A delivery attempt ends in sent, with every recipient served, or in failed. */
  lemma DeliveryLands(w: Swarm, t: Tree, n: string, quiet: nat, now: string, posted: set<string>, discarded: set<string>)
    requires n in At(t, Outbox) && QueuesAgree(t, posted, discarded)
    ensures
      var m := At(t, Outbox)[n];
      var (t1, all) := WriteCopies(w, t, n, m, RecipientList(m.headers), quiet, now);
      n in At(t1, Outbox) && var to := if all then Sent else Failed;
      Lands(t, if all then MoveOrFail(t1, n, Sent, now) else FailFile(t1, n, now), to, n, m)
  {
    var m := At(t, Outbox)[n];
    var rs := RecipientList(m.headers);
    var (t1, all) := WriteCopies(w, t, n, m, rs, quiet, now);
    var to := if all then Sent else Failed;
    DeliveryForwards(w, t, n, rs, quiet, now, to);
    var t' := Put(Drop(t1, Outbox, n), to, n, m);
    assert t' == if all then MoveOrFail(t1, n, Sent, now) else FailFile(t1, n, now);
    forall r | all && r in rs ensures Received(t', r, n) {
      CopiesReach(w, t, n, m, rs, quiet, now, New(r));
      assert InboxOf(New(r), r) && n in At(t', New(r));
    }
  }

  lemma ProcessLands(w: Swarm, t: Tree, n: string, weather: Weather, now: string, posted: set<string>, discarded: set<string>)
    returns (to: Dir)
    requires n in At(t, Outbox) && QueuesAgree(t, posted, discarded)
    ensures Lands(t, Processed(w, t, n, weather, now), to, n, At(t, Outbox)[n])
  {
    var m := At(t, Outbox)[n];
    var rs := RecipientList(m.headers);
    if ShouldHold(w, m) {
      to := Pending;
      NoCollision(t, n, Pending, now, posted, discarded);
      MoveLands(t, n, Pending, posted, discarded);
    } else if rs == [] || weather.boardFails {
      to := Failed;
      NoCollision(t, n, Pending, now, posted, discarded);
      MoveLands(t, n, Failed, posted, discarded);
    } else {
      to := if WriteCopies(w, t, n, m, rs, weather.quiet, now).1 then Sent else Failed;
      DeliveryLands(w, t, n, weather.quiet, now, posted, discarded);
    }
  }

  // ------------------------------------------------------ sender, operator, helpers

  ghost predicate KeepsReceived(t: Tree, t': Tree) {
    forall r, n :: Received(t, r, n) ==> Received(t', r, n)
  }

  lemma LandsKeepsReceived(t: Tree, t': Tree, from: Dir, to: Dir, n: string)
    requires Forwarded(t, t', from, to, n)
    ensures KeepsReceived(t, t')
  {
    forall r, k | Received(t, r, k) ensures Received(t', r, k) { ForwardedReceived(t, t', from, to, n, r, k); }
  }

  lemma MovedKeepsReceived(t: Tree, t': Tree, d: Dir, e: Dir, names: set<string>)
    requires Moved(t, t', d, e, names)
    ensures KeepsReceived(t, t')
  {
    forall r, n | Received(t, r, n) ensures Received(t', r, n) { MovedReceived(t, t', d, e, names, r, n); }
  }

  /** Inboxes keep their files, and gain at most one under a retry's name. */
  lemma InboxesKeep(t: Tree, t': Tree)
    requires forall d :: !IsQueue(d) ==> At(t, d).Keys <= At(t', d).Keys
    ensures KeepsReceived(t, t')
  {
    forall r, n | Received(t, r, n) ensures Received(t', r, n) {
      var d :| InboxOf(d, r) && n in At(t, d);
      assert n in At(t', d);
    }
  }

  lemma ApproveForwards(t: Tree, n: string, marked: bool, posted: set<string>, discarded: set<string>)
    requires n in At(t, Pending) && QueuesAgree(t, posted, discarded)
    ensures Forwarded(t, Approved(t, n, marked), Pending, Outbox, n)
    ensures forall d :: !IsQueue(d) ==> At(Approved(t, n, marked), d).Keys == At(t, d).Keys
  {}

  lemma ApproveBalanced(t: Tree, n: string, marked: bool, posted: set<string>, discarded: set<string>)
    requires n in At(t, Pending) && Balanced(t, posted, discarded)
    ensures Balanced(Approved(t, n, marked), posted, discarded) && KeepsReceived(t, Approved(t, n, marked))
  {
    var t' := Approved(t, n, marked);
    ApproveForwards(t, n, marked, posted, discarded);
    ForwardedQueues(t, t', Pending, Outbox, n, posted, discarded);
    ForwardedCopies(t, t', Pending, Outbox, n, posted, discarded);
    ForwardedSent(t, t', Pending, Outbox, n);
    LandsKeepsReceived(t, t', Pending, Outbox, n);
  }

  /** Steps that leave the copies of handoffs, and where those went, as they are. */
  lemma CopiesUntouched(t: Tree, t': Tree, posted: set<string>)
    requires CopiesAgree(t, posted) && SentAreReceived(t) && KeepsReceived(t, t')
    requires At(t', Sent) == At(t, Sent) && At(t', Failed) == At(t, Failed)
    requires forall d, n :: !IsQueue(d) && n in At(t', d) ==> n in At(t, d) || IsRetryName(n)
    requires forall n :: n in posted ==> !IsRetryName(n)
    ensures CopiesAgree(t', posted) && SentAreReceived(t')
  {
    forall n, r | n in At(t', Sent) && r in RecipientList(At(t', Sent)[n].headers) ensures Received(t', r, n) {
      assert Received(t, r, n);
    }
  }

  lemma MorePosted(t: Tree, n: string, posted: set<string>, discarded: set<string>)
    requires Balanced(t, posted, discarded) && n !in posted && !IsRetryName(n)
    ensures CopiesAgree(t, posted + {n}) && forall d :: n !in At(t, d)
  {
    assert forall d :: n in At(t, d) && IsQueue(d) ==> n in posted;
    assert forall d :: n in At(t, d) && !IsQueue(d) ==> n in posted || IsRetryName(n);
  }

  lemma SendQueuesAgree(t: Tree, n: string, m: Message, posted: set<string>, discarded: set<string>)
    requires QueuesAgree(t, posted, discarded) && n !in posted && !IsRetryName(n)
    ensures QueuesAgree(Put(t, Outbox, n, m), posted + {n}, discarded)
  {
    var t' := Put(t, Outbox, n, m);
    assert forall d :: IsQueue(d) ==> n !in At(t, d);
    forall d, k | IsQueue(d) && k in At(t', d) ensures if k == n then d == Outbox else k in At(t, d) {}
    forall k | k in posted + {n} && k !in discarded ensures exists d :: IsQueue(d) && k in At(t', d) {
      if k == n {
        assert n in At(t', Outbox);
      } else {
        var d :| IsQueue(d) && k in At(t, d);
        assert k in At(t', d);
      }
    }
  }

  lemma SendBalanced(t: Tree, n: string, m: Message, posted: set<string>, discarded: set<string>)
    requires Balanced(t, posted, discarded) && n !in posted && !IsRetryName(n)
    ensures Balanced(Put(t, Outbox, n, m), posted + {n}, discarded) && KeepsReceived(t, Put(t, Outbox, n, m))
  {
    var t' := Put(t, Outbox, n, m);
    SendQueuesAgree(t, n, m, posted, discarded);
    MorePosted(t, n, posted, discarded);
    InboxesKeep(t, t');
    CopiesUntouched(t, t', posted + {n});
  }

  lemma DiscardQueues(t: Tree, n: string, posted: set<string>, discarded: set<string>)
    requires n in At(t, Pending) && QueuesAgree(t, posted, discarded)
    ensures QueuesAgree(Drop(t, Pending, n), posted, discarded + {n})
  {
    var t' := Drop(t, Pending, n);
    forall d, k | IsQueue(d) && k in At(t', d) ensures k in At(t, d) && k != n {}
    forall k | k in posted && k !in discarded + {n} ensures exists d :: IsQueue(d) && k in At(t', d) {
      var d :| IsQueue(d) && k in At(t, d);
      assert k in At(t', d);
    }
  }

  lemma DiscardBalanced(t: Tree, n: string, posted: set<string>, discarded: set<string>)
    requires n in At(t, Pending) && Balanced(t, posted, discarded)
    ensures Balanced(Drop(t, Pending, n), posted, discarded + {n}) && KeepsReceived(t, Drop(t, Pending, n))
  {
    var t' := Drop(t, Pending, n);
    DiscardQueues(t, n, posted, discarded);
    InboxesKeep(t, t');
    CopiesUntouched(t, t', posted);
  }

  lemma SameQueues(t: Tree, t': Tree, posted: set<string>, discarded: set<string>)
    requires QueuesAgree(t, posted, discarded) && forall d :: IsQueue(d) ==> At(t', d) == At(t, d)
    ensures QueuesAgree(t', posted, discarded)
  {
    forall k | k in posted && k !in discarded ensures exists d :: IsQueue(d) && k in At(t', d) {
      var d :| IsQueue(d) && k in At(t, d);
      assert k in At(t', d);
    }
  }

  lemma RetryNoteBalanced(t: Tree, r: string, k: string, x: Message, posted: set<string>, discarded: set<string>)
    requires Balanced(t, posted, discarded) && IsRetryName(k)
    ensures Balanced(Put(t, InProcess(r), k, x), posted, discarded) && KeepsReceived(t, Put(t, InProcess(r), k, x))
  {
    var t' := Put(t, InProcess(r), k, x);
    SameQueues(t, t', posted, discarded);
    InboxesKeep(t, t');
    CopiesUntouched(t, t', posted);
  }

  lemma RestoreMoves(t: Tree, r: string, p: Place)
    requires p.name in At(t, p.dir) && IsDone(p.dir, r)
    ensures Moved(t, Restored(t, r, p), p.dir, InProcess(r), {p.name})
  {}

  lemma RetryBalanced(w: Swarm, t: Tree, n: string, done: Option<Place>, posted: set<string>, discarded: set<string>)
    requires Enabled(w, t, Retry(n, done)) && Balanced(t, posted, discarded)
    ensures Balanced(Retried(w, t, n, done), posted, discarded + {n}) && KeepsReceived(t, Retried(w, t, n, done))
  {
    var m, t1, t' := At(t, Pending)[n], Drop(t, Pending, n), Retried(w, t, n, done);
    var r := Sender(m);
    DiscardBalanced(t, n, posted, discarded);
    if t' != t1 {
      if done.Some? {
        RestoreMoves(t1, r, done.value);
        MovedBalanced(t1, t', done.value.dir, InProcess(r), {done.value.name}, posted, discarded + {n});
        MovedKeepsReceived(t1, t', done.value.dir, InProcess(r), {done.value.name});
      } else {
        RetryNamesStart(TaskKey(m).value);
        RetryNoteBalanced(t1, r, RetryName(TaskKey(m).value), RetryNote(m, TaskKey(m).value), posted, discarded + {n});
      }
    }
  }

  lemma TaskStartMoves(t: Tree, r: string, n: string, now: string, head: string)
    requires n in At(t, New(r))
    ensures Moved(t, TaskStarted(t, r, n, now, head), New(r), InProcess(r), {n})
  {}

  lemma BatchStartMoves(t: Tree, r: string, b: string, names: set<string>, now: string, head: string)
    requires names <= At(t, New(r)).Keys && InBatch(r, b) !in t
    ensures Moved(t, BatchStarted(t, r, b, names, now, head), New(r), InBatch(r, b), names)
  {}

  lemma TaskReadyStarts(t: Tree, r: string, now: string, head: string) returns (n: string)
    ensures
      var t' := TaskReady(t, r, now, head).0;
      t' == t || (n in At(t, New(r)) && t' == TaskStarted(t, r, n, now, head))
  {
    n := "";
    if At(t, New(r)) != map[] { n := First(At(t, New(r)).Keys); }
  }

  lemma TaskReadyMoves(t: Tree, r: string, now: string, head: string) returns (names: set<string>)
    ensures
      var t' := TaskReady(t, r, now, head).0;
      t' == t || Moved(t, t', New(r), InProcess(r), names)
  {
    var n := TaskReadyStarts(t, r, now, head);
    names := {n};
    if n in At(t, New(r)) { TaskStartMoves(t, r, n, now, head); }
  }

  lemma BatchReadyStarts(t: Tree, r: string, b: string, now: string, head: string) returns (names: set<string>)
    ensures names <= At(t, New(r)).Keys
    ensures
      var t' := BatchReady(t, r, b, now, head).0;
      t' == t || t' == BatchStarted(t, r, b, names, now, head)
  {
    names := {};
    var files := At(t, New(r));
    if files != map[] {
      names := WithPriority(files, Priority(files[First(files.Keys)]));
    }
  }

  lemma BatchReadyMoves(t: Tree, r: string, b: string, now: string, head: string) returns (names: set<string>)
    requires InBatch(r, b) !in t
    ensures
      var t' := BatchReady(t, r, b, now, head).0;
      t' == t || Moved(t, t', New(r), InBatch(r, b), names)
  {
    names := BatchReadyStarts(t, r, b, now, head);
    BatchStartMoves(t, r, b, names, now, head);
  }

  /** Taking work moves files of the role's own inbox, and nothing else. */
  lemma ReadyMoves(w: Swarm, t: Tree, r: string, b: string, now: string, head: string) returns (e: Dir, names: set<string>)
    requires r in w.roles && InBatch(r, b) !in t
    ensures
      var t' := After(w, t, Ready(r, b, now, head));
      t' == t || Moved(t, t', New(r), e, names)
  {
    if r in w.batchRoles {
      e := InBatch(r, b);
      names := BatchReadyMoves(t, r, b, now, head);
    } else {
      e := InProcess(r);
      names := TaskReadyMoves(t, r, now, head);
    }
  }

  lemma TaskCloseMoves(t: Tree, r: string, n: string, now: string)
    requires n in At(t, InProcess(r))
    ensures Moved(t, TaskClosed(t, r, n, now), InProcess(r), Completed(r), {n})
  {}

  lemma BatchCloseMoves(t: Tree, r: string, b: string, now: string)
    requires DoneBatch(r, b) !in t
    ensures Moved(t, BatchClosed(t, r, b, now), InBatch(r, b), DoneBatch(r, b), At(t, InBatch(r, b)).Keys)
  {}

  lemma TaskDoneMoves(t: Tree, r: string, now: string) returns (names: set<string>)
    ensures
      var t' := TaskDone(t, r, now).0;
      t' == t || Moved(t, t', InProcess(r), Completed(r), names)
  {
    names := {};
    if TaskDone(t, r, now).1 == Finished {
      var first := First(At(t, InProcess(r)).Keys);
      names := {first};
      TaskCloseMoves(t, r, first, now);
    }
  }

  lemma BatchDoneMoves(t: Tree, r: string, now: string) returns (b: string, names: set<string>)
    ensures
      var t' := BatchDone(t, r, now).0;
      t' == t || Moved(t, t', InBatch(r, b), DoneBatch(r, b), names)
  {
    b, names := "", {};
    if BatchDone(t, r, now).1 == Finished {
      b := First(Batches(t, r));
      names := At(t, InBatch(r, b)).Keys;
      BatchCloseMoves(t, r, b, now);
    }
  }

  /** So does completing it. */
  lemma DoneMoves(w: Swarm, t: Tree, r: string, now: string) returns (d: Dir, e: Dir, names: set<string>)
    requires r in w.roles
    ensures
      var t' := After(w, t, Done(r, now));
      t' == t || Moved(t, t', d, e, names)
  {
    if r in w.batchRoles {
      var b, moved := BatchDoneMoves(t, r, now);
      d, e, names := InBatch(r, b), DoneBatch(r, b), moved;
    } else {
      d, e := InProcess(r), Completed(r);
      names := TaskDoneMoves(t, r, now);
    }
  }

  // ------------------------------------------------------------ deleted approvals

  ghost predicate HaveKeys(t: Tree, keys: Keys) { AllFollow(HasKeys(keys), t) }

  lemma KeyOf(t: Tree, keys: Keys, d: Dir, n: string)
    requires HaveKeys(t, keys) && n in keys && n in At(t, d)
    ensures TaskKey(At(t, d)[n]) == keys[n]
  {
    assert DirFollows(HasKeys(keys), t, d);
    assert Follows(HasKeys(keys), n, At(t, d)[n]);
  }

  /** All files under one sender's name are of the task or none is. */
  lemma AllOrNone(t: Tree, keys: Keys, d: Dir, e: Dir, n: string, m: Message)
    requires HaveKeys(t, keys) && n in keys && n in At(t, d) && n in At(t, e)
    ensures n in At(Deleted(t, m), d) <==> n in At(Deleted(t, m), e)
    ensures n in At(Deleted(t, m), d) <==> !SameTask(At(t, d)[n], m)
  {
    KeyOf(t, keys, d, n);
    KeyOf(t, keys, e, n);
    DeletedAt(t, m, d);
    DeletedAt(t, m, e);
  }

  lemma QueuedIff(t: Tree, m: Message, n: string)
    ensures n in QueuedForTask(t, m) <==> exists d :: IsQueue(d) && n in At(t, d) && SameTask(At(t, d)[n], m)
  {
    if n in QueuedForTask(t, m) {
      var d := if n in NamesOfTask(At(t, Outbox), m) then Outbox else if n in NamesOfTask(At(t, Pending), m) then Pending
        else if n in NamesOfTask(At(t, Sent), m) then Sent else Failed;
      assert IsQueue(d) && n in At(t, d) && SameTask(At(t, d)[n], m);
    }
  }

  lemma KeptInQueue(t: Tree, m: Message, posted: set<string>, discarded: set<string>, d: Dir, n: string)
    requires QueuesAgree(t, posted, discarded) && IsQueue(d) && n in At(t, d)
    ensures n in At(Deleted(t, m), d) <==> n !in QueuedForTask(t, m)
  {
    DeletedAt(t, m, d);
    QueuedIff(t, m, n);
  }

  lemma GoneWerePosted(t: Tree, m: Message, posted: set<string>, discarded: set<string>)
    requires QueuesAgree(t, posted, discarded)
    ensures QueuedForTask(t, m) <= posted
  {
    forall n | n in QueuedForTask(t, m) ensures n in posted { QueuedIff(t, m, n); }
  }

  /** Some handoffs gone from the queues, all else there as it was. */
  ghost predicate Thinned(t: Tree, t': Tree, gone: set<string>) {
    forall d :: IsQueue(d) ==> At(t', d).Keys == At(t, d).Keys - gone
  }

  lemma ThinnedQueues(t: Tree, t': Tree, gone: set<string>, posted: set<string>, discarded: set<string>)
    requires QueuesAgree(t, posted, discarded) && Thinned(t, t', gone) && gone <= posted
    ensures QueuesAgree(t', posted, discarded + gone)
  {
    forall n | n in posted && n !in discarded + gone ensures exists d :: IsQueue(d) && n in At(t', d) {
      var d :| IsQueue(d) && n in At(t, d);
      assert n in At(t', d);
    }
  }

  lemma DeleteQueues(t: Tree, m: Message, posted: set<string>, discarded: set<string>)
    requires QueuesAgree(t, posted, discarded)
    ensures QueuesAgree(Deleted(t, m), posted, discarded + QueuedForTask(t, m))
  {
    var t', gone := Deleted(t, m), QueuedForTask(t, m);
    GoneWerePosted(t, m, posted, discarded);
    forall d | IsQueue(d) ensures At(t', d).Keys == At(t, d).Keys - gone {
      DeletedAt(t, m, d);
      forall n | n in At(t, d) ensures n in At(t', d) <==> n !in gone { KeptInQueue(t, m, posted, discarded, d, n); }
    }
    ThinnedQueues(t, t', gone, posted, discarded);
  }

  lemma DeleteCopies(t: Tree, m: Message, keys: Keys)
    requires CopiesAgree(t, keys.Keys) && HaveKeys(t, keys)
    ensures CopiesAgree(Deleted(t, m), keys.Keys)
  {
    var t' := Deleted(t, m);
    forall d, n | n in At(t', d) ensures n in At(t, d) { DeletedAt(t, m, d); }
    forall d, n | !IsQueue(d) && n in keys.Keys && n in At(t', d) ensures n in At(t', Sent) || n in At(t', Failed) {
      DeletedAt(t, m, d);
      if n in At(t, Sent) { AllOrNone(t, keys, d, Sent, n, m); } else { AllOrNone(t, keys, d, Failed, n, m); }
    }
  }

  /** A copy goes with the handoff it came from. */
  lemma DeleteReceived(t: Tree, m: Message, keys: Keys, q: Dir, r: string, n: string)
    requires HaveKeys(t, keys) && n in keys && n in At(t, q) && n in At(Deleted(t, m), q) && Received(t, r, n)
    ensures Received(Deleted(t, m), r, n)
  {
    var d :| InboxOf(d, r) && n in At(t, d);
    AllOrNone(t, keys, d, q, n, m);
    assert n in At(Deleted(t, m), d);
  }

  lemma DeleteSent(t: Tree, m: Message, keys: Keys, discarded: set<string>)
    requires SentAreReceived(t) && QueuesAgree(t, keys.Keys, discarded) && HaveKeys(t, keys)
    ensures SentAreReceived(Deleted(t, m))
  {
    var t' := Deleted(t, m);
    DeletedAt(t, m, Sent);
    forall n, r | n in At(t', Sent) && r in RecipientList(At(t', Sent)[n].headers) ensures Received(t', r, n) {
      assert IsQueue(Sent) && n in At(t, Sent) && n in keys.Keys;
      assert At(t', Sent)[n] == At(t, Sent)[n];
      DeleteReceived(t, m, keys, Sent, r, n);
    }
  }

  // -------------------------------------------------------------------- one step

  /** Every copy of a handoff that is not thrown away is kept. */
  ghost predicate KeepsCopies(t: Tree, t': Tree, posted: set<string>, discarded: set<string>) {
    forall r, n :: n in posted && n !in discarded && Received(t, r, n) ==> Received(t', r, n)
  }

  lemma DeleteKeepsCopies(t: Tree, m: Message, keys: Keys, discarded: set<string>)
    requires CopiesAgree(t, keys.Keys) && HaveKeys(t, keys)
    ensures KeepsCopies(t, Deleted(t, m), keys.Keys, discarded + QueuedForTask(t, m))
  {
    forall r, n | n in keys.Keys && n !in discarded + QueuedForTask(t, m) && Received(t, r, n)
      ensures Received(Deleted(t, m), r, n)
    {
      var d :| InboxOf(d, r) && n in At(t, d);
      var q := if n in At(t, Sent) then Sent else Failed;
      assert n in At(t, q);
      DeletedAt(t, m, q);
      assert n in At(Deleted(t, m), q);
      DeleteReceived(t, m, keys, q, r, n);
    }
  }

  lemma DeleteBalanced(t: Tree, m: Message, keys: Keys, discarded: set<string>)
    requires Balanced(t, keys.Keys, discarded) && HaveKeys(t, keys)
    ensures Balanced(Deleted(t, m), keys.Keys, discarded + QueuedForTask(t, m))
    ensures KeepsCopies(t, Deleted(t, m), keys.Keys, discarded + QueuedForTask(t, m))
  {
    DeleteQueues(t, m, keys.Keys, discarded);
    DeleteCopies(t, m, keys);
    DeleteSent(t, m, keys, discarded);
    DeleteKeepsCopies(t, m, keys, discarded);
  }

  lemma OtherStepBalanced(w: Swarm, t: Tree, step: Step, posted: set<string>, discarded: set<string>)
    requires Balanced(t, posted, discarded) && Enabled(w, t, step) && !step.Send? && !step.Delete?
    ensures Balanced(After(w, t, step), posted, discarded + Removed(w, t, step)) && KeepsReceived(t, After(w, t, step))
  {
    assert discarded + {} == discarded;
    var t' := After(w, t, step);
    match step
    case Process(n, weather, now) =>
      var to := ProcessLands(w, t, n, weather, now, posted, discarded);
      LandsBalanced(t, t', to, n, At(t, Outbox)[n], posted, discarded);
      LandsKeepsReceived(t, t', Outbox, to, n);
    case Approve(n, marked) => ApproveBalanced(t, n, marked, posted, discarded);
    case Retry(n, done) => RetryBalanced(w, t, n, done, posted, discarded);
    case Ready(r, b, now, head) =>
      var e, names := ReadyMoves(w, t, r, b, now, head);
      if t' != t {
        MovedBalanced(t, t', New(r), e, names, posted, discarded);
        MovedKeepsReceived(t, t', New(r), e, names);
      }
    case Done(r, now) =>
      var d, e, names := DoneMoves(w, t, r, now);
      if t' != t {
        MovedBalanced(t, t', d, e, names, posted, discarded);
        MovedKeepsReceived(t, t', d, e, names);
      }
  }

  ghost function KeysAfter(w: Swarm, t: Tree, step: Step, keys: Keys): Keys {
    if step.Send? && Enabled(w, t, step) then keys[step.name := TaskKey(step.message)] else keys
  }

  lemma StepBalanced(w: Swarm, t: Tree, step: Step, keys: Keys, discarded: set<string>)
    requires Balanced(t, keys.Keys, discarded) && HaveKeys(t, keys)
    requires step.Send? ==> step.name !in keys && !IsRetryName(step.name)
    ensures
      var (keys', discarded') := (KeysAfter(w, t, step, keys), discarded + Removed(w, t, step));
      Balanced(Next(w, t, step), keys'.Keys, discarded') && KeepsCopies(t, Next(w, t, step), keys.Keys, discarded')
  {
    if !Enabled(w, t, step) {
      assert discarded + {} == discarded;
    } else if step.Send? {
      assert discarded + {} == discarded;
      SendBalanced(t, step.name, step.message, keys.Keys, discarded);
      assert keys[step.name := TaskKey(step.message)].Keys == keys.Keys + {step.name};
    } else if step.Delete? {
      DeleteBalanced(t, At(t, Pending)[step.name], keys, discarded);
    } else {
      OtherStepBalanced(w, t, step, keys.Keys, discarded);
    }
  }

  lemma NewKey(t: Tree, keys: Keys, n: string, key: Option<string>)
    requires HaveKeys(t, keys) && forall d :: n !in At(t, d)
    ensures HaveKeys(t, keys[n := key])
  {
    var rule := HasKeys(keys[n := key]);
    forall d ensures DirFollows(rule, t, d) {
      assert DirFollows(HasKeys(keys), t, d);
    }
  }

  lemma StepHasKeys(w: Swarm, t: Tree, step: Step, keys: Keys, discarded: set<string>)
    requires Balanced(t, keys.Keys, discarded) && HaveKeys(t, keys)
    requires step.Send? ==> step.name !in keys && !IsRetryName(step.name)
    ensures HaveKeys(Next(w, t, step), KeysAfter(w, t, step, keys))
  {
    var keys' := KeysAfter(w, t, step, keys);
    if step.Send? {
      MorePosted(t, step.name, keys.Keys, discarded);
      NewKey(t, keys, step.name, TaskKey(step.message));
    }
    forall id ensures RetryName(id) !in keys' { RetryNamesStart(id); }
    if step.Process? && Enabled(w, t, step) { NoneTaken(t, step.name, keys.Keys, discarded); StepFollows(HasKeys(keys'), w, t, step); }
    if !step.Process? { StepFollows(HasKeys(keys'), w, t, step); }
  }

  lemma NoneTaken(t: Tree, n: string, posted: set<string>, discarded: set<string>)
    requires QueuesAgree(t, posted, discarded) && n in At(t, Outbox)
    ensures n !in At(t, Pending) && n !in At(t, Sent) && n !in At(t, Failed)
  {}

  lemma {:induction false} RunBalanced(w: Swarm, run: Run)
    requires FreshNames(w, run)
    ensures Balanced(Last(w, run), Posted(w, run), Discarded(w, run)) && HaveKeys(Last(w, run), SentKeys(w, run))
  {
    if run.More? {
      var t, keys, discarded := Last(w, run.run), SentKeys(w, run.run), Discarded(w, run.run);
      RunBalanced(w, run.run);
      StepBalanced(w, t, run.step, keys, discarded);
      StepHasKeys(w, t, run.step, keys, discarded);
      assert SentKeys(w, run) == KeysAfter(w, t, run.step, keys);
    } else {
      var rule, empty := HasKeys(map[]), Last(w, run);
      forall d ensures DirFollows(rule, empty, d) {}
    }
  }

  // ---------------------------------------------------------------- conservation

  function One(b: bool): nat { if b then 1 else 0 }

  /** Every handoff ever sent, and nothing else, is in exactly one of the five. */
  lemma ExactlyOnePlace(w: Swarm, run: Run, n: string)
    requires FreshNames(w, run)
    ensures
      var t := Last(w, run);
      One(n in At(t, Outbox)) + One(n in At(t, Pending)) + One(n in At(t, Sent)) + One(n in At(t, Failed))
        + One(n in Discarded(w, run)) == One(n in Posted(w, run))
  {
    RunBalanced(w, run);
    var t := Last(w, run);
    if n in Posted(w, run) && n !in Discarded(w, run) {
      var d :| IsQueue(d) && n in At(t, d);
    }
  }

  ghost predicate InOnePlace(t: Tree, r: string, n: string) {
    forall d, e :: InboxOf(d, r) && InboxOf(e, r) && n in At(t, d) && n in At(t, e) ==> d == e
  }

  lemma PostedInOnePlace(t: Tree, r: string, n: string, posted: set<string>)
    requires CopiesAgree(t, posted) && n in posted
    ensures InOnePlace(t, r, n)
  {}

  /** A sent handoff is with every recipient it lists, in one directory of each. */
  lemma SentReachedAll(w: Swarm, run: Run, n: string, r: string)
    requires FreshNames(w, run) && n in At(Last(w, run), Sent)
    requires r in RecipientList(At(Last(w, run), Sent)[n].headers)
    ensures Received(Last(w, run), r, n) && InOnePlace(Last(w, run), r, n)
  {
    RunBalanced(w, run);
    PostedInOnePlace(Last(w, run), r, n, Posted(w, run));
  }

  /**
    Once a role has a handoff, it has it, in one place, for exactly as long as
    the operator has not deleted the approval of its task.
   */
  lemma {:induction false} CopyIsKept(w: Swarm, prefix: Run, run: Run, n: string, r: string)
    requires FreshNames(w, run) && Within(prefix, run) && n in Posted(w, prefix) && Received(Last(w, prefix), r, n)
    ensures n in Posted(w, run) && InOnePlace(Last(w, run), r, n)
    ensures Received(Last(w, run), r, n) <==> n !in Discarded(w, run)
  {
    if prefix != run {
      CopyIsKept(w, prefix, run.run, n, r);
      RunBalanced(w, run.run);
      StepBalanced(w, Last(w, run.run), run.step, SentKeys(w, run.run), Discarded(w, run.run));
    }
    RunBalanced(w, run);
    PostedInOnePlace(Last(w, run), r, n, Posted(w, run));
    if Received(Last(w, run), r, n) { NotDiscarded(Last(w, run), r, n, Posted(w, run), Discarded(w, run)); }
  }

  lemma NotDiscarded(t: Tree, r: string, n: string, posted: set<string>, discarded: set<string>)
    requires Balanced(t, posted, discarded) && n in posted && Received(t, r, n)
    ensures n !in discarded
  {
    var d :| InboxOf(d, r) && n in At(t, d);
    assert n in At(t, Sent) || n in At(t, Failed);
    assert IsQueue(Sent) && IsQueue(Failed);
  }
}
